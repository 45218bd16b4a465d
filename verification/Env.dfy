// The compile-time environment (src/env.cc): two parallel stacks of maps, updated in place.
// `lexical` maps a name to the value that stands for it inside one function; `refs` maps a
// captured name to the value that stands for it one function further out.
module Env {
  import opened Wrappers
  import opened Syntax
  import opened KeyOrder
  import opened Convert

  /** A snapshot of the environment's fields. */
  datatype Scopes = Scopes(lexical: seq<Binding>, refs: seq<Binding>, next: nat)

  // ---- what is visible --------------------------------------------------------------------------

  /** One of the functions lo..hi of the chain (outermost first) has `x` as a parameter. */
  predicate Bound(chain: seq<seq<string>>, lo: nat, hi: nat, x: string)
    requires lo <= hi <= |chain|
  {
    exists j :: lo <= j < hi && x in chain[j]
  }

  function Visible(chain: seq<seq<string>>): (r: set<string>)
    ensures forall x :: x in r <==> Bound(chain, 0, |chain|, x)
  {
    set j, x | 0 <= j < |chain| && x in chain[j] :: x
  }

  /** Of `names`, those that code in the innermost function fetches through scope `k`:
      bound further out than k, and by nothing from k inwards. */
  ghost function FetchedThrough(chain: seq<seq<string>>, k: nat, names: set<string>): set<string>
    requires 1 <= k <= |chain|
  {
    set x | x in names && Bound(chain, 0, k - 1, x) && !Bound(chain, k - 1, |chain|, x)
  }

  // ---- the invariant ----------------------------------------------------------------------------

  /** One scope against the one around it. The keys are the parameters and the captures; a
      capture stands as its own placeholder here and as the outer scope's value in `refs`. */
  ghost predicate ValidScope(outer: Binding, lexical: Binding, refs: Binding, formals: seq<string>, next: nat) {
    && lexical.Keys == Elements(formals) + refs.Keys
    && refs.Keys !! Elements(formals)
    && (forall x :: x in formals ==> lexical[x] == Arg(Position(formals, x)))
    && (forall x :: x in refs ==> lexical[x].Hole? && lexical[x].id < next)
    && (forall x, y :: x in refs && y in refs && lexical[x] == lexical[y] ==> x == y)
    && (forall x :: x in refs ==> x in outer && refs[x] == outer[x])
  }

  ghost predicate ScopeAt(s: Scopes, chain: seq<seq<string>>, k: nat)
    requires |s.lexical| == |s.refs| == |chain| + 1
  {
    1 <= k <= |chain| ==> ValidScope(s.lexical[k - 1], s.lexical[k], s.refs[k], chain[k - 1], s.next)
  }

  ghost predicate ValidScopes(s: Scopes, chain: seq<seq<string>>) {
    && |s.lexical| == |s.refs| == |chain| + 1
    && s.lexical[0] == map[] && s.refs[0] == map[]
    && forall k :: ScopeAt(s, chain, k)
  }

  predicate SubMap(m: Binding, n: Binding) {
    forall x :: x in m ==> x in n && n[x] == m[x]
  }

  /** `t` is `s` after exactly the captures that evaluating `names` in the innermost function
      takes: every scope keeps what it had. */
  ghost predicate Fetched(s: Scopes, t: Scopes, chain: seq<seq<string>>, names: set<string>) {
    && ValidScopes(s, chain) && ValidScopes(t, chain)
    && s.next <= t.next
    && forall k :: FetchedAt(s, t, chain, names, k)
  }

  ghost predicate FetchedAt(s: Scopes, t: Scopes, chain: seq<seq<string>>, names: set<string>, k: nat)
    requires |s.lexical| == |s.refs| == |t.lexical| == |t.refs| == |chain| + 1
  {
    1 <= k <= |chain| ==>
      && SubMap(s.lexical[k], t.lexical[k])
      && SubMap(s.refs[k], t.refs[k])
      && t.refs[k].Keys == s.refs[k].Keys + FetchedThrough(chain, k, names)
  }

  lemma FetchedNothing(s: Scopes, chain: seq<seq<string>>)
    requires ValidScopes(s, chain)
    ensures Fetched(s, s, chain, {})
  {
  }

  lemma FetchedBoth(s: Scopes, t: Scopes, u: Scopes, chain: seq<seq<string>>, a: set<string>, b: set<string>)
    requires Fetched(s, t, chain, a) && Fetched(t, u, chain, b)
    ensures Fetched(s, u, chain, a + b)
  {
    forall k: nat | 1 <= k <= |chain| ensures FetchedAt(s, u, chain, a + b, k)
    {
      assert FetchedAt(s, t, chain, a, k) && FetchedAt(t, u, chain, b, k);
      assert FetchedThrough(chain, k, a + b) == FetchedThrough(chain, k, a) + FetchedThrough(chain, k, b);
    }
  }

  /** A name a scope knows is a parameter of that function or one around it. */
  lemma {:induction false} KnownIsBound(s: Scopes, chain: seq<seq<string>>, k: nat, x: string)
    requires ValidScopes(s, chain) && k <= |chain| && x in s.lexical[k]
    ensures Bound(chain, 0, k, x)
  {
    assert k == 0 || ScopeAt(s, chain, k);
    if x !in chain[k - 1] {
      KnownIsBound(s, chain, k - 1, x);
    }
  }

  /** A name known in scope b and bound nowhere from k to b was captured through k. */
  lemma {:induction false} KnownWasFetched(s: Scopes, chain: seq<seq<string>>, b: nat, k: nat, x: string)
    requires ValidScopes(s, chain) && 1 <= k <= b <= |chain| && x in s.lexical[b]
    requires !Bound(chain, k - 1, b, x)
    ensures x in s.refs[k]
    decreases b - k
  {
    assert x !in chain[b - 1];
    assert ScopeAt(s, chain, b);
    if k < b {
      KnownWasFetched(s, chain, b - 1, k, x);
    }
  }

  /** Following the references of a known name outwards ends at the innermost function that
      has it as a parameter: cached captures agree with static-chain lookup. */
  lemma {:induction false} ReferencesReachParameter(s: Scopes, chain: seq<seq<string>>, k: nat, x: string)
    returns (j: nat)
    requires ValidScopes(s, chain) && k <= |chain| && x in s.lexical[k]
    ensures 1 <= j <= k && x in chain[j - 1] && !Bound(chain, j, k, x)
    ensures x in s.lexical[j] && s.lexical[j][x] == Arg(Position(chain[j - 1], x))
    ensures forall i :: j < i <= k ==> RefersOutwards(s, x, i)
  {
    hide ScopeAt;
    KnownInScope(s, chain, k, x);
    if x in chain[k - 1] {
      j := k;
    } else {
      j := ReferencesReachParameter(s, chain, k - 1, x);
    }
  }

  /** Scope i took its reference from the scope around it. */
  ghost predicate RefersOutwards(s: Scopes, x: string, i: nat) {
    0 < i < |s.refs| == |s.lexical| && x in s.refs[i] && x in s.lexical[i - 1] && s.refs[i][x] == s.lexical[i - 1][x]
  }

  lemma KnownInScope(s: Scopes, chain: seq<seq<string>>, k: nat, x: string)
    requires ValidScopes(s, chain) && k <= |chain| && x in s.lexical[k]
    ensures k > 0
    ensures x in chain[k - 1] ==> s.lexical[k][x] == Arg(Position(chain[k - 1], x))
    ensures x !in chain[k - 1] ==> x in s.lexical[k - 1] && RefersOutwards(s, x, k)
  {
    assert k > 0 && ScopeAt(s, chain, k);
  }

  /** The visible names of an expression are all known to the innermost scope afterwards. */
  lemma FetchedAreKnown(s: Scopes, t: Scopes, chain: seq<seq<string>>, names: set<string>, x: string)
    requires Fetched(s, t, chain, names) && x in names
    ensures x in t.lexical[|chain|] <==> x in Visible(chain)
  {
    var top := |chain|;
    assert ScopeAt(t, chain, top) && FetchedAt(s, t, chain, names, top);
    if x in t.lexical[top] {
      KnownIsBound(t, chain, top, x);
    }
    if x in Visible(chain) && x !in chain[top - 1] {
      assert x in FetchedThrough(chain, top, names);
    }
  }

  // ---- looking up a name ------------------------------------------------------------------------

  function Insert(m: Binding, x: string, v: Code): Binding {
    if x in m then m else m[x := v]
  }

  /** What stands for `x` in scope k once every scope inside b has captured it. */
  ghost function CapturedAs(s: Scopes, b: nat, x: string, k: nat): Code
    requires b <= k && b < |s.lexical| && x in s.lexical[b]
  {
    if k == b then s.lexical[b][x] else Hole(s.next + (k - b - 1))
  }

  /** All scopes inside scope `b` capture `x`, each from the next one out. */
  ghost function Capture(s: Scopes, b: nat, x: string): (t: Scopes)
    requires |s.lexical| == |s.refs| && b < |s.lexical| && x in s.lexical[b]
    ensures |t.lexical| == |s.lexical| && |t.refs| == |s.refs| && t.next == s.next + (|s.lexical| - 1 - b)
    ensures forall k :: 0 <= k <= b ==> t.lexical[k] == s.lexical[k] && t.refs[k] == s.refs[k]
    ensures forall k :: b < k < |s.lexical| ==> t.lexical[k] == s.lexical[k][x := CapturedAs(s, b, x, k)]
    ensures forall k :: b < k < |s.lexical| ==> t.refs[k] == s.refs[k][x := CapturedAs(s, b, x, k - 1)]
  {
    Scopes(seq(|s.lexical|, k requires 0 <= k < |s.lexical| =>
             if k <= b then s.lexical[k] else s.lexical[k][x := CapturedAs(s, b, x, k)]),
           seq(|s.refs|, k requires 0 <= k < |s.lexical| =>
             if k <= b then s.refs[k] else s.refs[k][x := CapturedAs(s, b, x, k - 1)]),
           s.next + (|s.lexical| - 1 - b))
  }

  /** Two neighbouring scopes after a capture by the inner one. */
  lemma CaptureScope(outer: Binding, lexical: Binding, refs: Binding, formals: seq<string>, next: nat,
                     outer': Binding, x: string, id: nat, next': nat)
    requires ValidScope(outer, lexical, refs, formals, next)
    requires SubMap(outer, outer') && x in outer' && x !in lexical
    requires next <= id < next'
    ensures ValidScope(outer', lexical[x := Hole(id)], refs[x := outer'[x]], formals, next')
  {
  }

  lemma ValidScopeLater(outer: Binding, lexical: Binding, refs: Binding, formals: seq<string>, next: nat, next': nat)
    requires ValidScope(outer, lexical, refs, formals, next) && next <= next'
    ensures ValidScope(outer, lexical, refs, formals, next')
  {
  }

  lemma CaptureIsValidAt(s: Scopes, chain: seq<seq<string>>, b: nat, x: string, k: nat)
    requires ValidScopes(s, chain) && b <= |chain| && x in s.lexical[b]
    requires forall j :: b < j <= |chain| ==> x !in s.lexical[j]
    requires 1 <= k <= |chain|
    ensures ScopeAt(Capture(s, b, x), chain, k)
  {
    hide Capture, ValidScope;
    var t := Capture(s, b, x);
    assert ScopeAt(s, chain, k);
    if k <= b {
      ValidScopeLater(s.lexical[k - 1], s.lexical[k], s.refs[k], chain[k - 1], s.next, t.next);
    } else {
      assert t.lexical[k - 1][x] == CapturedAs(s, b, x, k - 1);
      CaptureScope(s.lexical[k - 1], s.lexical[k], s.refs[k], chain[k - 1], s.next,
                   t.lexical[k - 1], x, s.next + (k - b - 1), t.next);
    }
  }

  lemma CaptureFetchesAt(s: Scopes, chain: seq<seq<string>>, b: nat, x: string, k: nat)
    requires ValidScopes(s, chain) && b <= |chain| && x in s.lexical[b]
    requires forall j :: b < j <= |chain| ==> x !in s.lexical[j]
    requires 1 <= k <= |chain|
    ensures FetchedThrough(chain, k, {x}) == if k <= b then FetchedThrough(chain, k, {x}) * s.refs[k].Keys else {x}
  {
    if k <= b {
      if x in FetchedThrough(chain, k, {x}) {
        KnownWasFetched(s, chain, b, k, x);
      }
    } else {
      KnownIsBound(s, chain, b, x);
      assert Bound(chain, 0, k - 1, x);
      forall j | k - 1 <= j < |chain| ensures x !in chain[j] {
        assert x !in s.lexical[j + 1];
        assert ScopeAt(s, chain, j + 1);
      }
    }
  }

  lemma CaptureFetches(s: Scopes, chain: seq<seq<string>>, b: nat, x: string)
    requires ValidScopes(s, chain) && b <= |chain| && x in s.lexical[b]
    requires forall k :: b < k <= |chain| ==> x !in s.lexical[k]
    ensures Fetched(s, Capture(s, b, x), chain, {x})
  {
    var t := Capture(s, b, x);
    forall k: nat | 1 <= k <= |chain| ensures ScopeAt(t, chain, k) {
      CaptureIsValidAt(s, chain, b, x, k);
    }
    forall k: nat | 1 <= k <= |chain| ensures FetchedAt(s, t, chain, {x}, k) {
      CaptureFetchesAt(s, chain, b, x, k);
      assert ScopeAt(s, chain, k);
    }
  }

  lemma UnknownFetchesNothing(s: Scopes, chain: seq<seq<string>>, x: string)
    requires ValidScopes(s, chain)
    requires forall k :: 0 <= k <= |chain| ==> x !in s.lexical[k]
    ensures x !in Visible(chain)
    ensures Fetched(s, s, chain, {x})
  {
    forall j: nat | 0 <= j < |chain| ensures x !in chain[j] {
      assert ScopeAt(s, chain, j + 1);
      assert x !in s.lexical[j + 1];
    }
  }

  lemma PositionIsFirst(s: seq<string>, x: string, i: nat)
    requires i < |s| && s[i] == x && forall j :: 0 <= j < i ==> s[j] != x
    ensures Position(s, x) == i
  {
  }

  /** Of two parameters of the same name the first one stays. */
  lemma ParameterAdded(outer: Binding, m: Binding, formals: seq<string>, x: string, next: nat)
    requires ValidScope(outer, m, map[], formals, next)
    ensures ValidScope(outer, Insert(m, x, Arg(|formals|)), map[], formals + [x], next)
  {
    hide Position;
    forall y | y in formals ensures Position(formals + [x], y) == Position(formals, y) {
      PositionIsFirst(formals + [x], y, Position(formals, y));
    }
    if x !in formals {
      PositionIsFirst(formals + [x], x, |formals|);
    }
  }

  lemma NotCaptured(s: Scopes, chain: seq<seq<string>>, b: nat, x: string)
    requires ValidScopes(s, chain) && forall k :: b < k <= |chain| ==> x !in s.lexical[k]
    ensures forall k :: b < k <= |chain| ==> x !in s.refs[k]
  {
    forall k | b < k <= |chain| ensures x !in s.refs[k] { assert ScopeAt(s, chain, k); }
  }

  class ExecutionEnv {
    var lexical: seq<Binding>
    var refs: seq<Binding>
    var global: set<string>
    var next: nat                        // names the placeholders apart
    ghost var chain: seq<seq<string>>    // the parameters of the open functions

    ghost function State(): Scopes reads this { Scopes(lexical, refs, next) }

    ghost predicate Valid() reads this { ValidScopes(State(), chain) }

    constructor ()
      ensures Valid() && chain == [] && State() == Scopes([map[]], [map[]], 0)
    {
      global := {};
      lexical := [map[]];
      refs := [map[]];
      next := 0;
      chain := [];
    }

    method AddGlobalBinding(name: string)
      modifies this`global
      ensures global == old(global) + {name}
    {
      global := global + {name};
    }

    method NewScope()
      requires Valid()
      modifies this`lexical, this`refs, this`chain
      ensures Valid() && chain == old(chain) + [[]]
      ensures lexical == old(lexical) + [map[]] && refs == old(refs) + [map[]]
    {
      lexical := lexical + [map[]];
      refs := refs + [map[]];
      chain := chain + [[]];
      assert forall k :: old(ScopeAt(State(), chain, k)) ==> k == |chain| || ScopeAt(State(), chain, k);
    }

    /** Binds the next parameter of the innermost function, which has captured nothing yet. */
    method AddBinding(name: string, val: Code)
      requires Valid() && chain != [] && refs[|chain|] == map[]
      requires val == Arg(|chain[|chain| - 1]|)
      modifies this`lexical, this`chain
      ensures Valid()
      ensures chain == old(chain[..|chain| - 1]) + [old(chain[|chain| - 1]) + [name]]
      ensures lexical[..|lexical| - 1] == old(lexical[..|lexical| - 1])
    {
      hide ValidScope;
      var top := |lexical| - 1;
      ghost var formals := chain[top - 1];
      assert ScopeAt(State(), chain, top);
      ParameterAdded(lexical[top - 1], lexical[top], formals, name, next);
      lexical := lexical[top := Insert(lexical[top], name, val)];
      chain := chain[..top - 1] + [formals + [name]];
      forall k ensures ScopeAt(State(), chain, k) {
        assert old(ScopeAt(State(), chain, k));
      }
    }

    method ExitLastScope()
      requires Valid() && chain != []
      modifies this`lexical, this`refs, this`chain
      ensures Valid() && chain == old(chain[..|chain| - 1])
      ensures lexical == old(lexical[..|lexical| - 1]) && refs == old(refs[..|refs| - 1])
    {
      lexical := lexical[..|lexical| - 1];
      refs := refs[..|refs| - 1];
      chain := chain[..|chain| - 1];
      assert forall k :: old(ScopeAt(State(), chain, k)) ==> ScopeAt(State(), chain, k);
    }

    /** The captures of the innermost function: what it knows and does not bind itself, each
        with what stands for it in the function around it. */
    method GetCurrentRefs() returns (r: Binding)
      requires Valid()
      ensures r == refs[|refs| - 1]
      ensures chain == [] ==> r == map[]
      ensures chain != [] ==> r.Keys == lexical[|chain|].Keys - Elements(chain[|chain| - 1])
      ensures chain != [] ==> forall x :: x in r ==> x in lexical[|chain| - 1] && r[x] == lexical[|chain| - 1][x]
    {
      r := refs[|refs| - 1];
      assert chain != [] ==> ScopeAt(State(), chain, |chain|);
    }

    /** Walks outwards to the scope that knows the name, then back inwards making references. */
    method SearchLocalBinding(name: string) returns (val: Option<Code>)
      requires Valid()
      modifies this`lexical, this`refs, this`next
      ensures Fetched(old(State()), State(), chain, {name})
      ensures val.Some? <==> name in Visible(chain)
      ensures val.Some? ==> name in lexical[|lexical| - 1] && val.value == lexical[|lexical| - 1][name]
      ensures val.None? || name in old(lexical[|lexical| - 1]) ==> State() == old(State())
    {
      ghost var s := State();
      var top := |lexical| - 1;
      var p := top;
      while p >= 0 && name !in lexical[p]
        invariant -1 <= p <= top
        invariant forall k :: p < k <= top ==> name !in lexical[k]
      {
        p := p - 1;
      }
      if p < 0 {
        UnknownFetchesNothing(s, chain, name);
        return None;
      }
      KnownIsBound(s, chain, p, name);
      CaptureFetches(s, chain, p, name);
      if p == top {
        assert Capture(s, top, name) == s;
        return Some(lexical[top][name]);
      }
      var v := MakeRefs(name, p);
      return Some(v);
    }

    /** The way back inwards from the scope that knows the name. */
    method MakeRefs(name: string, b: nat) returns (v: Code)
      requires Valid() && b < |chain| && name in lexical[b]
      requires forall k :: b < k <= |chain| ==> name !in lexical[k]
      modifies this`lexical, this`refs, this`next
      ensures State() == Capture(old(State()), b, name)
      ensures v == CapturedAs(old(State()), b, name, |chain|)
    {
      hide Capture, ValidScope;
      ghost var s := State();
      ghost var t := Capture(s, b, name);
      NotCaptured(s, chain, b, name);
      var p, top := b, |lexical| - 1;
      v := lexical[p][name];
      while p < top
        invariant b <= p <= top
        invariant |lexical| == |refs| == top + 1
        invariant next == s.next + (p - b)
        invariant v == CapturedAs(s, b, name, p)
        invariant forall k :: 0 <= k <= top ==> lexical[k] == if k <= p then t.lexical[k] else s.lexical[k]
        invariant forall k :: 0 <= k <= top ==> refs[k] == if k <= p then t.refs[k] else s.refs[k]
      {
        p := p + 1;
        refs := refs[p := Insert(refs[p], name, v)];
        assert refs[p] == t.refs[p];
        v := Hole(next);
        next := next + 1;
        lexical := lexical[p := Insert(lexical[p], name, v)];
        assert lexical[p] == t.lexical[p];
      }
    }
  }
}
