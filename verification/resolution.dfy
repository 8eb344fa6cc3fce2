/** What the guard set of the machine stack achieves across nested calls,
    and what repeated extruder additions leave behind. */
module Resolution {
  import opened Values
  import opened Settings

  /** `chain` is a sequence of nested getProperty(key, "value") calls that
      each take the resolve path: chain[0] is asked with `guard`, and the
      evaluation of its "resolve" property, running with chain[0] added to
      the guard, asks chain[1], and so on. */
  ghost predicate ResolveChain(view: ContainerView, guard: set<string>, chain: seq<string>)
    decreases |chain|
  {
    chain == []
    || (chain[0] in view.defined
        && ShouldResolve(guard, view, chain[0], "value")
        && ResolveChain(view, guard + {chain[0]}, chain[1..]))
  }

  /** The guard set once every call of a nested chain has returned: each
      call adds its key before the nested calls and removes it after. */
  ghost function GuardAfter(guard: set<string>, chain: seq<string>): set<string>
    decreases |chain|
  {
    if chain == [] then guard else GuardAfter(guard + {chain[0]}, chain[1..]) - {chain[0]}
  }

  /** A key already being resolved cannot take the resolve path again:
      every call of a nested chain is for a key outside the outer guard, and
      no key occurs twice. */
  lemma {:induction false} ChainKeysDistinct(view: ContainerView, guard: set<string>, chain: seq<string>)
    requires ResolveChain(view, guard, chain)
    ensures forall i :: 0 <= i < |chain| ==> chain[i] !in guard
    ensures forall i, j :: 0 <= i < j < |chain| ==> chain[i] != chain[j]
    decreases |chain|
  {
    if chain != [] {
      ChainKeysDistinct(view, guard + {chain[0]}, chain[1..]);
      forall i, j | 0 <= i < j < |chain| ensures chain[i] != chain[j] {
        assert chain[j] == chain[1..][j - 1];
        if i > 0 {
          assert chain[i] == chain[1..][i - 1];
        }
      }
      forall i | 0 <= i < |chain| ensures chain[i] !in guard {
        if i > 0 {
          assert chain[i] == chain[1..][i - 1];
        }
      }
    }
  }

  /** Nested resolution always ends: the depth of a chain is at most the
      number of defined keys not already being resolved. */
  lemma {:induction false} ChainDepthBounded(view: ContainerView, guard: set<string>, chain: seq<string>)
    requires ResolveChain(view, guard, chain)
    ensures |chain| <= |view.defined - guard|
    decreases |chain|
  {
    if chain != [] {
      var k := chain[0];
      ChainDepthBounded(view, guard + {k}, chain[1..]);
      assert k in view.defined - guard;
      assert view.defined - (guard + {k}) == (view.defined - guard) - {k};
    }
  }

  /** Once every nested call has returned, the guard set is what it was
      before the outermost call, so every removal finds its key present. */
  lemma {:induction false} NestedResolutionRestoresGuard(view: ContainerView, guard: set<string>, chain: seq<string>)
    requires ResolveChain(view, guard, chain)
    ensures GuardAfter(guard, chain) == guard
    ensures chain != [] ==> chain[0] in GuardAfter(guard + {chain[0]}, chain[1..])
    decreases |chain|
  {
    if chain != [] {
      NestedResolutionRestoresGuard(view, guard + {chain[0]}, chain[1..]);
      assert chain[0] !in guard;
    }
  }

  /** The extruder list after addExtruder has been called once for each of
      `added`, in order, on a stack whose extruder count resolves to `count`
      (no member modelled here changes the containers, so the count is the
      same for every call). Failed calls leave the list as it is. */
  ghost function ExtrudersAfterCalls(stackId: StackId, count: Option<Value>, extruders: seq<StackId>, added: seq<StackId>): seq<StackId>
    decreases |added|
  {
    if added == [] then extruders
    else
      var next := if CapacityCheck(stackId, count, |extruders|).Pass? then extruders + [added[0]] else extruders;
      ExtrudersAfterCalls(stackId, count, next, added[1..])
  }

  /** A caller that adds the extruders of `added` one at a time, in order,
      ignoring the calls that raise: the list it leaves is the one
      ExtrudersAfterCalls describes, so the two lemmas below are about the
      stack itself. */
  method AddEach(s: GlobalStack, added: seq<StackId>)
    modifies s`extruders, s`resolvingSettings
    ensures s.resolvingSettings == old(s.resolvingSettings)
    ensures s.extruders == ExtrudersAfterCalls(s.id,
              ResolvedProperty(s.containers, old(s.resolvingSettings), MachineExtruderCount, "value"),
              old(s.extruders), added)
    ensures old(s.WithinCapacity()) ==> s.WithinCapacity()
  {
    ghost var count := ResolvedProperty(s.containers, s.resolvingSettings, MachineExtruderCount, "value");
    ghost var start := s.extruders;
    for i := 0 to |added|
      invariant s.resolvingSettings == old(s.resolvingSettings)
      invariant ExtrudersAfterCalls(s.id, count, start, added)
                == ExtrudersAfterCalls(s.id, count, s.extruders, added[i..])
      invariant old(s.WithinCapacity()) ==> s.WithinCapacity()
    {
      assert added[i..][1..] == added[i + 1..];
      var _ := s.AddExtruder(added[i]);
    }
    assert added[|added|..] == [];
  }

  function Min(a: int, b: int): int
  {
    if a <= b then a else b
  }

  /** With an extruder count of n > 0, repeated additions keep the first
      extruders that fit, in order, and reject all the rest: after n
      successful additions every further one fails. */
  lemma {:induction false} AdditionsFillUpToCount(stackId: StackId, n: int, extruders: seq<StackId>, added: seq<StackId>)
    requires 0 < n && |extruders| <= n
    ensures ExtrudersAfterCalls(stackId, Some(IntValue(n)), extruders, added)
            == extruders + added[..Min(|added|, n - |extruders|)]
    ensures |ExtrudersAfterCalls(stackId, Some(IntValue(n)), extruders, added)| <= n
    decreases |added|
  {
    if added != [] {
      if |extruders| < n {
        AdditionsFillUpToCount(stackId, n, extruders + [added[0]], added[1..]);
        assert added[..Min(|added|, n - |extruders|)]
               == [added[0]] + added[1..][..Min(|added[1..]|, n - |extruders + [added[0]]|)];
      } else {
        AdditionsFillUpToCount(stackId, n, extruders, added[1..]);
      }
    }
  }

  /** With a falsy extruder count (None, 0, False or ""), every addition
      succeeds and the list grows by all of `added`, in order. */
  lemma {:induction false} NoCountAppendsAll(stackId: StackId, count: Option<Value>, extruders: seq<StackId>, added: seq<StackId>)
    requires !Truthy(count)
    ensures ExtrudersAfterCalls(stackId, count, extruders, added) == extruders + added
    decreases |added|
  {
    if added != [] {
      NoCountAppendsAll(stackId, count, extruders + [added[0]], added[1..]);
      assert extruders + [added[0]] + added[1..] == extruders + added;
    }
  }
}
