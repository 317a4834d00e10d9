/** The manager's observer list as a value: pruning expired handles, asking
    whether an instance is tracked, and calling `onExit` on every live entry. */
module ObserverList {
  import opened ModuleTypes

  /** The live entries of `obs`, in their original order: what the stable
      `remove_if(expired)` followed by `erase` leaves behind. */
  function Live(obs: seq<Handle>, live: set<Handle>): (r: seq<Handle>)
    ensures forall h :: h in r <==> h in obs && h in live
    ensures |r| <= |obs|
  {
    if obs == [] then []
    else (if obs[0] in live then [obs[0]] else []) + Live(obs[1..], live)
  }

  /** `exist`: some entry of the list is live and refers to `h`. */
  ghost predicate Observed(obs: seq<Handle>, live: set<Handle>, h: Handle)
  {
    exists i :: 0 <= i < |obs| && obs[i] in live && obs[i] == h
  }

  predicate AllLive(obs: seq<Handle>, live: set<Handle>)
  {
    forall i :: 0 <= i < |obs| ==> obs[i] in live
  }

  /** Pruning keeps survivors in their relative order: pruning a list cut in
      two gives the survivors of the front part followed by the survivors of
      the back part. Together with `Live([h])` this pins `Live` down. */
  lemma {:induction false} LiveAppend(a: seq<Handle>, b: seq<Handle>, live: set<Handle>)
    ensures Live(a + b, live) == Live(a, live) + Live(b, live)
  {
    if a != [] {
      LiveAppend(a[1..], b, live);
      assert (a + b)[1..] == a[1..] + b;
    } else {
      assert a + b == b;
    }
  }

  /** Every handle keeps its multiplicity if live and disappears otherwise. */
  lemma {:induction false} LiveMultiplicity(obs: seq<Handle>, live: set<Handle>, h: Handle)
    ensures multiset(Live(obs, live))[h] == if h in live then multiset(obs)[h] else 0
  {
    if obs != [] {
      LiveMultiplicity(obs[1..], live, h);
      assert obs == [obs[0]] + obs[1..];
    }
  }

  /** Pruning twice is pruning once: `updateObserver` is idempotent. */
  lemma {:induction false} LiveIdempotent(obs: seq<Handle>, live: set<Handle>)
    ensures Live(Live(obs, live), live) == Live(obs, live)
  {
    if obs != [] {
      LiveIdempotent(obs[1..], live);
      if obs[0] in live {
        var r := Live(obs, live);
        assert r == [obs[0]] + Live(obs[1..], live);
        LiveAppend([obs[0]], Live(obs[1..], live), live);
        assert Live([obs[0]], live) == [obs[0]];
      } else {
        assert Live(obs, live) == Live(obs[1..], live);
      }
    }
  }

  /** A list whose entries are all live is left as it is. */
  lemma {:induction false} LiveOfAllLive(obs: seq<Handle>, live: set<Handle>)
    requires AllLive(obs, live)
    ensures Live(obs, live) == obs
  {
    if obs != [] {
      LiveOfAllLive(obs[1..], live);
    }
  }

  /** Pruning does not change what `exist` answers. */
  lemma ObservedAfterPrune(obs: seq<Handle>, live: set<Handle>, h: Handle)
    ensures Observed(Live(obs, live), live, h) <==> Observed(obs, live, h)
  {
    if Observed(obs, live, h) {
      assert h in Live(obs, live);
      var i :| 0 <= i < |Live(obs, live)| && Live(obs, live)[i] == h;
    }
  }

  /** After pruning, the list is empty exactly when no entry was live: then
      `canLaunchNewModule` holds. */
  lemma CanLaunchAfterPrune(obs: seq<Handle>, live: set<Handle>)
    ensures |Live(obs, live)| == 0 <==> forall i :: 0 <= i < |obs| ==> obs[i] !in live
  {
    if |Live(obs, live)| != 0 {
      assert Live(obs, live)[0] in Live(obs, live);
    }
  }

  /** The `reset` loop: `onExit` on every live entry, in list order. */
  function ExitAll(obs: seq<Handle>, live: set<Handle>, modules: map<Handle, SceneModule>): (r: map<Handle, SceneModule>)
    requires live <= modules.Keys
    ensures r.Keys == modules.Keys
    ensures forall h :: h in modules && h !in live ==> r[h] == modules[h]
  {
    if obs == [] then modules
    else
      var after := if obs[0] in live then modules[obs[0] := OnExit(modules[obs[0]])] else modules;
      ExitAll(obs[1..], live, after)
  }

  /** `reset` calls `onExit` once per live entry (twice on an instance that
      was registered twice), and on nothing else; no other part of any
      instance changes. */
  lemma {:induction false} ExitAllCounts(obs: seq<Handle>, live: set<Handle>, modules: map<Handle, SceneModule>)
    requires live <= modules.Keys
    ensures ExitAll(obs, live, modules).Keys == modules.Keys
    ensures forall h :: h in modules ==>
      ExitAll(obs, live, modules)[h] ==
        if h in live then modules[h].(exits := modules[h].exits + multiset(obs)[h]) else modules[h]
  {
    if obs != [] {
      var after := if obs[0] in live then modules[obs[0] := OnExit(modules[obs[0]])] else modules;
      ExitAllCounts(obs[1..], live, after);
      assert obs == [obs[0]] + obs[1..];
    }
  }
}
