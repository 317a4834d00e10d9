/** The virtual-wall pass of `publishVirtualWall`: the walls built from each
    live observer's pose hints and module-specific walls, and the draining of
    those hints. */
module VirtualWalls {
  import opened ModuleTypes

  datatype WallKind = StopWall | SlowDownWall | DeadLineWall

  /** One entry of the virtual-wall batch: a wall built from a pose hint (its
      geometry is opaque), or a marker of the module's own wall array. */
  datatype WallEntry =
    | Standard(kind: WallKind, pose: Pose, owner: string, stamp: Time, id: uint32)
    | ModuleSpecific(marker: Marker)

  /** The id `publishVirtualWall` passes to every stop, slow-down and
      dead-line wall: `marker_id` starts at 255 and is never advanced in that
      loop. Module-specific walls keep their own ids. */
  const WALL_ID: uint32 := 255

  /** The order in which the pose walls of one observer are built. */
  function KindRank(kind: WallKind): nat
  {
    match kind
    case StopWall => 0
    case SlowDownWall => 1
    case DeadLineWall => 2
  }

  /** The pose hint an instance holds for one kind of wall. */
  function HintOf(m: SceneModule, kind: WallKind): Option<Pose>
  {
    match kind
    case StopWall => m.stopPose
    case SlowDownWall => m.slowPose
    case DeadLineWall => m.deadPose
  }

  /** How many of the three pose hints an instance holds. */
  function HintCount(m: SceneModule): nat
  {
    (if m.stopPose.Some? then 1 else 0) + (if m.slowPose.Some? then 1 else 0)
      + (if m.deadPose.Some? then 1 else 0)
  }

  function PoseWall(kind: WallKind, pose: Option<Pose>, owner: string, now: Time): seq<WallEntry>
  {
    if pose.Some? then [Standard(kind, pose.value, owner, now, WALL_ID)] else []
  }

  /** The pose walls of one live observer: one per hint it holds, each
      carrying that hint's pose, id 255, the module's name and the clock
      reading, in stop, slow-down, dead-line order. */
  function PoseWalls(m: SceneModule, now: Time): (r: seq<WallEntry>)
    ensures |r| == HintCount(m)
    ensures forall i :: 0 <= i < |r| ==>
      r[i].Standard? && r[i].id == WALL_ID && r[i].owner == m.name && r[i].stamp == now
    ensures forall i :: 0 <= i < |r| ==> HintOf(m, r[i].kind) == Some(r[i].pose)
    ensures forall kind :: HintOf(m, kind).Some? ==> Standard(kind, HintOf(m, kind).value, m.name, now, WALL_ID) in r
    ensures forall i, j :: 0 <= i < j < |r| ==> KindRank(r[i].kind) < KindRank(r[j].kind)
  {
    var stop := PoseWall(StopWall, m.stopPose, m.name, now);
    var slow := PoseWall(SlowDownWall, m.slowPose, m.name, now);
    var dead := PoseWall(DeadLineWall, m.deadPose, m.name, now);
    assert forall w :: w in stop ==> w.Standard? && w.kind == StopWall;
    assert forall w :: w in slow ==> w.Standard? && w.kind == SlowDownWall;
    assert forall w :: w in dead ==> w.Standard? && w.kind == DeadLineWall;
    stop + slow + dead
  }

  /** The walls one live observer contributes: its pose walls, then all its
      module-specific walls, unchanged and in order. */
  function WallsOf(m: SceneModule, now: Time): (r: seq<WallEntry>)
    ensures |r| == HintCount(m) + |m.moduleWalls|
    ensures r[..HintCount(m)] == PoseWalls(m, now)
    ensures forall i :: 0 <= i < |m.moduleWalls| ==> r[HintCount(m) + i] == ModuleSpecific(m.moduleWalls[i])
    ensures HasNoWallPoses(m) <==> |r| == |m.moduleWalls|
  {
    PoseWalls(m, now) + seq(|m.moduleWalls|, i requires 0 <= i < |m.moduleWalls| => ModuleSpecific(m.moduleWalls[i]))
  }

  /** The `publishVirtualWall` loop: the walls collected, and the instances
      after each visited one has had `resetWallPoses` called. */
  function WallPass(obs: seq<Handle>, live: set<Handle>, modules: map<Handle, SceneModule>, now: Time)
    : (r: (seq<WallEntry>, map<Handle, SceneModule>))
    requires live <= modules.Keys
    ensures r.1.Keys == modules.Keys
  {
    if obs == [] then ([], modules)
    else if obs[0] !in live then WallPass(obs[1..], live, modules, now)
    else
      var m := modules[obs[0]];
      var rest := WallPass(obs[1..], live, modules[obs[0] := ResetWallPoses(m)], now);
      (WallsOf(m, now) + rest.0, rest.1)
  }

  /** The wall pass drains the pose hints of every live observer, counts one
      `resetWallPoses` per visit, and changes nothing else of any instance. */
  lemma {:induction false} WallPassEffect(obs: seq<Handle>, live: set<Handle>, modules: map<Handle, SceneModule>, now: Time)
    requires live <= modules.Keys
    ensures WallPass(obs, live, modules, now).1.Keys == modules.Keys
    ensures forall h :: h in modules ==>
      var after := WallPass(obs, live, modules, now).1[h];
      if h in live && h in obs then
        after == modules[h].(stopPose := None, slowPose := None, deadPose := None,
                             wallResets := modules[h].wallResets + multiset(obs)[h])
      else after == modules[h]
    decreases |obs|, 1
  {
    if obs != [] {
      assert obs == [obs[0]] + obs[1..];
      if obs[0] in live {
        ResetAndPass(obs, live, modules, now);
      } else {
        WallPassEffect(obs[1..], live, modules, now);
      }
    }
  }

  lemma {:induction false} ResetAndPass(obs: seq<Handle>, live: set<Handle>, modules: map<Handle, SceneModule>, now: Time)
    requires live <= modules.Keys && obs != [] && obs[0] in live
    requires obs == [obs[0]] + obs[1..]
    decreases |obs|, 0
    ensures WallPass(obs, live, modules, now).1.Keys == modules.Keys
    ensures forall h :: h in modules ==>
      var after := WallPass(obs, live, modules, now).1[h];
      if h in live && h in obs then
        after == modules[h].(stopPose := None, slowPose := None, deadPose := None,
                             wallResets := modules[h].wallResets + multiset(obs)[h])
      else after == modules[h]
  {
    var h0 := obs[0];
    var mid := modules[h0 := ResetWallPoses(modules[h0])];
    WallPassEffect(obs[1..], live, mid, now);
    forall h | h in modules
      ensures var after := WallPass(obs, live, modules, now).1[h];
        if h in live && h in obs then
          after == modules[h].(stopPose := None, slowPose := None, deadPose := None,
                               wallResets := modules[h].wallResets + multiset(obs)[h])
        else after == modules[h]
    {
      assert multiset(obs)[h] == (if h == h0 then 1 else 0) + multiset(obs[1..])[h];
    }
  }

  predicate OnlyModuleWalls(walls: seq<WallEntry>)
  {
    forall i :: 0 <= i < |walls| ==> walls[i].ModuleSpecific?
  }

  /** Walls are drained, not duplicated: a second pass straight after the
      first yields only module-specific walls. */
  lemma SecondPassOnlyModuleWalls(obs: seq<Handle>, live: set<Handle>, modules: map<Handle, SceneModule>, now: Time)
    requires live <= modules.Keys
    ensures OnlyModuleWalls(WallPass(obs, live, WallPass(obs, live, modules, now).1, now).0)
  {
    WallPassEffect(obs, live, modules, now);
    var drained := WallPass(obs, live, modules, now).1;
    DrainedPassOnlyModuleWalls(obs, live, drained, now);
  }

  lemma {:induction false} DrainedPassOnlyModuleWalls(obs: seq<Handle>, live: set<Handle>, modules: map<Handle, SceneModule>, now: Time)
    requires live <= modules.Keys
    requires forall h :: h in obs && h in live ==> HasNoWallPoses(modules[h])
    ensures OnlyModuleWalls(WallPass(obs, live, modules, now).0)
  {
    if obs != [] {
      var h0 := obs[0];
      if h0 in live {
        var m := modules[h0];
        var mid := modules[h0 := ResetWallPoses(m)];
        assert HasNoWallPoses(m);
        forall h | h in obs[1..] && h in live ensures HasNoWallPoses(mid[h]) {
          assert h in obs;
        }
        DrainedPassOnlyModuleWalls(obs[1..], live, mid, now);
        var own, rest := WallsOf(m, now), WallPass(obs[1..], live, mid, now).0;
        assert OnlyModuleWalls(own);
        assert WallPass(obs, live, modules, now).0 == own + rest;
      } else {
        forall h | h in obs[1..] && h in live ensures HasNoWallPoses(modules[h]) {
          assert h in obs;
        }
        DrainedPassOnlyModuleWalls(obs[1..], live, modules, now);
      }
    }
  }
}
