/** Clients of the manager that run one planning cycle's calls in the order
    the orchestrator makes them, and what the manager's contracts let them
    conclude. */
module ManagerScenarios {
  import opened ModuleTypes
  import opened ObserverList
  import opened MarkerIds
  import opened SceneModuleManager

  /** The idle probe asks to run, is handed over, adopted by the owner and
      registered: the manager then tracks one instance, which has had one
      `onEntry`, and the gate is closed. */
  method LaunchFromIdleProbe(name: string, prototype: SceneModule, policy: SceneModule -> bool,
                             data: PlannerData, previous: ModuleOutput)
    returns (requested: bool, tracked: nat, canLaunch: bool, entries: nat)
    ensures requested == policy(Refresh(prototype, Some(data), previous))
    ensures tracked == 1 && !canLaunch
    ensures entries == prototype.entries + 1
  {
    var pool := new InstancePool();
    var manager := new SceneModuleManagerInterface(name, pool, prototype, policy);
    manager.SetData(data);
    manager.UpdateIdleModuleInstance();
    requested := manager.IsExecutionRequested(previous);
    var probe := manager.GetIdleModule();
    var h := pool.Adopt(probe.value);
    manager.RegisterNewModule(h, previous);
    tracked := |manager.observers|;
    canLaunch := manager.CanLaunchNewModule();
    entries := pool.modules[h].entries;
  }

  /** `registerNewModule` does not consult the gate: a second registration
      while the gate is closed is accepted and the list grows to two. */
  method RegisterTwiceGrowsToTwo(first: SceneModule, second: SceneModule, prototype: SceneModule,
                                 policy: SceneModule -> bool, previous: ModuleOutput)
    returns (gateBeforeSecond: bool, tracked: nat, firstTracked: bool, secondTracked: bool)
    ensures !gateBeforeSecond
    ensures tracked == 2 && firstTracked && secondTracked
  {
    var pool := new InstancePool();
    var manager := new SceneModuleManagerInterface("lane_change", pool, prototype, policy);
    var h1 := pool.Adopt(first);
    var h2 := pool.Adopt(second);
    manager.RegisterNewModule(h1, previous);
    gateBeforeSecond := manager.CanLaunchNewModule();
    manager.RegisterNewModule(h2, previous);
    tracked := |manager.observers|;
    assert manager.observers == [h1, h2];
    assert manager.observers[0] == h1 && manager.observers[1] == h2;
    firstTracked := manager.Exist(h1);
    secondTracked := manager.Exist(h2);
  }

  /** The owner destroys the tracked instance; after pruning, the gate is
      open again and the published markers are the idle probe's, not the
      destroyed instance's. */
  method ExpiredInstanceFallsBackToIdleProbe(instance: SceneModule, prototype: SceneModule,
                                             policy: SceneModule -> bool, previous: ModuleOutput)
    returns (canLaunch: bool, info: seq<Marker>, debug: seq<Marker>, drivableLanes: seq<Marker>)
    ensures canLaunch
    ensures info == prototype.infoMarkers && debug == prototype.debugMarkers
    ensures drivableLanes == prototype.drivableLanesMarkers
  {
    var pool := new InstancePool();
    var manager := new SceneModuleManagerInterface("avoidance", pool, prototype, policy);
    var h := pool.Adopt(instance);
    manager.RegisterNewModule(h, previous);
    pool.Release(h);
    manager.UpdateObserver();
    assert manager.observers == [];
    canLaunch := manager.CanLaunchNewModule();
    manager.UpdateIdleModuleInstance();
    info, debug, drivableLanes := manager.PublishMarker();
  }

  /** A second `reset` straight after the first finds nothing to exit: the
      instance keeps the one `onExit` of the first call, and the manager
      stays empty with no probe. */
  method ResetTwice(instance: SceneModule, prototype: SceneModule, policy: SceneModule -> bool,
                    previous: ModuleOutput)
    returns (exitsAfterFirst: nat, exitsAfterSecond: nat, emptyAfterSecond: bool)
    ensures exitsAfterFirst == instance.exits + 1
    ensures exitsAfterSecond == exitsAfterFirst
    ensures emptyAfterSecond
  {
    var pool := new InstancePool();
    var manager := new SceneModuleManagerInterface("start_planner", pool, prototype, policy);
    var h := pool.Adopt(instance);
    manager.RegisterNewModule(h, previous);
    manager.UpdateIdleModuleInstance();
    ghost var tracked, beforeReset := manager.observers, pool.modules;
    assert tracked == [h];
    var cleared: seq<Marker>;
    ghost var retired: Option<SceneModule>;
    cleared, retired := manager.Reset();
    ExitAllCounts(tracked, pool.live, beforeReset);
    exitsAfterFirst := pool.modules[h].exits;
    cleared, retired := manager.Reset();
    exitsAfterSecond := pool.modules[h].exits;
    emptyAfterSecond := manager.observers == [] && manager.idle == None;
  }
}
