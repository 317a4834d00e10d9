/** The manager of one type of scene module: it keeps non-owning references
    to the live instances of that type, a lazily created idle probe that
    answers "would this module ask to run now", the configuration it read at
    start-up, and merges the instances' markers for publication. */
module SceneModuleManager {
  import opened ModuleTypes
  import opened ObserverList
  import opened MarkerIds
  import opened VirtualWalls
  import opened ManagerConfig

  class SceneModuleManagerInterface {
    /** The module type's name. */
    const name: string
    /** The instances the references point into (owned by the orchestrator). */
    const pool: InstancePool
    /** What `createNewSceneModuleInstance` builds for this module type. */
    const prototype: SceneModule
    /** The module type's own answer to `isExecutionRequested`, given the
        probe's state after `updateData`. */
    const requestPolicy: SceneModule -> bool

    var plannerData: Option<PlannerData>
    var observers: seq<Handle>
    var idle: Option<SceneModule>
    var config: ModuleConfig
    var rtcInterfaces: map<string, RtcEntry>
    var steeringFactorName: string

    ghost predicate Valid()
      reads this, pool
    {
      pool.Valid()
    }

    constructor (name: string, pool: InstancePool, prototype: SceneModule, requestPolicy: SceneModule -> bool)
      requires pool.Valid()
      ensures Valid()
      ensures this.name == name && this.pool == pool && this.prototype == prototype
      ensures this.requestPolicy == requestPolicy
      ensures plannerData == None && observers == [] && idle == None
      ensures config == ModuleConfig(false, false, false) && rtcInterfaces == map[]
    {
      this.name := name;
      this.pool := pool;
      this.prototype := prototype;
      this.requestPolicy := requestPolicy;
      plannerData := None;
      observers := [];
      idle := None;
      config := ModuleConfig(false, false, false);
      rtcInterfaces := map[];
      steeringFactorName := [];
    }

    /** Re-arms an existing idle probe with `onEntry`, or creates one. */
    method UpdateIdleModuleInstance()
      modifies this`idle
      ensures idle.Some?
      ensures old(idle).Some? ==> idle == Some(OnEntry(old(idle).value))
      ensures old(idle).None? ==> idle == Some(prototype)
    {
      if idle.Some? {
        idle := Some(OnEntry(idle.value));
        return;
      }
      idle := Some(prototype);
    }

    /** Feeds the planning context and the previous stage's output to the
        idle probe, refreshes it, and asks whether it wants to run. The probe
        must exist. The observer list is not touched. */
    method IsExecutionRequested(previous: ModuleOutput) returns (requested: bool)
      requires idle.Some?
      modifies this`idle
      ensures idle == Some(Refresh(old(idle).value, plannerData, previous))
      ensures requested == requestPolicy(idle.value)
    {
      var probe := Refresh(idle.value, plannerData, previous);
      idle := Some(probe);
      requested := requestPolicy(probe);
    }

    /** Starts tracking an instance. An expired handle changes nothing.
        `canLaunchNewModule` is not consulted: that check is the caller's. */
    method RegisterNewModule(h: Handle, previous: ModuleOutput)
      requires Valid()
      modifies this`observers, pool`modules
      ensures Valid()
      ensures h !in pool.live ==> observers == old(observers) && pool.modules == old(pool.modules)
      ensures h in pool.live ==>
        observers == old(observers) + [h] &&
        pool.modules == old(pool.modules)[h := Register(old(pool.modules)[h], plannerData, previous)]
    {
      if !pool.IsLive(h) {
        return;
      }
      pool.modules := pool.modules[h := Register(pool.modules[h], plannerData, previous)];
      observers := observers + [h];
    }

    /** Drops every expired reference, keeping the survivors in order. */
    method UpdateObserver()
      modifies this`observers
      ensures observers == Live(old(observers), pool.live)
    {
      var kept: seq<Handle> := [];
      ghost var live := pool.live;
      var i := 0;
      while i < |observers|
        invariant 0 <= i <= |observers|
        invariant observers == old(observers) && kept == Live(observers[..i], live)
      {
        var h := observers[i];
        assert observers[..i + 1] == observers[..i] + [h];
        LiveAppend(observers[..i], [h], live);
        assert [h][1..] == [];
        if pool.IsLive(h) {
          kept := kept + [h];
        }
        i := i + 1;
      }
      assert observers[..i] == observers;
      observers := kept;
    }

    /** Collects the virtual walls of every live observer and drains their
        pose hints. */
    method PublishVirtualWall(now: Time) returns (walls: seq<WallEntry>)
      requires Valid()
      modifies pool`modules
      ensures Valid()
      ensures walls == WallPass(observers, pool.live, old(pool.modules), now).0
      ensures pool.modules == WallPass(observers, pool.live, old(pool.modules), now).1
    {
      walls := [];
      var i := 0;
      assert observers[i..] == observers;
      while i < |observers|
        invariant 0 <= i <= |observers|
        invariant pool.Valid()
        invariant walls + WallPass(observers[i..], pool.live, pool.modules, now).0
                  == WallPass(observers, pool.live, old(pool.modules), now).0
        invariant WallPass(observers[i..], pool.live, pool.modules, now).1
                  == WallPass(observers, pool.live, old(pool.modules), now).1
      {
        assert observers[i..][1..] == observers[i + 1..];
        var h := observers[i];
        if pool.IsLive(h) {
          var m := pool.modules[h];
          walls := walls + WallsOf(m, now);
          pool.modules := pool.modules[h := ResetWallPoses(m)];
        }
        i := i + 1;
      }
      assert observers[i..] == [];
    }

    /** `marker_id += marker_offset` on a `uint32_t`. */
    static method NextMarkerId(markerId: uint32, ghost k: nat) returns (r: uint32)
      requires markerId == Offset(k)
      ensures r == Offset(k + 1)
    {
      OffsetStep(k);
      r := Wrap32(markerId as int + MARKER_OFFSET);
    }

    /** `marker.id += marker_id; push_back(marker)` over one marker array. */
    static method AppendShifted(acc: seq<Marker>, ms: seq<Marker>, offset: uint32) returns (r: seq<Marker>)
      ensures r == acc + Shift(ms, offset)
    {
      r := acc;
      for j := 0 to |ms|
        invariant r == acc + Shift(ms, offset)[..j]
      {
        var marker := ms[j].(id := ShiftId(ms[j].id, offset));
        r := r + [marker];
      }
    }

    /** The invariant of the loop over `observers_` in `publishMarker`: the
        three arrays built so far, followed by the pending part of the batch
        from the k-th block on, give the whole batch of each kind. It is a
        proof device only and stands for no statement of its own. */
    static ghost predicate Accumulated(info: seq<Marker>, debug: seq<Marker>, drivableLanes: seq<Marker>,
                                       rest: seq<Handle>, modules: map<Handle, SceneModule>, k: nat,
                                       L: seq<Handle>)
    {
      InModules(rest, modules) && InModules(L, modules) &&
      info + Batch(rest, modules, Info, k) == Batch(L, modules, Info, 1) &&
      debug + Batch(rest, modules, Debug, k) == Batch(L, modules, Debug, 1) &&
      drivableLanes + Batch(rest, modules, DrivableLanes, k) == Batch(L, modules, DrivableLanes, 1)
    }

    /** One of the three inner loops of `publishMarker` (info, debug or
        drivable-lanes markers): one live observer's markers of one kind,
        shifted into its block and appended. The block moves from the pending
        part of the batch to the accumulated part. */
    static method AppendBlock(acc: seq<Marker>, ms: seq<Marker>, markerId: uint32,
                              ghost rest: seq<Handle>, ghost next: seq<Handle>,
                              ghost modules: map<Handle, SceneModule>, ghost kind: MarkerKind,
                              ghost k: nat, ghost L: seq<Handle>)
      returns (r: seq<Marker>)
      requires InModules(rest, modules) && InModules(next, modules) && InModules(L, modules)
      requires rest != [] && ms == MarkersOf(modules[rest[0]], kind) && markerId == Offset(k)
      requires Batch(rest, modules, kind, k) == Block(modules[rest[0]], kind, k) + Batch(next, modules, kind, k + 1)
      requires acc + Batch(rest, modules, kind, k) == Batch(L, modules, kind, 1)
      ensures r + Batch(next, modules, kind, k + 1) == Batch(L, modules, kind, 1)
    {
      r := AppendShifted(acc, ms, markerId);
      assert r == acc + Block(modules[rest[0]], kind, k);
      assert r + Batch(next, modules, kind, k + 1) == acc + Batch(rest, modules, kind, k);
    }

    /** The body of the loop over `observers_` in `publishMarker` for an
        entry that has not expired: the three inner loops, one `AppendBlock`
        each, then `marker_id += marker_offset`. */
    static method VisitLive(info: seq<Marker>, debug: seq<Marker>, drivableLanes: seq<Marker>,
                            markerId: uint32, m: SceneModule,
                            ghost rest: seq<Handle>, ghost next: seq<Handle>,
                            ghost modules: map<Handle, SceneModule>, ghost k: nat, ghost L: seq<Handle>)
      returns (info': seq<Marker>, debug': seq<Marker>, drivableLanes': seq<Marker>, markerId': uint32)
      requires Accumulated(info, debug, drivableLanes, rest, modules, k, L) && markerId == Offset(k)
      requires InModules(next, modules) && rest != [] && m == modules[rest[0]]
      requires forall kind :: Batch(rest, modules, kind, k) == Block(m, kind, k) + Batch(next, modules, kind, k + 1)
      ensures Accumulated(info', debug', drivableLanes', next, modules, k + 1, L)
      ensures markerId' == Offset(k + 1)
    {
      info' := AppendBlock(info, m.infoMarkers, markerId, rest, next, modules, Info, k, L);
      debug' := AppendBlock(debug, m.debugMarkers, markerId, rest, next, modules, Debug, k, L);
      drivableLanes' := AppendBlock(drivableLanes, m.drivableLanesMarkers, markerId,
                                    rest, next, modules, DrivableLanes, k, L);
      markerId' := NextMarkerId(markerId, k);
    }

    /** The three merged marker arrays: each live observer's markers shifted
        into its own id block, or the idle probe's when the list is empty. */
    method PublishMarker() returns (info: seq<Marker>, debug: seq<Marker>, drivableLanes: seq<Marker>)
      requires Valid()
      ensures info == Published(observers, pool.live, pool.modules, idle, Info)
      ensures debug == Published(observers, pool.live, pool.modules, idle, Debug)
      ensures drivableLanes == Published(observers, pool.live, pool.modules, idle, DrivableLanes)
    {
      info, debug, drivableLanes := [], [], [];
      var markerId: uint32 := MARKER_OFFSET as uint32;
      ghost var modules, live := pool.modules, pool.live;
      ghost var L := Live(observers, live);
      ghost var k: nat := 1;
      ghost var rest := L;
      LiveInModules(observers, live, modules);
      assert observers[0..] == observers;
      var i := 0;
      while i < |observers|
        invariant 0 <= i <= |observers|
        invariant rest == Live(observers[i..], live) && markerId == Offset(k)
        invariant Accumulated(info, debug, drivableLanes, rest, modules, k, L)
      {
        var h := observers[i];
        ghost var next := Live(observers[i + 1..], live);
        if pool.IsLive(h) {
          BatchStepLive(observers, i, live, modules, k);
          info, debug, drivableLanes, markerId :=
            VisitLive(info, debug, drivableLanes, markerId, pool.modules[h], rest, next, modules, k, L);
          k := k + 1;
        } else {
          BatchStepExpired(observers, i, live, modules);
        }
        rest := next;
        i := i + 1;
      }
      assert observers[i..] == [];
      if |observers| == 0 && idle.Some? {
        info := info + idle.value.infoMarkers;
        debug := debug + idle.value.debugMarkers;
        drivableLanes := drivableLanes + idle.value.drivableLanesMarkers;
      }
    }

    /** `exist`: whether some entry of the list is live and refers to `h`. */
    method Exist(h: Handle) returns (found: bool)
      ensures found <==> Observed(observers, pool.live, h)
    {
      found := false;
      var i := 0;
      while i < |observers| && !found
        invariant 0 <= i <= |observers|
        invariant found <==> exists j :: 0 <= j < i && observers[j] in pool.live && observers[j] == h
      {
        found := pool.IsLive(observers[i]) && observers[i] == h;
        i := i + 1;
      }
    }

    /** The exclusivity gate: a new instance may start only while no
        reference is held; then no instance of this type is tracked. */
    function CanLaunchNewModule(): (r: bool)
      reads this
      ensures r <==> observers == []
      ensures r ==> forall h :: !Observed(observers, pool.live, h)
    {
      |observers| == 0
    }

    method SetData(data: PlannerData)
      modifies this`plannerData
      ensures plannerData == Some(data)
    {
      plannerData := Some(data);
    }

    /** `onExit` on every live observer and on the idle probe, then forget
        both. `debugBatch` is the empty debug array published to retract stale
        markers; `retiredProbe` is the probe's last state before it is dropped. */
    method Reset() returns (debugBatch: seq<Marker>, ghost retiredProbe: Option<SceneModule>)
      requires Valid()
      modifies this`observers, this`idle, pool`modules
      ensures Valid()
      ensures observers == [] && idle == None && debugBatch == []
      ensures pool.modules == ExitAll(old(observers), pool.live, old(pool.modules))
      ensures retiredProbe == if old(idle).Some? then Some(OnExit(old(idle).value)) else None
    {
      var i := 0;
      assert observers[i..] == observers;
      while i < |observers|
        invariant 0 <= i <= |observers|
        invariant observers == old(observers) && idle == old(idle)
        invariant pool.Valid()
        invariant ExitAll(observers[i..], pool.live, pool.modules) == ExitAll(observers, pool.live, old(pool.modules))
      {
        assert observers[i..][1..] == observers[i + 1..];
        var h := observers[i];
        if pool.IsLive(h) {
          pool.modules := pool.modules[h := OnExit(pool.modules[h])];
        }
        i := i + 1;
      }
      assert observers[i..] == [];
      observers := [];
      retiredProbe := None;
      if idle.Some? {
        retiredProbe := Some(OnExit(idle.value));
        idle := None;
      }
      debugBatch := [];
    }

    /** Hands the idle probe over to the caller, leaving none behind. */
    method GetIdleModule() returns (probe: Option<SceneModule>)
      modifies this`idle
      ensures probe == old(idle) && idle == None
    {
      probe := idle;
      idle := None;
    }

    /** Reads the configuration, then creates one RTC entry per listed type
        and names the steering-factor interface. A lookup that fails aborts
        initialisation: the flags already read stay written, nothing after
        the failing lookup happens, and the error is returned. */
    method InitInterface(params: Params, rtcTypes: seq<string>, toSnakeCase: string -> string)
      returns (failure: Option<ConfigError>)
      modifies this`config, this`rtcInterfaces, this`steeringFactorName
      ensures failure.None? <==> ResolveConfig(name, params).Success?
      ensures ResolveConfig(name, params).Success? ==>
        config == ResolveConfig(name, params).value &&
        rtcInterfaces == EmplaceAll(old(rtcInterfaces), rtcTypes, toSnakeCase(name), config.enableRtc) &&
        steeringFactorName == toSnakeCase(name)
      ensures ResolveConfig(name, params).Failure? ==>
        failure == Some(ResolveConfig(name, params).error) &&
        rtcInterfaces == old(rtcInterfaces) && steeringFactorName == old(steeringFactorName)
      ensures ResolveEnableRtc(name, params).Failure? ==> config == old(config)
      ensures ResolveEnableRtc(name, params).Success? && ApprovedKey(name) !in params ==>
        config == old(config).(enableRtc := ResolveEnableRtc(name, params).value)
      ensures ResolveEnableRtc(name, params).Success? && ApprovedKey(name) in params && CandidateKey(name) !in params ==>
        config == old(config).(enableRtc := ResolveEnableRtc(name, params).value,
                               enableSimultaneousExecutionAsApprovedModule := params[ApprovedKey(name)])
    {
      var rtc := ResolveEnableRtc(name, params);
      if rtc.Failure? {
        return Some(rtc.error);
      }
      config := config.(enableRtc := rtc.value);
      var approved := GetParameter(params, ApprovedKey(name));
      if approved.Failure? {
        return Some(approved.error);
      }
      config := config.(enableSimultaneousExecutionAsApprovedModule := approved.value);
      var candidate := GetParameter(params, CandidateKey(name));
      if candidate.Failure? {
        return Some(candidate.error);
      }
      config := config.(enableSimultaneousExecutionAsCandidateModule := candidate.value);

      ghost var start, resolved := rtcInterfaces, config;
      assert rtcTypes[0..] == rtcTypes;
      for i := 0 to |rtcTypes|
        invariant config == resolved
        invariant EmplaceAll(rtcInterfaces, rtcTypes[i..], toSnakeCase(name), config.enableRtc)
                  == EmplaceAll(start, rtcTypes, toSnakeCase(name), config.enableRtc)
      {
        assert rtcTypes[i..][1..] == rtcTypes[i + 1..];
        var rtcType := rtcTypes[i];
        var snakeCaseName := toSnakeCase(name);
        var interfaceName := if rtcType == [] then snakeCaseName else snakeCaseName + "_" + rtcType;
        if rtcType !in rtcInterfaces {
          rtcInterfaces := rtcInterfaces[rtcType := RtcEntry(interfaceName, config.enableRtc)];
        }
      }
      assert rtcTypes[|rtcTypes|..] == [];
      steeringFactorName := toSnakeCase(name);
      failure := None;
    }
  }
}
