/** Values shared by the scene-module manager model: the machine integers the
    marker arithmetic uses, the opaque planning values the manager passes
    through, and the observable state of one scene-module instance. */
module ModuleTypes {

  /** `int32_t`, the type of a visualization marker's `id`. */
  newtype int32 = x: int | -0x8000_0000 <= x < 0x8000_0000

  /** `uint32_t`, the type of the manager's running `marker_id`. */
  newtype uint32 = x: int | 0 <= x < 0x1_0000_0000

  const TWO_POW_32: int := 0x1_0000_0000

  datatype Option<T> = None | Some(value: T)

  datatype Result<T, E> = Success(value: T) | Failure(error: E)

  /** A non-owning reference to a scene-module instance (a
      `std::weak_ptr<SceneModuleInterface>` in the C++ class). Handles are never reused, so a handle whose instance has been
      destroyed stays expired. */
  type Handle = nat

  /** Opaque snapshot of the shared planning context (`PlannerData`). */
  datatype PlannerData = PlannerData(snapshot: nat)

  /** Opaque output of the previous pipeline stage (`BehaviorModuleOutput`). */
  datatype ModuleOutput = ModuleOutput(path: nat)

  /** Opaque pose; its geometry is not part of this model. */
  datatype Pose = Pose(token: nat)

  /** Opaque clock reading. */
  datatype Time = Time(nanos: nat)

  /** A visualization marker: its id, and everything else as an opaque token. */
  datatype Marker = Marker(id: int32, shape: nat)

  /** The three marker arrays every instance exposes. */
  datatype MarkerKind = Info | Debug | DrivableLanes

  /** The observable state of one scene-module instance. The counters record
      how often each lifecycle hook has been called on it, so that contracts
      can say which hooks an operation calls and how many times. */
  datatype SceneModule = SceneModule(
    name: string,
    data: Option<PlannerData>,
    previousOutput: Option<ModuleOutput>,
    stopPose: Option<Pose>,
    slowPose: Option<Pose>,
    deadPose: Option<Pose>,
    moduleWalls: seq<Marker>,
    infoMarkers: seq<Marker>,
    debugMarkers: seq<Marker>,
    drivableLanesMarkers: seq<Marker>,
    entries: nat,
    exits: nat,
    wallResets: nat,
    updates: nat,
    reporters: nat)

  function MarkersOf(m: SceneModule, kind: MarkerKind): seq<Marker>
  {
    match kind
    case Info => m.infoMarkers
    case Debug => m.debugMarkers
    case DrivableLanes => m.drivableLanesMarkers
  }

  /** The `onEntry` hook: one more entry, nothing else changes. */
  function OnEntry(m: SceneModule): (r: SceneModule)
    ensures r.entries == m.entries + 1 && r.(entries := m.entries) == m
  {
    m.(entries := m.entries + 1)
  }

  /** The `onExit` hook: one more exit, nothing else changes. */
  function OnExit(m: SceneModule): (r: SceneModule)
    ensures r.exits == m.exits + 1 && r.(exits := m.exits) == m
  {
    m.(exits := m.exits + 1)
  }

  /** `resetWallPoses`: the pose hints are drained once collected; the
      markers, the module-specific walls and the other hooks' counts stay. */
  function ResetWallPoses(m: SceneModule): (r: SceneModule)
    ensures HasNoWallPoses(r) && r.wallResets == m.wallResets + 1
    ensures r.(stopPose := m.stopPose, slowPose := m.slowPose, deadPose := m.deadPose,
               wallResets := m.wallResets) == m
  {
    m.(stopPose := None, slowPose := None, deadPose := None, wallResets := m.wallResets + 1)
  }

  predicate HasNoWallPoses(m: SceneModule)
  {
    m.stopPose.None? && m.slowPose.None? && m.deadPose.None?
  }

  /** What `registerNewModule` does to a live instance: inject the planning
      context and the previous output, attach the processing-time reporter,
      then call `onEntry`. */
  function Register(m: SceneModule, data: Option<PlannerData>, previous: ModuleOutput): (r: SceneModule)
    ensures r.data == data && r.previousOutput == Some(previous)
    ensures r.reporters == m.reporters + 1 && r.entries == m.entries + 1
    ensures r.exits == m.exits && r.updates == m.updates && r.wallResets == m.wallResets
    ensures r.(data := m.data, previousOutput := m.previousOutput,
               reporters := m.reporters, entries := m.entries) == m
  {
    OnEntry(m.(data := data, previousOutput := Some(previous), reporters := m.reporters + 1))
  }

  /** What `isExecutionRequested` does to the idle probe before asking it:
      `setData`, `setPreviousModuleOutput`, `updateData`. */
  function Refresh(m: SceneModule, data: Option<PlannerData>, previous: ModuleOutput): (r: SceneModule)
    ensures r.data == data && r.previousOutput == Some(previous) && r.updates == m.updates + 1
    ensures r.entries == m.entries && r.exits == m.exits
    ensures r.(data := m.data, previousOutput := m.previousOutput, updates := m.updates) == m
  {
    m.(data := data, previousOutput := Some(previous), updates := m.updates + 1)
  }

  /** The pool of instances owned outside the manager (by the orchestrator).
      `live` is the set of handles whose instance still exists; `expired()`
      on a handle is `h !in live`. Destroyed instances keep their last state
      in `modules` so that contracts can still talk about it. */
  class InstancePool {
    var modules: map<Handle, SceneModule>
    var live: set<Handle>
    var next: Handle

    ghost predicate Valid()
      reads this
    {
      live <= modules.Keys && forall h :: h in modules ==> h < next
    }

    constructor ()
      ensures Valid() && modules == map[] && live == {}
    {
      modules, live, next := map[], {}, 0;
    }

    /** `weak_ptr::expired`, negated. */
    predicate IsLive(h: Handle)
      reads this
    {
      h in live
    }

    /** The owner takes an instance into shared ownership: a fresh, live handle. */
    method Adopt(m: SceneModule) returns (h: Handle)
      requires Valid()
      modifies this
      ensures Valid()
      ensures h !in old(modules) && modules == old(modules)[h := m]
      ensures live == old(live) + {h}
    {
      h := next;
      modules := modules[h := m];
      live := live + {h};
      next := next + 1;
    }

    /** The owner drops its last reference: every handle to the instance expires. */
    method Release(h: Handle)
      requires Valid()
      modifies this
      ensures Valid()
      ensures modules == old(modules) && live == old(live) - {h}
    {
      live := live - {h};
    }
  }
}
