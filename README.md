# Scene-module manager model

This project models `SceneModuleManagerInterface`, the manager that
Autoware's behavior path planner keeps for each type of scene module (lane
change, avoidance, start planner, ...). The class is declared in
`planning/behavior_path_planner/autoware_behavior_path_planner_common/include/autoware/behavior_path_planner_common/interface/scene_module_manager_interface.hpp`; below, "the header" means that file, and `hpp:N` means line N of
it. The model is written in Dafny, and its properties are proved.

The manager does five things:

- It holds non-owning references (`weak_ptr`s) to the live instances of its
  module type, in an observer list.
- It keeps a lazily created *idle probe*. The probe is an instance the manager
  owns, and it answers the question "would this module ask to run now".
- It offers the exclusivity gate `canLaunchNewModule`. The gate is open only
  while the observer list is empty.
- It merges the instances' markers and virtual walls for publication. Each
  live instance's marker ids are shifted into a block of its own.
- At start-up it reads its configuration and names its cooperative-approval
  (RTC) interfaces.

## How the model is built

- **References.** A `weak_ptr` becomes a `Handle` into an `InstancePool`. The
  pool is a class that stands for the instances owned by the orchestrator. It
  holds `modules: map<Handle, SceneModule>` and `live: set<Handle>`.
  `expired()` is `h !in pool.live`. A destroyed instance keeps its last state
  in `modules`, so contracts can still say that nothing happened to it.
- **Hook counters.** Each `SceneModule` value counts the lifecycle hooks
  called on it: `entries` (`onEntry`), `exits` (`onExit`), `wallResets`
  (`resetWallPoses`), `updates` (`updateData`) and `reporters` (the
  processing-time reporter being attached). With these counters, contracts
  can say which hooks an operation calls and how often.
- **The manager.** The Dafny class `SceneModuleManagerInterface` has one
  field per member variable of the header's class that the core uses:
  - `observers` for `observers_` (hpp:333).
  - `idle` for `idle_module_ptr_` (hpp:335).
  - `plannerData` for `planner_data_` (hpp:329).
  - `config` for `config_` (hpp:342).
  - `steeringFactorName` for the name given to `steering_factor_interface_ptr_` (hpp:331).
  - `rtcInterfaces` for the two maps `rtc_interface_ptr_map_` and
    `objects_of_interest_marker_interface_ptr_map_` (hpp:337-340). They are
    merged into one map because both are filled by the same `emplace` loop,
    under the same keys (hpp:285-288).

  Its methods update these fields in place.
  - The abstract factory `createNewSceneModuleInstance` is the constant
    `prototype`.
  - The module's own `isExecutionRequested` is the constant `requestPolicy`.
- **Specification functions.** Each loop method is proved against a function
  over values:
  - `Live` for pruning.
  - `Batch`/`Published` for `publishMarker`.
  - `WallPass` for `publishVirtualWall`.
  - `ExitAll` for `reset`.
  - `EmplaceAll` for the RTC loop.

  Lemmas about these functions state what the header's code and comments
  promise.
- **Marker ids.** `marker.id` is an `int32_t`, and the running `marker_id` is a
  `uint32_t`. The model writes out the wrap-around of both: `Wrap32`,
  `ToInt32`, `ShiftId` and `Offset`. The lemmas show that the shift is plain
  addition of `255 * k` while nothing wraps.

### Behaviour of the code worth knowing

- **Two registrations in a row.** The comment on `canLaunchNewModule`
  (hpp:209-216) says that only one instance of a module type is registered at
  a time. `registerNewModule` (hpp:79-92) never consults the gate, though.
  Two registrations in a row therefore leave two entries in the list
  (`ManagerScenarios.RegisterTwiceGrowsToTwo`). The one-at-a-time promise
  holds only for callers that check the gate first.
- **Marker-id collisions.** `publishMarker` shifts the ids of the k-th live
  observer by 255·k (hpp:165-188).
  - Ids from different observers are distinct when each instance keeps its
    own ids in [0, 255) and the blocks stay inside the `int32_t` range
    (`MarkerIds.BatchCollisionFree`).
  - An instance with an id of 255 or more can collide with the next
    instance's block (`MarkerIds.WideIdsCollide`).
- **Virtual-wall ids.** `publishVirtualWall` sets `marker_id` to 255
  (hpp:121) and never advances it. Every stop, slow-down and dead-line wall
  is built with id 255 (`VirtualWalls.WALL_ID`), whichever instance it comes
  from. Module-specific walls are appended as the module returns them
  (hpp:148-149) and keep their own ids.
- **The idle-probe fallback.** The fallback in `publishMarker` (hpp:191)
  tests whether the raw list is empty, not whether it has live entries. The
  fallback therefore shows only after `updateObserver` has pruned the list
  (`ManagerScenarios.ExpiredInstanceFallsBackToIdleProbe`).
- **`isExecutionRequested`.** It dereferences the probe without a check
  (hpp:72), so the model requires that the probe exists.

## Model

| member | source | states |
|---|---|---|
| `ModuleTypes.InstancePool.Adopt` | planning/behavior_path_planner/autoware_behavior_path_planner_common/include/autoware/behavior_path_planner_common/interface/scene_module_manager_interface.hpp:44-45 | the owner takes an instance into shared ownership: it gets a fresh handle that is live, and no other instance changes |
| `ModuleTypes.InstancePool.Release` | planning/behavior_path_planner/autoware_behavior_path_planner_common/include/autoware/behavior_path_planner_common/interface/scene_module_manager_interface.hpp:44-45 | the owner destroys an instance: exactly that handle expires, and every instance's state is kept |
| `SceneModuleManager.SceneModuleManagerInterface.constructor` | planning/behavior_path_planner/autoware_behavior_path_planner_common/include/autoware/behavior_path_planner_common/interface/scene_module_manager_interface.hpp:54 | a new manager has its name, an empty observer list, no idle probe, no planning context and no RTC interfaces |
| `ModuleTypes.OnEntry` | planning/behavior_path_planner/autoware_behavior_path_planner_common/include/autoware/behavior_path_planner_common/interface/scene_module_manager_interface.hpp:63 | the `onEntry` hook adds one to the instance's entry count and changes nothing else |
| `ModuleTypes.Refresh` | planning/behavior_path_planner/autoware_behavior_path_planner_common/include/autoware/behavior_path_planner_common/interface/scene_module_manager_interface.hpp:72-74 | before the probe is asked, it holds the given planning context and previous output and has had one more `updateData`; its entry and exit counts and every other field are unchanged |
| `ModuleTypes.Register` | planning/behavior_path_planner/autoware_behavior_path_planner_common/include/autoware/behavior_path_planner_common/interface/scene_module_manager_interface.hpp:86-89 | a registered instance holds the planning context and previous output, has one more reporter and one more `onEntry`, and its exit, update and wall-reset counts and every other field are unchanged |
| `SceneModuleManager.SceneModuleManagerInterface.UpdateIdleModuleInstance` | planning/behavior_path_planner/autoware_behavior_path_planner_common/include/autoware/behavior_path_planner_common/interface/scene_module_manager_interface.hpp:60-68 | afterwards the probe exists; an existing probe is kept and gets exactly one more `onEntry`; otherwise a fresh instance from the factory is installed |
| `SceneModuleManager.SceneModuleManagerInterface.IsExecutionRequested` | planning/behavior_path_planner/autoware_behavior_path_planner_common/include/autoware/behavior_path_planner_common/interface/scene_module_manager_interface.hpp:70-77 | requires the probe to exist; the probe receives the planning context and the previous output and is refreshed once; the answer is the module's own verdict on the refreshed probe; the observer list is outside the frame |
| `SceneModuleManager.SceneModuleManagerInterface.RegisterNewModule` | planning/behavior_path_planner/autoware_behavior_path_planner_common/include/autoware/behavior_path_planner_common/interface/scene_module_manager_interface.hpp:79-92 | an expired handle changes neither the list nor any instance; a live handle is appended at the end of the list and receives context, previous output, one reporter and exactly one `onEntry`; the gate is not consulted |
| `SceneModuleManager.SceneModuleManagerInterface.UpdateObserver` | planning/behavior_path_planner/autoware_behavior_path_planner_common/include/autoware/behavior_path_planner_common/interface/scene_module_manager_interface.hpp:94-101 | the new list is the old list filtered to its live entries (`Live`) |
| `ObserverList.Live` | planning/behavior_path_planner/autoware_behavior_path_planner_common/include/autoware/behavior_path_planner_common/interface/scene_module_manager_interface.hpp:94-101 | a handle survives pruning if and only if it was in the list and is live, so no expired entry remains and every live one survives; the list never grows |
| `ObserverList.LiveAppend` | planning/behavior_path_planner/autoware_behavior_path_planner_common/include/autoware/behavior_path_planner_common/interface/scene_module_manager_interface.hpp:96-100 | survivors keep their relative order: pruning a list cut in two gives the front part's survivors followed by the back part's |
| `ObserverList.LiveMultiplicity` | planning/behavior_path_planner/autoware_behavior_path_planner_common/include/autoware/behavior_path_planner_common/interface/scene_module_manager_interface.hpp:96-100 | a live handle keeps the number of times it occurs; an expired handle no longer occurs at all |
| `ObserverList.LiveIdempotent` | planning/behavior_path_planner/autoware_behavior_path_planner_common/include/autoware/behavior_path_planner_common/interface/scene_module_manager_interface.hpp:94-101 | pruning twice gives the same list as pruning once |
| `ObserverList.LiveOfAllLive` | planning/behavior_path_planner/autoware_behavior_path_planner_common/include/autoware/behavior_path_planner_common/interface/scene_module_manager_interface.hpp:94-101 | a list whose entries are all live is left exactly as it was |
| `SceneModuleManager.SceneModuleManagerInterface.Exist` | planning/behavior_path_planner/autoware_behavior_path_planner_common/include/autoware/behavior_path_planner_common/interface/scene_module_manager_interface.hpp:202-207 | true exactly when some entry of the list is live and refers to the given handle |
| `ObserverList.ObservedAfterPrune` | planning/behavior_path_planner/autoware_behavior_path_planner_common/include/autoware/behavior_path_planner_common/interface/scene_module_manager_interface.hpp:202-207 | pruning the list does not change the answer of `exist` for any handle |
| `SceneModuleManager.SceneModuleManagerInterface.CanLaunchNewModule` | planning/behavior_path_planner/autoware_behavior_path_planner_common/include/autoware/behavior_path_planner_common/interface/scene_module_manager_interface.hpp:209-218 | the gate is open exactly when the list is empty, and while it is open no instance of the type is tracked |
| `ObserverList.CanLaunchAfterPrune` | planning/behavior_path_planner/autoware_behavior_path_planner_common/include/autoware/behavior_path_planner_common/interface/scene_module_manager_interface.hpp:218 | after pruning, the gate is open exactly when no entry of the old list was live |
| `SceneModuleManager.SceneModuleManagerInterface.SetData` | planning/behavior_path_planner/autoware_behavior_path_planner_common/include/autoware/behavior_path_planner_common/interface/scene_module_manager_interface.hpp:230 | the manager's planning context becomes the given snapshot |
| `SceneModuleManager.SceneModuleManagerInterface.Reset` | planning/behavior_path_planner/autoware_behavior_path_planner_common/include/autoware/behavior_path_planner_common/interface/scene_module_manager_interface.hpp:232-248 | the list becomes empty and the probe is dropped; every live observer gets its `onExit` calls (`ExitAll`); the dropped probe's last state has one more `onExit`; the debug batch published is empty |
| `ModuleTypes.OnExit` | planning/behavior_path_planner/autoware_behavior_path_planner_common/include/autoware/behavior_path_planner_common/interface/scene_module_manager_interface.hpp:236 | the `onExit` hook adds one to the instance's exit count and changes nothing else |
| `ObserverList.ExitAll` | planning/behavior_path_planner/autoware_behavior_path_planner_common/include/autoware/behavior_path_planner_common/interface/scene_module_manager_interface.hpp:234-238 | the `onExit` pass over the list keeps the set of instances, and leaves every expired instance exactly as it was |
| `ObserverList.ExitAllCounts` | planning/behavior_path_planner/autoware_behavior_path_planner_common/include/autoware/behavior_path_planner_common/interface/scene_module_manager_interface.hpp:234-238 | a live instance gets one `onExit` per occurrence in the list; expired instances and every other field are untouched |
| `ManagerScenarios.ResetTwice` | planning/behavior_path_planner/autoware_behavior_path_planner_common/include/autoware/behavior_path_planner_common/interface/scene_module_manager_interface.hpp:232-248 | a second `reset` calls no further `onExit` and leaves the same state: an empty list and no probe |
| `SceneModuleManager.SceneModuleManagerInterface.GetIdleModule` | planning/behavior_path_planner/autoware_behavior_path_planner_common/include/autoware/behavior_path_planner_common/interface/scene_module_manager_interface.hpp:254 | the probe is handed out by move: the caller receives it and the manager no longer holds one |
| `MarkerIds.ShiftId` | planning/behavior_path_planner/autoware_behavior_path_planner_common/include/autoware/behavior_path_planner_common/interface/scene_module_manager_interface.hpp:174 | `marker.id += marker_id` on an `int32_t` id and a `uint32_t` offset gives the sum modulo 2^32 |
| `MarkerIds.Offset` | planning/behavior_path_planner/autoware_behavior_path_planner_common/include/autoware/behavior_path_planner_common/interface/scene_module_manager_interface.hpp:188 | the k-th value of `marker_id` is 255·k modulo 2^32 |
| `MarkerIds.Batch` | planning/behavior_path_planner/autoware_behavior_path_planner_common/include/autoware/behavior_path_planner_common/interface/scene_module_manager_interface.hpp:165-189 | the merged array holds exactly the live observers' markers, in list order and with the same number of markers; only the ids differ from the unshifted concatenation (`Unshifted`) |
| `SceneModuleManager.SceneModuleManagerInterface.AppendShifted` | planning/behavior_path_planner/autoware_behavior_path_planner_common/include/autoware/behavior_path_planner_common/interface/scene_module_manager_interface.hpp:173-186 | the inner loops append each marker with its id shifted by the current offset, keeping the order and every other marker field; `AppendBlock` calls it once per kind, and adds only the proof step that moves that block into the accumulated batch |
| `SceneModuleManager.SceneModuleManagerInterface.NextMarkerId` | planning/behavior_path_planner/autoware_behavior_path_planner_common/include/autoware/behavior_path_planner_common/interface/scene_module_manager_interface.hpp:188 | `marker_id += 255` on a `uint32_t` moves from the k-th offset to the (k+1)-th |
| `SceneModuleManager.SceneModuleManagerInterface.VisitLive` | planning/behavior_path_planner/autoware_behavior_path_planner_common/include/autoware/behavior_path_planner_common/interface/scene_module_manager_interface.hpp:172-188 | one visit of a live observer appends its three marker arrays in the current block and moves `marker_id` to the next block |
| `MarkerIds.Published` | planning/behavior_path_planner/autoware_behavior_path_planner_common/include/autoware/behavior_path_planner_common/interface/scene_module_manager_interface.hpp:157-195 | with an empty list and a probe present, the published array is exactly the probe's markers; otherwise it has as many markers as the live observers hold together |
| `SceneModuleManager.SceneModuleManagerInterface.PublishMarker` | planning/behavior_path_planner/autoware_behavior_path_planner_common/include/autoware/behavior_path_planner_common/interface/scene_module_manager_interface.hpp:157-200 | each array holds the k-th live observer's markers shifted by the k-th offset (from k = 1), in list order, followed by the probe's markers unshifted only when the list is empty and the probe exists |
| `MarkerIds.BatchStepLive` | planning/behavior_path_planner/autoware_behavior_path_planner_common/include/autoware/behavior_path_planner_common/interface/scene_module_manager_interface.hpp:168-189 | a live entry contributes its markers in the current block and consumes one offset |
| `MarkerIds.BatchStepExpired` | planning/behavior_path_planner/autoware_behavior_path_planner_common/include/autoware/behavior_path_planner_common/interface/scene_module_manager_interface.hpp:169-171 | an expired entry is skipped: it contributes nothing and consumes no offset |
| `MarkerIds.ShiftIdExact` | planning/behavior_path_planner/autoware_behavior_path_planner_common/include/autoware/behavior_path_planner_common/interface/scene_module_manager_interface.hpp:174 | the `int32_t += uint32_t` shift is plain addition whenever the sum fits in `int32_t` |
| `MarkerIds.OffsetExact` | planning/behavior_path_planner/autoware_behavior_path_planner_common/include/autoware/behavior_path_planner_common/interface/scene_module_manager_interface.hpp:165-167 | the offset of the k-th live observer is exactly 255·k while that fits in 32 bits |
| `MarkerIds.OffsetStep` | planning/behavior_path_planner/autoware_behavior_path_planner_common/include/autoware/behavior_path_planner_common/interface/scene_module_manager_interface.hpp:188 | adding 255 to the k-th offset, modulo 2^32, gives the (k+1)-th |
| `MarkerIds.BlockRange` | planning/behavior_path_planner/autoware_behavior_path_planner_common/include/autoware/behavior_path_planner_common/interface/scene_module_manager_interface.hpp:165-189 | for an instance whose ids lie in [0, 255), and as long as 255·(k+1) ≤ 2^31 so the block stays in `int32_t` range, the k-th block's ids lie in [255·k, 255·(k+1)) |
| `MarkerIds.BatchIdBlocks` | planning/behavior_path_planner/autoware_behavior_path_planner_common/include/autoware/behavior_path_planner_common/interface/scene_module_manager_interface.hpp:165-189 | when every instance keeps its ids in [0, 255) and 255·(k+|L|) ≤ 2^31 so every block stays in `int32_t` range, every merged marker's id lies in the block of the observer it came from; without these conditions it can fall outside (`MarkerIds.WideIdsCollide`) |
| `MarkerIds.BatchCollisionFree` | planning/behavior_path_planner/autoware_behavior_path_planner_common/include/autoware/behavior_path_planner_common/interface/scene_module_manager_interface.hpp:165-189 | two merged markers from different observers never share an id, when every instance keeps its ids in [0, 255) and the blocks stay in `int32_t` range |
| `MarkerIds.WideIdsCollide` | planning/behavior_path_planner/autoware_behavior_path_planner_common/include/autoware/behavior_path_planner_common/interface/scene_module_manager_interface.hpp:165-188 | the id blocks overlap for ids outside [0, 255): an observer with one marker of id 255, followed by one with a marker of id 0, gives two markers from different observers that both have id 510 |
| `ManagerScenarios.ExpiredInstanceFallsBackToIdleProbe` | planning/behavior_path_planner/autoware_behavior_path_planner_common/include/autoware/behavior_path_planner_common/interface/scene_module_manager_interface.hpp:191-195 | after the tracked instance is destroyed and the list is pruned, the gate is open again and the published markers are exactly the idle probe's |
| `ModuleTypes.ResetWallPoses` | planning/behavior_path_planner/autoware_behavior_path_planner_common/include/autoware/behavior_path_planner_common/interface/scene_module_manager_interface.hpp:151 | `resetWallPoses` leaves no pose hint and adds one to the wall-reset count; markers, module walls and every other field are unchanged |
| `VirtualWalls.PoseWalls` | planning/behavior_path_planner/autoware_behavior_path_planner_common/include/autoware/behavior_path_planner_common/interface/scene_module_manager_interface.hpp:127-146 | one pose wall per hint held and no other: each held stop, slow-down or dead-line hint gives a wall of that kind carrying that pose, and every pose wall comes from a held hint of its kind; the walls come in stop, slow-down, dead-line order, and each carries id 255, the module's name and the clock reading |
| `VirtualWalls.WallsOf` | planning/behavior_path_planner/autoware_behavior_path_planner_common/include/autoware/behavior_path_planner_common/interface/scene_module_manager_interface.hpp:127-149 | one live observer contributes its pose walls (`PoseWalls`) first, then all its module-specific walls unchanged and in order; it contributes only module walls exactly when it holds no pose hint |
| `VirtualWalls.WallPass` | planning/behavior_path_planner/autoware_behavior_path_planner_common/include/autoware/behavior_path_planner_common/interface/scene_module_manager_interface.hpp:122-152 | the wall pass keeps the set of instances |
| `SceneModuleManager.SceneModuleManagerInterface.PublishVirtualWall` | planning/behavior_path_planner/autoware_behavior_path_planner_common/include/autoware/behavior_path_planner_common/interface/scene_module_manager_interface.hpp:113-155 | the walls and the instances afterwards are those of the wall pass (`WallPass`) over the list: stop, slow-down and dead-line walls for the hints held, then the module-specific walls; every stop, slow-down and dead-line wall has id 255, and module-specific walls keep their own ids; each visited instance's poses are reset |
| `VirtualWalls.WallPassEffect` | planning/behavior_path_planner/autoware_behavior_path_planner_common/include/autoware/behavior_path_planner_common/interface/scene_module_manager_interface.hpp:122-152 | each live observer ends with no pose hints and one `resetWallPoses` per occurrence; expired and untracked instances are untouched, as is every other field |
| `VirtualWalls.SecondPassOnlyModuleWalls` | planning/behavior_path_planner/autoware_behavior_path_planner_common/include/autoware/behavior_path_planner_common/interface/scene_module_manager_interface.hpp:127-151 | pose hints are drained, not duplicated: a second pass straight after the first yields only module-specific walls |
| `ManagerConfig.GetParameter` | planning/behavior_path_planner/autoware_behavior_path_planner_common/include/autoware/behavior_path_planner_common/interface/scene_module_manager_interface.hpp:267-277 | `getOrDeclareParameter<bool>` succeeds if and only if the key is declared, then with its value; otherwise it throws an error naming the key |
| `ManagerConfig.ResolveEnableRtc` | planning/behavior_path_planner/autoware_behavior_path_planner_common/include/autoware/behavior_path_planner_common/interface/scene_module_manager_interface.hpp:265-272 | `enable_rtc` resolves if and only if auto mode is on or `<name>.enable_rtc` is set; it is false when auto mode is on; otherwise it is the per-module value, which is also the fallback when the auto-mode lookup throws; a failure names the per-module key |
| `ManagerConfig.ResolveConfig` | planning/behavior_path_planner/autoware_behavior_path_planner_common/include/autoware/behavior_path_planner_common/interface/scene_module_manager_interface.hpp:264-278 | the configuration resolves if and only if `enable_rtc` resolves and both simultaneous-execution keys are set; it then carries exactly those values |
| `ManagerConfig.AutoModeDisablesRtc` | planning/behavior_path_planner/autoware_behavior_path_planner_common/include/autoware/behavior_path_planner_common/interface/scene_module_manager_interface.hpp:266-269 | with auto mode on, initialisation succeeds without the per-module `enable_rtc` key, and the approval gate is off |
| `ManagerConfig.RtcInterfaceName` | planning/behavior_path_planner/autoware_behavior_path_planner_common/include/autoware/behavior_path_planner_common/interface/scene_module_manager_interface.hpp:283-284 | every RTC interface name starts with the module's snake-case name, and equals it exactly when the RTC type is empty |
| `ManagerConfig.RtcNameRoundTrip` | planning/behavior_path_planner/autoware_behavior_path_planner_common/include/autoware/behavior_path_planner_common/interface/scene_module_manager_interface.hpp:282-284 | the RTC type can be read back from the interface name (the snake-case name alone for the empty type, otherwise that name + "_" + type) |
| `ManagerConfig.RtcNamesDistinct` | planning/behavior_path_planner/autoware_behavior_path_planner_common/include/autoware/behavior_path_planner_common/interface/scene_module_manager_interface.hpp:282-284 | distinct RTC types of one module get distinct interface names |
| `ManagerConfig.Emplace` | planning/behavior_path_planner/autoware_behavior_path_planner_common/include/autoware/behavior_path_planner_common/interface/scene_module_manager_interface.hpp:285-288 | `emplace` adds the RTC type's key, never overwrites an existing entry, and gives a new entry the interface name and the `enable_rtc` flag |
| `ManagerConfig.EmplaceAll` | planning/behavior_path_planner/autoware_behavior_path_planner_common/include/autoware/behavior_path_planner_common/interface/scene_module_manager_interface.hpp:280-289 | the RTC loop keeps every entry the registry already held |
| `ManagerConfig.EmplaceAllKeys` | planning/behavior_path_planner/autoware_behavior_path_planner_common/include/autoware/behavior_path_planner_common/interface/scene_module_manager_interface.hpp:281-289 | after the RTC loop, the registry holds exactly the entries it held before plus one per listed RTC type |
| `ManagerConfig.EmplaceAllContents` | planning/behavior_path_planner/autoware_behavior_path_planner_common/include/autoware/behavior_path_planner_common/interface/scene_module_manager_interface.hpp:281-289 | every listed RTC type gets an entry; existing entries and repeated types keep their first value; new entries carry the interface name and the `enable_rtc` setting |
| `SceneModuleManager.SceneModuleManagerInterface.InitInterface` | planning/behavior_path_planner/autoware_behavior_path_planner_common/include/autoware/behavior_path_planner_common/interface/scene_module_manager_interface.hpp:259-305 | on success, the configuration is the resolved one, the RTC entries are those of `EmplaceAll`, and the steering-factor interface has the snake-case name; a failed lookup is returned, the flags read before it stay written, and no RTC entry is made |
| `ManagerScenarios.LaunchFromIdleProbe` | planning/behavior_path_planner/autoware_behavior_path_planner_common/include/autoware/behavior_path_planner_common/interface/scene_module_manager_interface.hpp:60-92 | the probe's verdict is the module's verdict on the refreshed probe; once handed over and registered, one instance is tracked with one more `onEntry`, and the gate is closed |
| `ManagerScenarios.RegisterTwiceGrowsToTwo` | planning/behavior_path_planner/autoware_behavior_path_planner_common/include/autoware/behavior_path_planner_common/interface/scene_module_manager_interface.hpp:79-92 | with the gate already closed, a second registration is still accepted: the list holds two entries and `exist` holds for both |

## Left out

- `publishRTCStatus`: the RTC interfaces' own behaviour (pruning expired approval entries and publishing their status) and the clock are not part of this model.
- The two maps `rtc_interface_ptr_map_` and `objects_of_interest_marker_interface_ptr_map_` are merged into the one map `rtcInterfaces`. Each `RtcEntry` stands for the entry of both maps under that RTC type: it holds the interface name they share and the `enable_rtc` flag, which only the RTC interface receives (hpp:285-288). Neither interface has any behaviour in the model.
- Publishers and topic names are not modelled. What each operation publishes is returned as a value: the marker arrays of `PublishMarker`, the walls of `PublishVirtualWall`, and the empty debug batch of `Reset`.
- The processing-time reporter is only counted (`reporters`). The time keeper is not part of this model.
- Virtual-wall geometry is opaque.
- SceneModuleManager.SceneModuleManagerInterface.PublishVirtualWall: every wall of one pass carries the single clock reading `now` passed to it. The code reads `rclcpp::Clock().now()` afresh for each pose wall (hpp:130, 137, 144), so the stamps of one pass may differ.
- MarkerIds.BatchCollisionFree: distinct ids are proved only for instances whose ids lie in [0, 255) and whose blocks stay within `int32_t`. The code promises nothing for other ids, and they can collide (`MarkerIds.WideIdsCollide`).
- Poses, planning data and previous-stage outputs are opaque tokens.
- `utils::convertToSnakeCase` is not part of this model. `InitInterface` takes it as a function parameter.
- Parameter lookup is a map from key to boolean. A missing key and a value of the wrong type are both the thrown exception. Declaring a parameter as a side effect of the lookup is not modelled.
- The pure virtual members (`init`, `updateModuleParams`, `createNewSceneModuleInstance`) and the module internals behind `updateData`/`isExecutionRequested` are abstract. They are modelled only as the constants `prototype` and `requestPolicy`.
- Trivial accessors are read as fields: `name`, `getSceneModuleObservers`, `isSimultaneousExecutableAsApprovedModule` and `isSimultaneousExecutableAsCandidateModule`.
- `SceneModuleManager.SceneModuleManagerInterface.Reset`: the `onExit` on the idle probe shows only in the ghost result `retiredProbe`, because the probe is destroyed right after it.
- The manager's `node_` pointer and the construction of the steering-factor interface are not modelled. Only the interface's name is kept.
