/** The configuration a manager reads once at start-up, and the names of the
    cooperative-approval (RTC) interfaces it creates. */
module ManagerConfig {
  import opened ModuleTypes

  /** Declared boolean parameters by key. A key that is absent (or holds a
      value of another type) is one whose lookup throws. */
  type Params = map<string, bool>

  const AUTO_MODE_KEY: string := "enable_all_modules_auto_mode"

  datatype ModuleConfig = ModuleConfig(
    enableRtc: bool,
    enableSimultaneousExecutionAsApprovedModule: bool,
    enableSimultaneousExecutionAsCandidateModule: bool)

  /** The exception a failed lookup throws, naming the key. */
  datatype ConfigError = ParameterUnavailable(key: string)

  function RtcKey(name: string): string { name + ".enable_rtc" }
  function ApprovedKey(name: string): string { name + ".enable_simultaneous_execution_as_approved_module" }
  function CandidateKey(name: string): string { name + ".enable_simultaneous_execution_as_candidate_module" }

  /** `getOrDeclareParameter<bool>`: the value, or the exception. */
  function GetParameter(params: Params, key: string): (r: Result<bool, ConfigError>)
    ensures r.Success? <==> key in params
    ensures r.Success? ==> r.value == params[key]
    ensures r.Failure? ==> r.error == ParameterUnavailable(key)
  {
    if key in params then Success(params[key]) else Failure(ParameterUnavailable(key))
  }

  /** `enable_rtc`: the auto-mode flag is looked up first and forces `false`
      when it is true; otherwise the per-module key decides. If anything in
      that attempt throws, the per-module key is looked up once more, and a
      failure there escapes. */
  function ResolveEnableRtc(name: string, params: Params): (r: Result<bool, ConfigError>)
    ensures r.Success? <==> (AUTO_MODE_KEY in params && params[AUTO_MODE_KEY]) || RtcKey(name) in params
    ensures r.Success? && AUTO_MODE_KEY in params && params[AUTO_MODE_KEY] ==> !r.value
    ensures r.Success? && !(AUTO_MODE_KEY in params && params[AUTO_MODE_KEY]) ==> r.value == params[RtcKey(name)]
    ensures r.Failure? ==> r.error == ParameterUnavailable(RtcKey(name))
  {
    var attempt :=
      match GetParameter(params, AUTO_MODE_KEY)
      case Success(autoMode) => if autoMode then Success(false) else GetParameter(params, RtcKey(name))
      case Failure(e) => Failure(e);
    if attempt.Success? then attempt else GetParameter(params, RtcKey(name))
  }

  /** The whole configuration block: `enable_rtc`, then the two
      simultaneous-execution flags, each of which must be present. */
  function ResolveConfig(name: string, params: Params): (r: Result<ModuleConfig, ConfigError>)
    ensures r.Success? <==>
      ResolveEnableRtc(name, params).Success? && ApprovedKey(name) in params && CandidateKey(name) in params
    ensures r.Success? ==> r.value == ModuleConfig(ResolveEnableRtc(name, params).value,
                                                   params[ApprovedKey(name)], params[CandidateKey(name)])
  {
    match ResolveEnableRtc(name, params)
    case Failure(e) => Failure(e)
    case Success(rtc) =>
      match GetParameter(params, ApprovedKey(name))
      case Failure(e) => Failure(e)
      case Success(approved) =>
        match GetParameter(params, CandidateKey(name))
        case Failure(e) => Failure(e)
        case Success(candidate) => Success(ModuleConfig(rtc, approved, candidate))
  }

  /** With auto mode on, the per-module `enable_rtc` key is not needed, and
      the approval gate is off. */
  lemma AutoModeDisablesRtc(name: string, params: Params)
    requires AUTO_MODE_KEY in params && params[AUTO_MODE_KEY]
    requires ApprovedKey(name) in params && CandidateKey(name) in params
    ensures ResolveConfig(name, params).Success?
    ensures !ResolveConfig(name, params).value.enableRtc
  {
  }

  /** The name of the RTC interface for one RTC type. */
  function RtcInterfaceName(snakeCaseName: string, rtcType: string): (r: string)
    ensures |snakeCaseName| <= |r| && r[..|snakeCaseName|] == snakeCaseName
    ensures r == snakeCaseName <==> rtcType == []
  {
    if rtcType == [] then snakeCaseName else snakeCaseName + "_" + rtcType
  }

  /** Reads the RTC type back from an interface name. */
  function RtcTypeOf(snakeCaseName: string, interfaceName: string): Option<string>
  {
    var n := |snakeCaseName|;
    if interfaceName == snakeCaseName then Some([])
    else if |interfaceName| > n + 1 && interfaceName[..n] == snakeCaseName && interfaceName[n] == '_'
    then Some(interfaceName[n + 1..])
    else None
  }

  /** The RTC type can be read back from the interface name: distinct types
      of one module get distinct interface names. */
  lemma RtcNameRoundTrip(snakeCaseName: string, rtcType: string)
    ensures RtcTypeOf(snakeCaseName, RtcInterfaceName(snakeCaseName, rtcType)) == Some(rtcType)
  {
    var name := RtcInterfaceName(snakeCaseName, rtcType);
    var n := |snakeCaseName|;
    if rtcType != [] {
      assert name[..n] == snakeCaseName && name[n] == '_' && name[n + 1..] == rtcType;
    }
  }

  lemma RtcNamesDistinct(snakeCaseName: string, t1: string, t2: string)
    requires t1 != t2
    ensures RtcInterfaceName(snakeCaseName, t1) != RtcInterfaceName(snakeCaseName, t2)
  {
    RtcNameRoundTrip(snakeCaseName, t1);
    RtcNameRoundTrip(snakeCaseName, t2);
  }

  /** The pair of interfaces created per RTC type: the approval interface
      and the objects-of-interest marker interface share this name; the
      approval interface is enabled as `enable_rtc` says. */
  datatype RtcEntry = RtcEntry(interfaceName: string, enabled: bool)

  /** `emplace` of one RTC type: an existing entry is kept. */
  function Emplace(registry: map<string, RtcEntry>, rtcType: string, snakeCaseName: string, enabled: bool)
    : (r: map<string, RtcEntry>)
    ensures r.Keys == registry.Keys + {rtcType}
    ensures forall t :: t in registry ==> r[t] == registry[t]
    ensures rtcType !in registry ==> r[rtcType] == RtcEntry(RtcInterfaceName(snakeCaseName, rtcType), enabled)
  {
    if rtcType in registry then registry
    else registry[rtcType := RtcEntry(RtcInterfaceName(snakeCaseName, rtcType), enabled)]
  }

  /** The RTC loop of `initInterface`, one `emplace` per listed type. */
  function EmplaceAll(registry: map<string, RtcEntry>, rtcTypes: seq<string>, snakeCaseName: string, enabled: bool)
    : (r: map<string, RtcEntry>)
    ensures forall t :: t in registry ==> t in r && r[t] == registry[t]
    decreases |rtcTypes|
  {
    if rtcTypes == [] then registry
    else EmplaceAll(Emplace(registry, rtcTypes[0], snakeCaseName, enabled), rtcTypes[1..], snakeCaseName, enabled)
  }

  /** Every listed type gets an entry, and no other entry is made. */
  lemma {:induction false} EmplaceAllKeys(registry: map<string, RtcEntry>, rtcTypes: seq<string>,
                                          snakeCaseName: string, enabled: bool)
    ensures EmplaceAll(registry, rtcTypes, snakeCaseName, enabled).Keys == registry.Keys + set t | t in rtcTypes
    decreases |rtcTypes|
  {
    if rtcTypes != [] {
      EmplaceAllKeys(Emplace(registry, rtcTypes[0], snakeCaseName, enabled), rtcTypes[1..], snakeCaseName, enabled);
      assert (set t | t in rtcTypes) == {rtcTypes[0]} + set t | t in rtcTypes[1..];
    }
  }

  /** Entries already present (including a type listed twice) are kept as
      they were; new entries carry the interface name and the gate setting. */
  lemma {:induction false} EmplaceAllContents(registry: map<string, RtcEntry>, rtcTypes: seq<string>,
                                              snakeCaseName: string, enabled: bool)
    ensures EmplaceAll(registry, rtcTypes, snakeCaseName, enabled).Keys == registry.Keys + set t | t in rtcTypes
    ensures forall t :: t in registry ==> EmplaceAll(registry, rtcTypes, snakeCaseName, enabled)[t] == registry[t]
    ensures forall t :: t in rtcTypes && t !in registry ==>
      EmplaceAll(registry, rtcTypes, snakeCaseName, enabled)[t] == RtcEntry(RtcInterfaceName(snakeCaseName, t), enabled)
    decreases |rtcTypes|
  {
    EmplaceAllKeys(registry, rtcTypes, snakeCaseName, enabled);
    if rtcTypes != [] {
      var next := Emplace(registry, rtcTypes[0], snakeCaseName, enabled);
      EmplaceAllContents(next, rtcTypes[1..], snakeCaseName, enabled);
      assert EmplaceAll(registry, rtcTypes, snakeCaseName, enabled) == EmplaceAll(next, rtcTypes[1..], snakeCaseName, enabled);
      forall t | t in rtcTypes && t !in registry
        ensures t == rtcTypes[0] || t in rtcTypes[1..]
      {
      }
    }
  }
}
