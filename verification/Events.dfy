/** Events, the types of alert each one carries, and the list the state machine looks at. */
module Events {

  datatype ET =
    | Enable | PreEnable | OverrideLateral | OverrideLongitudinal | NoEntry
    | Warning | UserDisable | SoftDisable | ImmediateDisable | Permanent

  datatype EventName =
    | CanError | SteerUnavailable | WrongGear | DoorOpen | SeatbeltNotLatched | EspDisabled | WrongCarMode
    | SteerTempUnavailable | ReverseGear | ButtonCancel | ButtonEnable | PedalPressed | PreEnableStandstill
    | GasPressedOverride | SteerOverride | SteerDisengage | CruiseDisabled | SpeedTooLow | OutOfSpace | Overheat
    | CalibrationIncomplete | CalibrationInvalid | CalibrationRecalibrating | ControlsMismatch | PcmEnable
    | PcmDisable | RadarFault | RadarTempUnavailable | BrakeHold | ParkBrake | ManualRestart | JoystickDebug
    | LongitudinalManeuver | SteerTempUnavailableSilent | ResumeRequired | PreDriverDistracted
    | PromptDriverDistracted | DriverDistracted | PreDriverUnresponsive | PromptDriverUnresponsive
    | DriverUnresponsive | BelowSteerSpeed | LowBattery | AccFaulted | SensorDataInvalid | CommIssue
    | CommIssueAvgFreq | TooDistracted | PosenetInvalid | SoundsUnavailableDeprecated | PreLaneChangeLeft
    | PreLaneChangeRight | LaneChange | LowMemory | StockAeb | Ldw | CarUnrecognized | InvalidLkasSetting
    | SpeedTooHigh | LaneChangeBlocked | RelayMalfunction | StockFcw | Startup | StartupNoCar | StartupNoControl
    | StartupNoSecOcKey | StartupMaster | Fcw | SteerSaturated | BelowEngageSpeed | NoGps | WrongCruiseMode
    | ModeldLagging | DeviceFalling | FanMalfunction | CameraMalfunction | CameraFrameRate | ProcessNotRunning
    | DashcamMode | SelfdriveInitializing | UsbError | CruiseMismatch | CanBusMissing | SelfdrivedLagging
    | ResumeBlocked | SteerTimeLimit | VehicleSensorsInvalid | LocationdTemporaryError | LocationdPermanentError
    | ParamsdTemporaryError | ParamsdPermanentError | ActuatorsApiUnavailable | EspActive | PersonalityChanged
    | Aeb | UserBookmark | ExcessiveActuation | AudioFeedback

  /** The keys of the EVENTS entry of `e`; an event without an entry has none. */
  function Types(e: EventName): set<ET> {
    match e
    case StockFcw | ActuatorsApiUnavailable | CruiseMismatch | NoGps | SoundsUnavailableDeprecated => {}
    case JoystickDebug | LongitudinalManeuver => {Warning, Permanent}
    case SelfdriveInitializing | ResumeBlocked | BelowEngageSpeed | TooDistracted => {NoEntry}
    case Startup | StartupMaster | StartupNoCar | StartupNoSecOcKey | DashcamMode | CarUnrecognized | Fcw | Ldw
      | PreDriverDistracted | PromptDriverDistracted | DriverDistracted | PreDriverUnresponsive
      | PromptDriverUnresponsive | DriverUnresponsive | FanMalfunction | UserBookmark | AudioFeedback => {Permanent}
    case StartupNoControl | InvalidLkasSetting | Aeb | StockAeb | OutOfSpace => {Permanent, NoEntry}
    case SteerTempUnavailableSilent | ManualRestart | ResumeRequired | BelowSteerSpeed | PreLaneChangeLeft
      | PreLaneChangeRight | LaneChangeBlocked | LaneChange | SteerSaturated | BrakeHold | PersonalityChanged => {Warning}
    case CameraMalfunction | CameraFrameRate | SensorDataInvalid | Overheat | CalibrationInvalid
      | CalibrationIncomplete | CalibrationRecalibrating | ModeldLagging | LowMemory | UsbError
      => {Permanent, SoftDisable, NoEntry}
    case LocationdTemporaryError | ParamsdTemporaryError | SteerTempUnavailable | SteerTimeLimit
      | ExcessiveActuation | WrongGear | DoorOpen | SeatbeltNotLatched | EspDisabled | LowBattery | CommIssue
      | CommIssueAvgFreq | SelfdrivedLagging | ProcessNotRunning | RadarFault | RadarTempUnavailable
      | PosenetInvalid | DeviceFalling | EspActive => {SoftDisable, NoEntry}
    case LocationdPermanentError | ParamsdPermanentError | AccFaulted | CanError | CanBusMissing
      | SteerUnavailable | RelayMalfunction | VehicleSensorsInvalid => {ImmediateDisable, Permanent, NoEntry}
    case ControlsMismatch => {ImmediateDisable, NoEntry}
    case CruiseDisabled | SpeedTooLow => {ImmediateDisable}
    case PcmEnable | ButtonEnable => {Enable}
    case PcmDisable => {UserDisable}
    case ButtonCancel | ParkBrake | PedalPressed | SteerDisengage | WrongCarMode | WrongCruiseMode
      => {UserDisable, NoEntry}
    case ReverseGear => {Permanent, UserDisable, NoEntry}
    case PreEnableStandstill => {PreEnable}
    case GasPressedOverride => {OverrideLongitudinal}
    case SteerOverride => {OverrideLateral}
    case SpeedTooHigh => {Warning, NoEntry}
  }

  predicate ContainsIn(events: seq<EventName>, et: ET) {
    exists i :: 0 <= i < |events| && et in Types(events[i])
  }

  /** All the types the events of one step carry. */
  ghost function TypesOf(events: seq<EventName>): (r: set<ET>)
    ensures forall et :: et in r <==> ContainsIn(events, et)
  {
    set i, et | 0 <= i < |events| && et in Types(events[i]) :: et
  }

  // ---------- the list ----------

  ghost predicate Sorted(rank: EventName -> int, s: seq<EventName>) {
    forall i, j :: 0 <= i < j < |s| ==> rank(s[i]) <= rank(s[j])
  }

  lemma Inserted(rank: EventName -> int, s: seq<EventName>, k: nat, e: EventName)
    requires Sorted(rank, s) && k <= |s|
    requires k > 0 ==> rank(s[k - 1]) <= rank(e)
    requires forall i :: k <= i < |s| ==> rank(s[i]) > rank(e)
    ensures Sorted(rank, s[..k] + [e] + s[k..])
  {
    var r := s[..k] + [e] + s[k..];
    forall i, j | 0 <= i < j < |r|
      ensures rank(r[i]) <= rank(r[j])
    {
      // r[i] is s[i] before the insertion point, s[i - 1] after it
      var a, b := if i < k then i else i - 1, if j < k then j else j - 1;
      assert i != k ==> r[i] == s[a];
      assert j != k ==> r[j] == s[b];
      assert j == k ==> rank(s[i]) <= rank(s[k - 1]);
    }
  }

  lemma SameElements(s: seq<EventName>, k: nat, e: EventName)
    requires k <= |s|
    ensures multiset(s[..k] + [e] + s[k..]) == multiset(s) + multiset{e}
  {
    assert s == s[..k] + s[k..];
  }

  /** How many of the latest cycles in a row had `e` when they ended. */
  ghost function Streak(cycles: seq<seq<EventName>>, e: EventName): nat {
    if cycles == [] || e !in cycles[|cycles| - 1] then 0
    else Streak(cycles[..|cycles| - 1], e) + 1
  }

  class Events {
    // the numbers of the schema's enumeration
    const rank: EventName -> int
    var events: seq<EventName>
    var staticEvents: seq<EventName>
    var counters: map<EventName, nat>
    // the lists as they stood at each clear
    ghost var cycles: seq<seq<EventName>>

    ghost predicate Valid()
      reads this
    {
      && Sorted(rank, events) && Sorted(rank, staticEvents)
      && multiset(staticEvents) <= multiset(events)
      && forall e :: e in counters ==> counters[e] == Streak(cycles, e)
    }

    constructor (rank: EventName -> int, names: set<EventName>)
      ensures Valid() && this.rank == rank && events == [] == staticEvents && cycles == []
      ensures counters.Keys == names
    {
      this.rank := rank;
      events, staticEvents := [], [];
      counters := map e | e in names :: 0;
      cycles := [];
    }

    /** Insertion to the right of equal elements, in a sorted list. */
    method Insort(s: seq<EventName>, e: EventName) returns (r: seq<EventName>)
      requires Sorted(rank, s)
      ensures Sorted(rank, r) && multiset(r) == multiset(s) + multiset{e}
      ensures exists k :: 0 <= k <= |s| && r == s[..k] + [e] + s[k..]
    {
      var k := |s|;
      while k > 0 && rank(s[k - 1]) > rank(e)
        invariant 0 <= k <= |s|
        invariant forall i :: k <= i < |s| ==> rank(s[i]) > rank(e)
      {
        k := k - 1;
      }
      r := s[..k] + [e] + s[k..];
      Inserted(rank, s, k, e);
      SameElements(s, k, e);
    }

    method Add(e: EventName, isStatic: bool)
      requires Valid()
      modifies this`events, this`staticEvents
      ensures Valid()
      ensures multiset(events) == multiset(old(events)) + multiset{e}
      ensures multiset(staticEvents) == multiset(old(staticEvents)) + if isStatic then multiset{e} else multiset{}
    {
      if isStatic {
        staticEvents := Insort(staticEvents, e);
      }
      events := Insort(events, e);
    }

    method Clear()
      requires Valid()
      modifies this`events, this`counters, this`cycles
      ensures Valid() && events == staticEvents && cycles == old(cycles) + [old(events)]
      ensures counters.Keys == old(counters.Keys)
    {
      cycles := cycles + [events];
      assert cycles[..|cycles| - 1] == old(cycles);
      counters := map e | e in counters :: if e in events then counters[e] + 1 else 0;
      events := staticEvents;
    }

    method Contains(et: ET) returns (r: bool)
      ensures r == ContainsIn(events, et)
    {
      r := false;
      var i := 0;
      while i < |events| && !r
        invariant 0 <= i <= |events|
        invariant r ==> ContainsIn(events, et)
        invariant !r ==> forall j :: 0 <= j < i ==> et !in Types(events[j])
      {
        r := et in Types(events[i]);
        i := i + 1;
      }
    }
  }
}
