/**
  Driver-monitoring awareness: two timers that swap, locks at orange and red, recovery,
  exemptions and the lockout after repeated red alerts.  Calculation on values and its laws;
  DriverMonitor.dfy holds the object.
 */
module DriverMonitoring {
  import FilterSimple
  import Reals

  const DT_DMON := 0.05
  const AWARENESS_TIME := 30.0
  const AWARENESS_PRE_TIME := 15.0
  const AWARENESS_PROMPT_TIME := 6.0
  const DISTRACTED_TIME := 11.0
  const DISTRACTED_PRE_TIME := 8.0
  const DISTRACTED_PROMPT_TIME := 6.0
  const DISTRACTED_FILTER_TS := 0.25
  const HI_STD_FALLBACK_TIME := 200
  const RECOVERY_FACTOR_MAX := 5.0
  const RECOVERY_FACTOR_MIN := 1.25
  const MAX_TERMINAL_ALERTS := 3
  const MAX_TERMINAL_DURATION := 600

  const ACTIVE_STEP := DT_DMON / DISTRACTED_TIME
  const PASSIVE_STEP := DT_DMON / AWARENESS_TIME
  const ACTIVE_PRE := DISTRACTED_PRE_TIME / DISTRACTED_TIME
  const ACTIVE_PROMPT := DISTRACTED_PROMPT_TIME / DISTRACTED_TIME
  const PASSIVE_PRE := AWARENESS_PRE_TIME / AWARENESS_TIME
  const PASSIVE_PROMPT := AWARENESS_PROMPT_TIME / AWARENESS_TIME
  const FILTER_ALPHA := DT_DMON / (DISTRACTED_FILTER_TS + DT_DMON)

  datatype EventName =
    | TooDistracted
    | DriverDistracted | DriverUnresponsive
    | PromptDriverDistracted | PromptDriverUnresponsive
    | PreDriverDistracted | PreDriverUnresponsive

  /** One update's inputs; model outputs are given by the comparisons made on them. */
  datatype Frame = Frame(
    dataValid: bool,        // all four driver data lists are nonempty
    face: bool,             // face probability over its threshold
    lowStd: bool,           // pose uncertainty under its threshold
    distractedTypes: bool,  // phone, pose or blink distraction seen
    driverEngaged: bool, opEngaged: bool, standstill: bool, wrongGear: bool,
    lowSpeed: bool,         // below the always-on alert speed
    alwaysOn: bool)

  datatype Dm = Dm(
    awareness: real, awarenessActive: real, awarenessPassive: real,
    thresholdPre: real, thresholdPrompt: real, stepChange: real, activeMode: bool,
    faceDetected: bool, lowStd: bool, driverDistracted: bool, filterX: real, hiStds: nat,
    terminalAlertCnt: nat, terminalTime: nat, tooDistracted: bool, events: set<EventName>)

  function MinReal(a: real, b: real): real {
    if a < b then a else b
  }

  function ResetAwareness(s: Dm): Dm {
    s.(awareness := 1.0, awarenessActive := 1.0, awarenessPassive := 1.0)
  }

  function SetTimers(s: Dm, activeMonitoring: bool): Dm {
    if s.activeMode && s.awareness <= s.thresholdPrompt then
      s.(stepChange := if activeMonitoring then ACTIVE_STEP else 0.0)
    else if s.awareness <= 0.0 then s
    else if activeMonitoring then
      s.(awarenessPassive := if s.activeMode then s.awarenessPassive else s.awareness,
         awareness := if s.activeMode then s.awareness else s.awarenessActive,
         thresholdPre := ACTIVE_PRE, thresholdPrompt := ACTIVE_PROMPT,
         stepChange := ACTIVE_STEP, activeMode := true)
    else
      s.(awarenessActive := if s.activeMode then s.awareness else s.awarenessActive,
         awareness := if s.activeMode then s.awarenessPassive else s.awareness,
         thresholdPre := PASSIVE_PRE, thresholdPrompt := PASSIVE_PROMPT,
         stepChange := PASSIVE_STEP, activeMode := false)
  }

  function NextFilter(x: real, distracted: bool): real {
    FilterSimple.Filtered(x, FILTER_ALPHA, if distracted then 1.0 else 0.0)
  }

  /** What the driver model saw. */
  function Observed(s: Dm, f: Frame): Dm {
    var distracted := f.distractedTypes && f.face && f.lowStd;
    s.(faceDetected := f.face, lowStd := f.lowStd, driverDistracted := distracted,
       filterX := NextFilter(s.filterX, distracted))
  }

  function NextHiStds(s: Dm, f: Frame): nat {
    if f.face && !f.lowStd && !s.driverDistracted then s.hiStds + 1
    else if f.face && f.lowStd then 0 else s.hiStds
  }

  function UpdateStates(s: Dm, f: Frame): Dm {
    if !f.dataValid then s
    else
      var t := SetTimers(Observed(s, f), f.face && !(s.hiStds > HI_STD_FALLBACK_TIME));
      t.(hiStds := NextHiStds(t, f))
  }

  predicate LockedOut(s: Dm) {
    s.tooDistracted || s.terminalAlertCnt >= MAX_TERMINAL_ALERTS || s.terminalTime >= MAX_TERMINAL_DURATION
  }

  predicate AlwaysOnValid(f: Frame) {
    f.alwaysOn && !f.wrongGear
  }

  predicate ResetsAtOnce(s: Dm, f: Frame) {
    || (f.driverEngaged && s.awareness > 0.0 && !s.activeMode)
    || (!AlwaysOnValid(f) && !f.opEngaged)
    || (AlwaysOnValid(f) && !f.opEngaged && s.awareness <= 0.0)
  }

  predicate Attentive(s: Dm) {
    s.filterX < 0.37 && s.faceDetected && s.lowStd && s.awareness > 0.0
  }

  function Recover(s: Dm): Dm {
    var a := MinReal(s.awareness + ((RECOVERY_FACTOR_MAX - RECOVERY_FACTOR_MIN) * (1.0 - s.awareness)
                                    + RECOVERY_FACTOR_MIN) * s.stepChange, 1.0);
    s.(awareness := a,
       awarenessPassive := if a == 1.0 then MinReal(s.awarenessPassive + s.stepChange, 1.0) else s.awarenessPassive)
  }

  predicate Counts(s: Dm) {
    || (s.filterX > 0.63 && s.driverDistracted && s.faceDetected)
    || s.hiStds > HI_STD_FALLBACK_TIME || !s.faceDetected
  }

  predicate Exempt(s: Dm, f: Frame) {
    var reachingAudible := s.awareness - s.stepChange <= s.thresholdPrompt;
    var reachingTerminal := s.awareness - s.stepChange <= 0.0;
    || (f.standstill && reachingAudible)
    || (AlwaysOnValid(f) && !f.opEngaged && reachingTerminal)
    || (AlwaysOnValid(f) && !f.opEngaged && f.lowSpeed && reachingAudible)
  }

  function Count(s: Dm, f: Frame): Dm {
    if Counts(s) && !Exempt(s, f) then
      s.(awareness := if s.awareness - s.stepChange > -0.1 then s.awareness - s.stepChange else -0.1)
    else s
  }

  function Alert(s: Dm, f: Frame, awarenessPrev: real): Dm {
    if s.awareness <= 0.0 then
      s.(terminalTime := s.terminalTime + 1,
         terminalAlertCnt := if awarenessPrev > 0.0 then s.terminalAlertCnt + 1 else s.terminalAlertCnt,
         events := s.events + {if s.activeMode then DriverDistracted else DriverUnresponsive})
    else if s.awareness <= s.thresholdPrompt then
      s.(events := s.events + {if s.activeMode then PromptDriverDistracted else PromptDriverUnresponsive})
    else if s.awareness <= s.thresholdPre && !(AlwaysOnValid(f) && !f.opEngaged && f.lowSpeed) then
      s.(events := s.events + {if s.activeMode then PreDriverDistracted else PreDriverUnresponsive})
    else s
  }

  function Lockout(s: Dm, f: Frame): Dm {
    s.(tooDistracted := LockedOut(s),
       events := if LockedOut(s) || (f.alwaysOn && s.awareness <= s.thresholdPrompt) then {TooDistracted} else {})
  }

  function UpdateEvents(s: Dm, f: Frame): Dm {
    var s0 := Lockout(s, f);
    if ResetsAtOnce(s0, f) then ResetAwareness(s0)
    else if Attentive(s0) then
      if f.driverEngaged then ResetAwareness(s0)
      else
        var r := Recover(s0);
        // a timer that rises above orange stays silent
        if r.awareness > r.thresholdPrompt then r else Alert(Count(r, f), f, s0.awareness)
    else Alert(Count(s0, f), f, s0.awareness)
  }

  function Step(s: Dm, f: Frame): Dm {
    UpdateEvents(UpdateStates(s, f), f)
  }

  function Init(savedTooDistracted: bool): Dm {
    SetTimers(Dm(1.0, 1.0, 1.0, ACTIVE_PRE, ACTIVE_PROMPT, 0.0, true,
                 false, true, false, 0.0, 0, 0, 0, savedTooDistracted, {}), true)
  }

  function Run(s: Dm, fs: seq<Frame>): Dm
    decreases |fs|
  {
    if fs == [] then s else Step(Run(s, fs[..|fs| - 1]), fs[|fs| - 1])
  }

  predicate Red(s: Dm) {
    s.awareness <= 0.0
  }

  // ---------- invariant ----------

  /** Every reachable state. */
  predicate Inv(s: Dm) {
    && 0.0 <= s.filterX <= 1.0
    && -0.1 <= s.awareness <= 1.0
    && 0.0 < s.awarenessActive <= 1.0 && 0.0 < s.awarenessPassive <= 1.0
    && if s.activeMode then
         s.thresholdPre == ACTIVE_PRE && s.thresholdPrompt == ACTIVE_PROMPT
         && (s.stepChange == 0.0 || s.stepChange == ACTIVE_STEP)
       else
         s.thresholdPre == PASSIVE_PRE && s.thresholdPrompt == PASSIVE_PROMPT && s.stepChange == PASSIVE_STEP
  }

  lemma InitInv(saved: bool)
    ensures Inv(Init(saved))
  {
  }

  /** Swapping timers neither enters nor leaves red: a saved timer is always positive. */
  lemma SetTimersKeepsRed(s: Dm, activeMonitoring: bool)
    requires Inv(s)
    ensures Inv(SetTimers(s, activeMonitoring))
    ensures Red(SetTimers(s, activeMonitoring)) <==> Red(s)
  {
  }

  lemma ObservedInv(s: Dm, f: Frame)
    requires Inv(s)
    ensures Inv(Observed(s, f))
  {
  }

  lemma UpdateStatesInv(s: Dm, f: Frame)
    requires Inv(s)
    ensures var t := UpdateStates(s, f);
            && Inv(t) && (Red(t) <==> Red(s))
            && t.terminalAlertCnt == s.terminalAlertCnt && t.terminalTime == s.terminalTime
            && t.tooDistracted == s.tooDistracted
  {
    ObservedInv(s, f);
    SetTimersKeepsRed(Observed(s, f), f.face && !(s.hiStds > HI_STD_FALLBACK_TIME));
  }

  lemma RecoverRises(s: Dm)
    requires Inv(s) && s.awareness > 0.0
    ensures Inv(Recover(s)) && s.awareness <= Recover(s).awareness <= 1.0
  {
    var rate := (RECOVERY_FACTOR_MAX - RECOVERY_FACTOR_MIN) * (1.0 - s.awareness) + RECOVERY_FACTOR_MIN;
    assert s.stepChange >= 0.0;
    Reals.MulNonNeg(rate, s.stepChange);
  }

  lemma CountLaw(s: Dm, f: Frame)
    requires Inv(s)
    ensures var t := Count(s, f);
            && Inv(t) && t.awareness <= s.awareness && t == s.(awareness := t.awareness)
            && (AlwaysOnValid(f) && !f.opEngaged && !Red(s) ==> !Red(t))
  {
  }

  lemma AlertLaw(s: Dm, f: Frame, prev: real)
    ensures var t := Alert(s, f, prev);
            && t == s.(terminalTime := t.terminalTime, terminalAlertCnt := t.terminalAlertCnt, events := t.events)
            && t.terminalTime == s.terminalTime + (if Red(s) then 1 else 0)
            && t.terminalAlertCnt == s.terminalAlertCnt + (if prev > 0.0 && Red(s) then 1 else 0)
            && (TooDistracted in t.events <==> TooDistracted in s.events)
  {
  }

  /** What one events update does to the counters and to red, from any reachable state. */
  ghost predicate EventsLaw(s: Dm, t: Dm, f: Frame) {
    && Inv(t)
    && (Red(s) ==> (Red(t) <==> f.opEngaged))
    && (Red(t) ==> f.opEngaged)
    && t.terminalAlertCnt == s.terminalAlertCnt + (if !Red(s) && Red(t) then 1 else 0)
    && t.terminalTime == s.terminalTime + (if Red(t) then 1 else 0)
    && t.tooDistracted == LockedOut(s)
    && (TooDistracted in t.events <==> LockedOut(s) || (f.alwaysOn && s.awareness <= s.thresholdPrompt))
  }

  /** Counting from `r`, which is the locked-out state `s0`, recovered or not. */
  lemma CountAndAlertLaw(s: Dm, r: Dm, f: Frame)
    requires Inv(s) && Inv(r) && !ResetsAtOnce(Lockout(s, f), f)
    requires Red(r) <==> Red(s)
    requires r == Lockout(s, f).(awareness := r.awareness, awarenessPassive := r.awarenessPassive)
    ensures EventsLaw(s, Alert(Count(r, f), f, s.awareness), f)
  {
    CountLaw(r, f);
    AlertLaw(Count(r, f), f, s.awareness);
  }

  lemma UpdateEventsLaw(s: Dm, f: Frame)
    requires Inv(s)
    ensures EventsLaw(s, UpdateEvents(s, f), f)
  {
    var s0 := Lockout(s, f);
    if !ResetsAtOnce(s0, f) {
      if !Attentive(s0) {
        CountAndAlertLaw(s, s0, f);
      } else if !f.driverEngaged {
        RecoverRises(s0);
        if Recover(s0).awareness <= Recover(s0).thresholdPrompt {
          CountAndAlertLaw(s, Recover(s0), f);
        }
      }
    }
  }

  lemma StepInv(s: Dm, f: Frame)
    requires Inv(s)
    ensures Inv(Step(s, f))
  {
    UpdateStatesInv(s, f);
    UpdateEventsLaw(UpdateStates(s, f), f);
  }

  lemma {:induction false} RunInv(s: Dm, fs: seq<Frame>)
    requires Inv(s)
    ensures Inv(Run(s, fs))
    decreases |fs|
  {
    if fs != [] {
      RunInv(s, fs[..|fs| - 1]);
      StepInv(Run(s, fs[..|fs| - 1]), fs[|fs| - 1]);
    }
  }

  // ---------- red ----------

  /** Red is left exactly by disengaging, and never entered while disengaged. */
  lemma RedIsHeldWhileEngaged(s: Dm, f: Frame)
    requires Inv(s)
    ensures Red(s) ==> (Red(Step(s, f)) <==> f.opEngaged)
    ensures !f.opEngaged ==> !Red(Step(s, f))
  {
    UpdateStatesInv(s, f);
    UpdateEventsLaw(UpdateStates(s, f), f);
  }

  function RedEntries(s: Dm, fs: seq<Frame>): nat
    decreases |fs|
  {
    if fs == [] then 0
    else
      var before := fs[..|fs| - 1];
      RedEntries(s, before) + (if !Red(Run(s, before)) && Red(Run(s, fs)) then 1 else 0)
  }

  function RedUpdates(s: Dm, fs: seq<Frame>): nat
    decreases |fs|
  {
    if fs == [] then 0
    else RedUpdates(s, fs[..|fs| - 1]) + (if Red(Run(s, fs)) then 1 else 0)
  }

  /** The two counters count exactly the entries into red and the updates spent in red. */
  lemma {:induction false} CountersCountRed(s: Dm, fs: seq<Frame>)
    requires Inv(s)
    ensures Run(s, fs).terminalAlertCnt == s.terminalAlertCnt + RedEntries(s, fs)
    ensures Run(s, fs).terminalTime == s.terminalTime + RedUpdates(s, fs)
    decreases |fs|
  {
    if fs != [] {
      var before := fs[..|fs| - 1];
      CountersCountRed(s, before);
      RunInv(s, before);
      UpdateStatesInv(Run(s, before), fs[|fs| - 1]);
      UpdateEventsLaw(UpdateStates(Run(s, before), fs[|fs| - 1]), fs[|fs| - 1]);
    }
  }

  /** Once three entries, 600 red updates or a saved lockout are reached, every later update reports it. */
  lemma {:induction false} LockoutLasts(s: Dm, fs: seq<Frame>)
    requires Inv(s) && LockedOut(s)
    ensures LockedOut(Run(s, fs))
    ensures fs != [] ==> TooDistracted in Run(s, fs).events
    decreases |fs|
  {
    if fs != [] {
      var before := fs[..|fs| - 1];
      LockoutLasts(s, before);
      RunInv(s, before);
      UpdateStatesInv(Run(s, before), fs[|fs| - 1]);
      UpdateEventsLaw(UpdateStates(Run(s, before), fs[|fs| - 1]), fs[|fs| - 1]);
    }
  }

  /** One more update keeps the counts and makes a lockout reached before it permanent. */
  lemma LockoutStep(s: Dm, f: Frame)
    requires Inv(s)
    ensures var t := Step(s, f);
            && t.tooDistracted == LockedOut(s)
            && t.terminalAlertCnt >= s.terminalAlertCnt && t.terminalTime >= s.terminalTime
  {
    hide UpdateStates, UpdateEvents;
    UpdateStatesInv(s, f);
    UpdateEventsLaw(UpdateStates(s, f), f);
  }

  /** Without a saved lockout the flag is set only after the counts have got there. */
  lemma {:induction false} FlagNeedsCounts(saved: bool, fs: seq<Frame>)
    ensures var s := Run(Init(saved), fs);
            (saved ==> s.tooDistracted) &&
            (s.tooDistracted ==>
               saved || s.terminalAlertCnt >= MAX_TERMINAL_ALERTS || s.terminalTime >= MAX_TERMINAL_DURATION)
    decreases |fs|
  {
    hide Step;
    if fs != [] {
      var before := fs[..|fs| - 1];
      FlagNeedsCounts(saved, before);
      InitInv(saved);
      RunInv(Init(saved), before);
      LockoutStep(Run(Init(saved), before), fs[|fs| - 1]);
    }
  }

  /** A run from start-up is locked out exactly if it was before, or had three entries or 600 updates in red. */
  lemma LockoutCondition(saved: bool, fs: seq<Frame>)
    ensures LockedOut(Run(Init(saved), fs)) <==>
              saved || RedEntries(Init(saved), fs) >= MAX_TERMINAL_ALERTS
              || RedUpdates(Init(saved), fs) >= MAX_TERMINAL_DURATION
  {
    hide Run, RedEntries, RedUpdates, Step;
    InitInv(saved);
    CountersCountRed(Init(saved), fs);
    FlagNeedsCounts(saved, fs);
    StartCounts(saved);
  }

  lemma StartCounts(saved: bool)
    ensures Init(saved).terminalAlertCnt == 0 && Init(saved).terminalTime == 0
  {
  }

  ghost predicate AlertsFit(t: Dm) {
    && (DriverDistracted in t.events <==> Red(t) && t.activeMode)
    && (DriverUnresponsive in t.events <==> Red(t) && !t.activeMode)
    && (PromptDriverDistracted in t.events <==> !Red(t) && t.awareness <= t.thresholdPrompt && t.activeMode)
    && (PromptDriverUnresponsive in t.events <==> !Red(t) && t.awareness <= t.thresholdPrompt && !t.activeMode)
  }

  lemma AlertFits(s: Dm, f: Frame, prev: real)
    requires s.events <= {TooDistracted}
    ensures AlertsFit(Alert(s, f, prev))
  {
  }

  /** The red and orange alerts on an update tell the level reached and the timer in use. */
  lemma AlertsTellTheLevel(s: Dm, f: Frame)
    requires Inv(s)
    ensures AlertsFit(UpdateEvents(s, f))
  {
    var s0 := Lockout(s, f);
    if !ResetsAtOnce(s0, f) {
      if !Attentive(s0) {
        CountLaw(s0, f);
        AlertFits(Count(s0, f), f, s0.awareness);
      } else if !f.driverEngaged {
        RecoverRises(s0);
        CountLaw(Recover(s0), f);
        AlertFits(Count(Recover(s0), f), f, s0.awareness);
      }
    }
  }

  predicate IsGreen(s: Dm, f: Frame) {
    s.thresholdPrompt < s.awareness <= s.thresholdPre && !(AlwaysOnValid(f) && !f.opEngaged && f.lowSpeed)
  }

  lemma GreenAlert(s: Dm, f: Frame, prev: real)
    requires s.events <= {TooDistracted} && s.thresholdPrompt >= 0.0
    ensures var t := Alert(s, f, prev);
            && t.awareness == s.awareness && t.thresholdPrompt == s.thresholdPrompt && t.thresholdPre == s.thresholdPre
            && t.activeMode == s.activeMode
            && (PreDriverDistracted in t.events <==> IsGreen(s, f) && s.activeMode)
            && (PreDriverUnresponsive in t.events <==> IsGreen(s, f) && !s.activeMode)
  {
  }

  lemma RecoverKeeps(s: Dm)
    ensures var r := Recover(s);
            r.events == s.events && r.thresholdPrompt == s.thresholdPrompt && r.thresholdPre == s.thresholdPre
  {
  }

  /** A green alert is raised exactly below its threshold, unless the driver recovers or drives slowly disengaged. */
  lemma GreenAlertIff(s: Dm, f: Frame)
    requires Inv(s)
    ensures var t := UpdateEvents(s, f);
            && (PreDriverDistracted in t.events <==> IsGreen(t, f) && !Attentive(s) && t.activeMode)
            && (PreDriverUnresponsive in t.events <==> IsGreen(t, f) && !Attentive(s) && !t.activeMode)
  {
    var s0 := Lockout(s, f);
    hide Alert, Count, Recover;
    if !ResetsAtOnce(s0, f) {
      if Attentive(s0) {
        RecoverRises(s0);
        RecoverKeeps(s0);
        CountLaw(Recover(s0), f);
        GreenAlert(Count(Recover(s0), f), f, s0.awareness);
      } else {
        CountLaw(s0, f);
        GreenAlert(Count(s0, f), f, s0.awareness);
      }
    }
  }

  /** At a standstill counting never takes awareness from above the orange threshold to it. */
  lemma StandstillHoldsOrange(s: Dm, f: Frame)
    requires Inv(s) && f.standstill && s.awareness > s.thresholdPrompt
    ensures var t := UpdateEvents(s, f);
            t.awareness > t.thresholdPrompt
  {
    var s0 := Lockout(s, f);
    if !ResetsAtOnce(s0, f) && Attentive(s0) {
      RecoverRises(s0);
    }
  }

  // ---------- how long until red ----------

  /** The driver is seen, certain, distracted and off the controls; engaged and moving. */
  predicate Distracted(f: Frame) {
    f.dataValid && f.face && f.lowStd && f.distractedTypes && !f.driverEngaged && f.opEngaged && !f.standstill
  }

  /** Distance of the filter from 1 after k distracted updates, starting from 0. */
  function Gap(k: nat): real {
    if k == 0 then 1.0 else (1.0 - FILTER_ALPHA) * Gap(k - 1)
  }

  lemma GapTable()
    ensures Gap(1) == 5.0 / 6.0 && Gap(2) == 25.0 / 36.0 && Gap(3) == 125.0 / 216.0
    ensures Gap(4) == 625.0 / 1296.0 && Gap(5) == 3125.0 / 7776.0 && Gap(6) == 15625.0 / 46656.0
  {
    assert 1.0 - FILTER_ALPHA == 5.0 / 6.0;
  }

  /** What k distracted updates have achieved, whatever the state before them. */
  predicate Progress(s: Dm, k: nat) {
    && (k >= 1 ==> s.faceDetected && s.lowStd && s.driverDistracted && s.hiStds == 0)
    && (k <= 6 ==> 1.0 - s.filterX <= Gap(k))
    && (k >= 6 ==> s.filterX > 0.63)
    && (k >= 2 ==> s.activeMode || Red(s))
    && (k >= 5 ==> Red(s) || s.awareness <= 1.0 - (k - 5) as real * ACTIVE_STEP)
  }

  lemma FilterProgress(x: real, k: nat)
    requires 0.0 <= x <= 1.0
    requires (k <= 6 ==> 1.0 - x <= Gap(k)) && (k >= 6 ==> x > 0.63)
    ensures var y := NextFilter(x, true);
            (k + 1 <= 6 ==> 1.0 - y <= Gap(k + 1)) && (k + 1 >= 6 ==> y > 0.63)
  {
    GapTable();
    assert 1.0 - FILTER_ALPHA == 5.0 / 6.0 && FILTER_ALPHA == 1.0 / 6.0;
    assert 1.0 - NextFilter(x, true) == (5.0 / 6.0) * (1.0 - x);
    assert Gap(k + 1) == (5.0 / 6.0) * Gap(k);
  }

  /** The state after a distracted update's first half, before awareness moves. */
  lemma StatesProgress(s: Dm, f: Frame, k: nat)
    requires Inv(s) && Progress(s, k) && Distracted(f)
    ensures var u := UpdateStates(s, f);
            && u.faceDetected && u.lowStd && u.driverDistracted && u.hiStds == 0
            && (k + 1 <= 6 ==> 1.0 - u.filterX <= Gap(k + 1)) && (k + 1 >= 6 ==> u.filterX > 0.63)
            && (k >= 1 && !Red(s) ==> u.activeMode && u.stepChange == ACTIVE_STEP)
            && (k >= 2 && !Red(s) ==> u.awareness == s.awareness)
  {
    FilterProgress(s.filterX, k);
  }

  /** Counting down: certainly distracted, engaged, moving. */
  lemma CountsDown(u: Dm, f: Frame)
    requires Inv(u) && !Red(u) && Distracted(f) && u.activeMode && u.stepChange == ACTIVE_STEP
    requires u.faceDetected && u.driverDistracted && u.filterX > 0.63
    ensures var t := UpdateEvents(u, f);
            t.awareness == u.awareness - ACTIVE_STEP && t.activeMode
            && t.stepChange == u.stepChange && t.thresholdPrompt == u.thresholdPrompt
  {
    var s0 := Lockout(u, f);
    assert !ResetsAtOnce(s0, f) && !Attentive(s0) && Counts(s0) && !Exempt(s0, f);
  }

  /** Same measurements, mode and timer settings. */
  predicate SameMeasures(u: Dm, t: Dm) {
    && t.faceDetected == u.faceDetected && t.lowStd == u.lowStd && t.driverDistracted == u.driverDistracted
    && t.filterX == u.filterX && t.hiStds == u.hiStds && t.activeMode == u.activeMode
    && t.stepChange == u.stepChange && t.thresholdPrompt == u.thresholdPrompt
  }

  lemma CountAndAlertKeepMeasures(s: Dm, f: Frame, prev: real)
    ensures SameMeasures(s, Alert(Count(s, f), f, prev))
  {
    AlertLaw(Count(s, f), f, prev);
  }

  /** Events updates do not touch what the states update measured. */
  lemma EventsKeepMeasures(u: Dm, f: Frame)
    ensures SameMeasures(u, UpdateEvents(u, f))
  {
    var s0 := Lockout(u, f);
    CountAndAlertKeepMeasures(s0, f, s0.awareness);
    CountAndAlertKeepMeasures(Recover(s0), f, s0.awareness);
  }

  lemma StepsAdd(k: nat)
    requires k >= 5
    ensures (k + 1 - 5) as real * ACTIVE_STEP == (k - 5) as real * ACTIVE_STEP + ACTIVE_STEP
  {
  }

  lemma ProgressStep(s: Dm, f: Frame, k: nat)
    requires Inv(s) && Progress(s, k) && Distracted(f)
    ensures Progress(Step(s, f), k + 1)
  {
    var u := UpdateStates(s, f);
    StepInv(s, f);
    UpdateStatesInv(s, f);
    RedIsHeldWhileEngaged(s, f);
    StatesProgress(s, f, k);
    EventsKeepMeasures(u, f);
    if k >= 5 && !Red(s) {
      CountsDown(u, f);
      StepsAdd(k);
    }
  }

  lemma {:induction false} ProgressRun(s: Dm, fs: seq<Frame>)
    requires Inv(s) && forall i :: 0 <= i < |fs| ==> Distracted(fs[i])
    ensures Progress(Run(s, fs), |fs|)
    decreases |fs|
  {
    if fs != [] {
      var before := fs[..|fs| - 1];
      ProgressRun(s, before);
      RunInv(s, before);
      ProgressStep(Run(s, before), fs[|fs| - 1], |before|);
    }
  }

  lemma ProgressEnds(s: Dm, k: nat)
    requires Progress(s, k) && k >= 225
    ensures Red(s)
  {
    assert (k - 5) as real * ACTIVE_STEP >= 220.0 * ACTIVE_STEP;
  }

  /** From any reachable state, 225 or more distracted updates end in red. */
  lemma RedWithin225(s: Dm, fs: seq<Frame>)
    requires Inv(s) && |fs| >= 225 && forall i :: 0 <= i < |fs| ==> Distracted(fs[i])
    ensures Red(Run(s, fs))
  {
    ProgressRun(s, fs);
    ProgressEnds(Run(s, fs), |fs|);
  }

  /** Exact course of a distracted run from start-up. */
  predicate FromStart(s: Dm, k: nat) {
    && Inv(s) && s.activeMode && s.stepChange == ACTIVE_STEP
    && s.awareness == if k <= 5 then 1.0 else 1.0 - (k - 5) as real * ACTIVE_STEP
  }

  lemma FromStartIsPositive(s: Dm, k: nat)
    requires FromStart(s, k) && k <= 224
    ensures !Red(s)
  {
    if k > 5 {
      assert (k - 5) as real * ACTIVE_STEP <= 219.0 * ACTIVE_STEP;
    }
  }

  lemma FromStartRun(saved: bool, fs: seq<Frame>)
    requires |fs| <= 224 && forall i :: 0 <= i < |fs| ==> Distracted(fs[i])
    ensures FromStart(Run(Init(saved), fs), |fs|)
  {
    hide Run, Away, FromStart;
    AwayRun(saved, fs, 220);
    AwayFromStart(Run(Init(saved), fs), |fs|);
  }

  lemma AwayFromStart(s: Dm, k: nat)
    requires Away(s, k, 220) && k <= 224
    ensures FromStart(s, k)
  {
    hide Gap, Inv;
    assert ACTIVE_STEP == 1.0 / 220.0;
    assert (k - 5) as real / 220.0 == (k - 5) as real * ACTIVE_STEP;
  }

  /** The bound is exact: 224 distracted updates after start-up are not yet red. */
  lemma NotRedAt224(saved: bool, fs: seq<Frame>)
    requires |fs| == 224 && forall i :: 0 <= i < |fs| ==> Distracted(fs[i])
    ensures !Red(Run(Init(saved), fs))
  {
    FromStartRun(saved, fs);
    FromStartIsPositive(Run(Init(saved), fs), |fs|);
  }

  // ---------- how long until recovered ----------

  /** The driver is seen, certain and not distracted; anything else may be. */
  predicate Watching(f: Frame) {
    f.dataValid && f.face && f.lowStd && !f.distractedTypes
  }

  /** What k attentive updates have achieved, whatever the state before them. */
  predicate Recovering(s: Dm, k: nat) {
    && !Red(s)
    && (k >= 1 ==> s.faceDetected && s.lowStd && !s.driverDistracted && s.hiStds == 0)
    && (k <= 6 ==> s.filterX <= Gap(k))
    && (k >= 6 ==> s.filterX < 0.37)
    && (k >= 2 ==> s.activeMode && s.stepChange == ACTIVE_STEP)
    && (k >= 6 ==> s.awareness == 1.0 || s.awareness >= (k - 6) as real / 176.0)
  }

  lemma FilterFalls(x: real, k: nat)
    requires 0.0 <= x <= 1.0
    requires (k <= 6 ==> x <= Gap(k)) && (k >= 6 ==> x < 0.37)
    ensures var y := NextFilter(x, false);
            (k + 1 <= 6 ==> y <= Gap(k + 1)) && (k + 1 >= 6 ==> y < 0.37)
  {
    GapTable();
    assert 1.0 - FILTER_ALPHA == 5.0 / 6.0;
    assert NextFilter(x, false) == (5.0 / 6.0) * x;
  }

  lemma StatesRecover(s: Dm, f: Frame, k: nat)
    requires Inv(s) && Recovering(s, k) && Watching(f)
    ensures var u := UpdateStates(s, f);
            && u.faceDetected && u.lowStd && !u.driverDistracted && u.hiStds == 0
            && (k + 1 <= 6 ==> u.filterX <= Gap(k + 1)) && (k + 1 >= 6 ==> u.filterX < 0.37)
            && (k >= 1 ==> u.activeMode && u.stepChange == ACTIVE_STEP)
            && (k >= 2 ==> u.awareness == s.awareness)
  {
    hide Gap, NextFilter;
    FilterFalls(s.filterX, k);
  }

  /** Nothing counts down while the driver watches; once the filter is low each update gives back 1/176. */
  lemma EventsRecover(u: Dm, f: Frame)
    requires Inv(u) && !Red(u) && u.faceDetected && u.lowStd && !u.driverDistracted && u.hiStds == 0
    ensures var t := UpdateEvents(u, f);
            && !Red(t)
            && (u.filterX < 0.37 && u.stepChange == ACTIVE_STEP ==>
                  t.awareness == 1.0 || t.awareness >= u.awareness + 1.0 / 176.0)
  {
    var s0 := Lockout(u, f);
    assert !Counts(s0);
    if !ResetsAtOnce(s0, f) && Attentive(s0) {
      RecoverRises(s0);
      RecoverGives(s0);
      assert !Counts(Recover(s0));
    }
  }

  lemma RecoverGives(s: Dm)
    requires Inv(s)
    ensures s.stepChange == ACTIVE_STEP ==> Recover(s).awareness == 1.0 || Recover(s).awareness >= s.awareness + 1.0 / 176.0
  {
    if s.stepChange == ACTIVE_STEP {
      Reals.MulNonNeg((RECOVERY_FACTOR_MAX - RECOVERY_FACTOR_MIN) * (1.0 - s.awareness), ACTIVE_STEP);
      assert RECOVERY_FACTOR_MIN * ACTIVE_STEP == 1.0 / 176.0;
    }
  }

  lemma RecoveringStep(s: Dm, f: Frame, k: nat)
    requires Inv(s) && Recovering(s, k) && Watching(f)
    ensures Recovering(Step(s, f), k + 1)
  {
    hide Gap, UpdateStates, UpdateEvents;
    var u := UpdateStates(s, f);
    StatesRecover(s, f, k);
    UpdateStatesInv(s, f);
    StepInv(s, f);
    EventsRecover(u, f);
    EventsKeepMeasures(u, f);
    assert k >= 6 ==> (k + 1 - 6) as real / 176.0 == (k - 6) as real / 176.0 + 1.0 / 176.0;
  }

  lemma {:induction false} RecoveringRun(s: Dm, fs: seq<Frame>)
    requires Inv(s) && !Red(s) && forall i :: 0 <= i < |fs| ==> Watching(fs[i])
    ensures Inv(Run(s, fs)) && Recovering(Run(s, fs), |fs|)
    decreases |fs|
  {
    if fs != [] {
      var before := fs[..|fs| - 1];
      RecoveringRun(s, before);
      StepInv(Run(s, before), fs[|fs| - 1]);
      RecoveringStep(Run(s, before), fs[|fs| - 1], |before|);
    }
  }

  /** From any reachable state that is not red, 182 or more attentive updates restore full awareness. */
  lemma RecoversWithin182(s: Dm, fs: seq<Frame>)
    requires Inv(s) && !Red(s) && |fs| >= 182 && forall i :: 0 <= i < |fs| ==> Watching(fs[i])
    ensures Run(s, fs).awareness == 1.0
  {
    RecoveringRun(s, fs);
    assert (|fs| - 6) as real / 176.0 >= 1.0;
  }

  // ---------- a driver who is not seen ----------

  /** The driver's face is not found; hands off the controls, engaged and moving. */
  predicate Unseen(f: Frame) {
    f.dataValid && !f.face && !f.driverEngaged && f.opEngaged && !f.standstill
  }

  /** Orange on the active timer, which has no step for a driver who is not seen. */
  predicate HeldAtOrange(s: Dm) {
    !Red(s) && s.activeMode && s.awareness <= s.thresholdPrompt
  }

  /** Awareness only counts down, by the step in use, which is 0 at active orange and the passive one elsewhere. */
  lemma UnseenStep(s: Dm, f: Frame)
    requires Inv(s) && !Red(s) && Unseen(f)
    ensures var t := Step(s, f);
            && (HeldAtOrange(s) ==> t.awareness == s.awareness && HeldAtOrange(t))
            && (!HeldAtOrange(s) ==>
                  var a := if s.activeMode then s.awarenessPassive else s.awareness;
                  !t.activeMode && t.awareness == if a - PASSIVE_STEP > -0.1 then a - PASSIVE_STEP else -0.1)
  {
    var u := UpdateStates(s, f);
    assert u.stepChange == if HeldAtOrange(s) then 0.0 else PASSIVE_STEP;
    var s0 := Lockout(u, f);
    assert Counts(s0) && !ResetsAtOnce(s0, f) && !Attentive(s0) && !Exempt(s0, f);
    AlertLaw(Count(s0, f), f, s0.awareness);
  }

  /** From active orange an unseen driver never gets to red: awareness stands still. */
  lemma {:induction false} UnseenHoldsOrange(s: Dm, fs: seq<Frame>)
    requires Inv(s) && HeldAtOrange(s) && forall i :: 0 <= i < |fs| ==> Unseen(fs[i])
    ensures HeldAtOrange(Run(s, fs)) && Run(s, fs).awareness == s.awareness
    decreases |fs|
  {
    hide Step, HeldAtOrange;
    if fs != [] {
      var before := fs[..|fs| - 1];
      UnseenHoldsOrange(s, before);
      RunInv(s, before);
      OrangeIsNotRed(Run(s, before));
      UnseenStep(Run(s, before), fs[|fs| - 1]);
    }
  }

  lemma OrangeIsNotRed(s: Dm)
    requires HeldAtOrange(s)
    ensures !Red(s)
  {
  }

  /** From anywhere else, k updates of an unseen driver leave at most 1 - k/600 on the passive timer. */
  lemma {:induction false} UnseenCountsDown(s: Dm, fs: seq<Frame>)
    requires Inv(s) && !HeldAtOrange(s) && forall i :: 0 <= i < |fs| ==> Unseen(fs[i])
    ensures var t := Run(s, fs);
            Red(t) || (!HeldAtOrange(t) && t.awareness <= 1.0 - |fs| as real / 600.0 && (fs != [] ==> !t.activeMode))
    decreases |fs|
  {
    hide Step;
    if fs != [] {
      var before, f := fs[..|fs| - 1], fs[|fs| - 1];
      var t := Run(s, before);
      UnseenCountsDown(s, before);
      RunInv(s, before);
      if Red(t) {
        RedIsHeldWhileEngaged(t, f);
      } else {
        UnseenStep(t, f);
        assert PASSIVE_STEP == 1.0 / 600.0;
        assert |fs| as real / 600.0 == |before| as real / 600.0 + 1.0 / 600.0;
      }
    }
  }

  /**
    600 updates of an unseen driver, engaged and moving, end in red from every reachable state
    except orange on the active timer; from there no number of them does.
   */
  lemma UnseenRedIff(s: Dm, fs: seq<Frame>)
    requires Inv(s) && |fs| >= 600 && forall i :: 0 <= i < |fs| ==> Unseen(fs[i])
    ensures Red(Run(s, fs)) <==> !HeldAtOrange(s)
  {
    hide Run;
    if HeldAtOrange(s) {
      UnseenHoldsOrange(s, fs);
    } else {
      UnseenCountsDown(s, fs);
      assert |fs| as real / 600.0 >= 1.0;
    }
  }

  lemma {:induction false} UnseenFromStart(saved: bool, fs: seq<Frame>)
    requires 1 <= |fs| <= 599 && forall i :: 0 <= i < |fs| ==> Unseen(fs[i])
    ensures var t := Run(Init(saved), fs);
            !Red(t) && !t.activeMode && t.awareness == 1.0 - |fs| as real / 600.0
    decreases |fs|
  {
    hide Step;
    var before, f := fs[..|fs| - 1], fs[|fs| - 1];
    var t := Run(Init(saved), before);
    InitInv(saved);
    RunInv(Init(saved), before);
    if before == [] {
      assert t.awarenessPassive == 1.0 && t.activeMode && t.awareness == 1.0;
    } else {
      UnseenFromStart(saved, before);
    }
    UnseenStep(t, f);
    assert PASSIVE_STEP == 1.0 / 600.0;
    assert |fs| as real / 600.0 == |before| as real / 600.0 + 1.0 / 600.0;
  }

  /** The bound is exact: 599 such updates after start-up are not yet red. */
  lemma UnseenNotRedAt599(saved: bool, fs: seq<Frame>)
    requires |fs| == 599 && forall i :: 0 <= i < |fs| ==> Unseen(fs[i])
    ensures !Red(Run(Init(saved), fs))
  {
    UnseenFromStart(saved, fs);
  }

  // ---------- looking away first, then not seen ----------

  lemma {:induction false} RunOn(s: Dm, fs: seq<Frame>, gs: seq<Frame>)
    ensures Run(s, fs + gs) == Run(Run(s, fs), gs)
    decreases |gs|
  {
    hide Step;
    if gs == [] {
      assert fs + gs == fs;
    } else {
      var n := |gs| - 1;
      assert (fs + gs)[..|fs| + n] == fs + gs[..n];
      RunOn(s, fs, gs[..n]);
    }
  }

  /** k distracted updates from start-up reach orange at the 105th. */
  lemma OrangeAt105(s: Dm, k: nat)
    requires FromStart(s, k) && k <= 224
    ensures HeldAtOrange(s) <==> k >= 105
  {
    FromStartIsPositive(s, k);
    assert ACTIVE_STEP == 1.0 / 220.0 && s.thresholdPrompt == 6.0 / 11.0;
    if k > 5 {
      assert (k - 5) as real * ACTIVE_STEP == (k - 5) as real / 220.0;
      assert 6.0 / 11.0 == 1.0 - 100.0 / 220.0;
    }
  }

  /**
    From start-up, a driver who looks away for 105 to 224 updates and is then not seen never gets to
    red; one who looks away for fewer or more does, within 600 updates.
   */
  lemma AwayThenUnseenIff(saved: bool, fs: seq<Frame>, gs: seq<Frame>)
    requires forall i :: 0 <= i < |fs| ==> Distracted(fs[i])
    requires forall i :: 0 <= i < |gs| ==> Unseen(gs[i])
    ensures HeldAtOrange(Run(Init(saved), fs)) <==> 105 <= |fs| <= 224
    ensures 105 <= |fs| <= 224 ==> !Red(Run(Init(saved), fs + gs))
    ensures |gs| >= 600 ==> (Red(Run(Init(saved), fs + gs)) <==> !(105 <= |fs| <= 224))
  {
    hide Run, HeldAtOrange, Red;
    var s := Run(Init(saved), fs);
    InitInv(saved);
    RunInv(Init(saved), fs);
    RunOn(Init(saved), fs, gs);
    if |fs| <= 224 {
      FromStartRun(saved, fs);
      OrangeAt105(s, |fs|);
      if |fs| >= 105 {
        UnseenHoldsOrange(s, gs);
        OrangeIsNotRed(Run(s, gs));
      }
    } else {
      RedWithin225(Init(saved), fs);
      RedIsNotOrange(s);
    }
    if |gs| >= 600 {
      UnseenRedIff(s, gs);
    }
  }

  lemma RedIsNotOrange(s: Dm)
    requires Red(s)
    ensures !HeldAtOrange(s)
  {
  }

  // ---------- a timer that is not in use stands still ----------

  /** The face is not found while engaged and hands off; anything else may be. */
  predicate Hidden(f: Frame) {
    f.dataValid && !f.face && f.opEngaged && !f.driverEngaged
  }

  /** The face is found and certain while engaged and hands off; anything else may be. */
  predicate InView(f: Frame) {
    f.dataValid && f.face && f.lowStd && f.opEngaged && !f.driverEngaged
  }

  lemma HiddenStep(s: Dm, f: Frame)
    requires Inv(s) && Hidden(f) && !(s.activeMode && s.awareness <= s.thresholdPrompt)
    ensures var t := Step(s, f);
            && !t.activeMode && t.hiStds == s.hiStds
            && t.awarenessActive == if s.activeMode then s.awareness else s.awarenessActive
  {
    hide NextFilter;
    var u := UpdateStates(s, f);
    var s0 := Lockout(u, f);
    assert !ResetsAtOnce(s0, f) && !Attentive(s0);
    AlertLaw(Count(s0, f), f, s0.awareness);
  }

  lemma {:induction false} HiddenRun(s: Dm, us: seq<Frame>)
    requires Inv(s) && us != [] && forall i :: 0 <= i < |us| ==> Hidden(us[i])
    requires s.activeMode && s.awareness > s.thresholdPrompt
    ensures var t := Run(s, us);
            Inv(t) && !t.activeMode && t.hiStds == s.hiStds && t.awarenessActive == s.awareness
    decreases |us|
  {
    hide Step, Inv;
    var before := us[..|us| - 1];
    RunInv(s, us);
    RunInv(s, before);
    if before != [] {
      HiddenRun(s, before);
    } else {
      assert Run(s, before) == s;
    }
    HiddenStep(Run(s, before), us[|us| - 1]);
  }

  /**
    The active timer stands still while the driver is not seen: after any number of such updates
    that do not end in red, the update that sees the face again starts from the awareness left behind.
   */
  lemma ActiveTimerWaits(s: Dm, us: seq<Frame>, f: Frame)
    requires Inv(s) && us != [] && forall i :: 0 <= i < |us| ==> Hidden(us[i])
    requires s.activeMode && s.awareness > s.thresholdPrompt && s.hiStds <= HI_STD_FALLBACK_TIME
    requires !Red(Run(s, us)) && f.dataValid && f.face
    ensures var t := UpdateStates(Run(s, us), f);
            t.activeMode && t.awareness == s.awareness && t.stepChange == 0.05 / 11.0
  {
    hide Run, NextFilter;
    HiddenRun(s, us);
  }

  /** How many updates a recovery has ended at full awareness; each gives the passive timer a step. */
  function Refills(s: Dm, fs: seq<Frame>): nat
    decreases |fs|
  {
    if fs == [] then 0
    else
      var before, f := fs[..|fs| - 1], fs[|fs| - 1];
      Refills(s, before)
      + if Attentive(UpdateStates(Run(s, before), f)) && Run(s, fs).awareness == 1.0 then 1 else 0
  }

  lemma InViewStep(s: Dm, f: Frame)
    requires Inv(s) && InView(f) && s.hiStds <= HI_STD_FALLBACK_TIME && (s.activeMode || s.awareness > 0.0)
    ensures var u, t := UpdateStates(s, f), Step(s, f);
            var p := if s.activeMode then s.awarenessPassive else s.awareness;
            && t.activeMode && t.hiStds == 0
            && t.awarenessPassive == if Attentive(u) && t.awareness == 1.0 then MinReal(p + ACTIVE_STEP, 1.0) else p
  {
    var u := UpdateStates(s, f);
    InViewStates(s, f);
    hide UpdateStates, UpdateEvents, Inv, Attentive;
    InViewEvents(u, f);
  }

  lemma InViewStates(s: Dm, f: Frame)
    requires Inv(s) && InView(f) && s.hiStds <= HI_STD_FALLBACK_TIME && (s.activeMode || s.awareness > 0.0)
    ensures var u := UpdateStates(s, f);
            && Inv(u) && u.activeMode && u.stepChange == ACTIVE_STEP && u.hiStds == 0
            && u.awarenessPassive == if s.activeMode then s.awarenessPassive else s.awareness
  {
    hide NextFilter;
    UpdateStatesInv(s, f);
  }

  lemma InViewEvents(u: Dm, f: Frame)
    requires Inv(u) && InView(f) && u.activeMode && u.stepChange == ACTIVE_STEP
    ensures var t := UpdateEvents(u, f);
            && t.activeMode && t.hiStds == u.hiStds
            && t.awarenessPassive == if Attentive(u) && t.awareness == 1.0 then MinReal(u.awarenessPassive + ACTIVE_STEP, 1.0)
                                     else u.awarenessPassive
  {
    var s0 := Lockout(u, f);
    assert !ResetsAtOnce(s0, f);
    RecoverRises2(s0);
    CountAndAlertKeepMeasures(s0, f, s0.awareness);
    CountAndAlertKeepMeasures(Recover(s0), f, s0.awareness);
    CountKeepsPassive(s0, f, s0.awareness);
    CountKeepsPassive(Recover(s0), f, s0.awareness);
  }

  lemma RecoverRises2(s: Dm)
    requires Inv(s)
    ensures s.awareness > 0.0 ==> s.awareness <= Recover(s).awareness <= 1.0
    ensures Recover(s).awarenessPassive
            == if Recover(s).awareness == 1.0 then MinReal(s.awarenessPassive + s.stepChange, 1.0) else s.awarenessPassive
  {
    if s.awareness > 0.0 {
      RecoverRises(s);
    }
  }

  lemma CountKeepsPassive(s: Dm, f: Frame, prev: real)
    requires s.stepChange >= 0.0 && s.awareness >= -0.1
    ensures var t := Alert(Count(s, f), f, prev);
            t.awarenessPassive == s.awarenessPassive && t.awareness <= s.awareness
  {
    AlertLaw(Count(s, f), f, prev);
  }

  /** The passive timer left at `p` and given `k` steps. */
  function Topped(p: real, k: nat): real {
    MinReal(p + k as real * ACTIVE_STEP, 1.0)
  }

  lemma ToppedNext(p: real, k: nat)
    requires p <= 1.0
    ensures Topped(p, k + 1) == MinReal(Topped(p, k) + ACTIVE_STEP, 1.0) && Topped(p, 0) == p
  {
    assert (k + 1) as real * ACTIVE_STEP == k as real * ACTIVE_STEP + ACTIVE_STEP;
  }

  lemma {:induction false} InViewRun(s: Dm, fs: seq<Frame>)
    requires Inv(s) && fs != [] && forall i :: 0 <= i < |fs| ==> InView(fs[i])
    requires !s.activeMode && s.awareness > 0.0 && s.hiStds <= HI_STD_FALLBACK_TIME
    ensures var t := Run(s, fs);
            && Inv(t) && t.activeMode && t.hiStds == 0
            && t.awarenessPassive == Topped(s.awareness, Refills(s, fs))
    decreases |fs|
  {
    hide Step, UpdateStates, Inv, Attentive, Topped, MinReal;
    var before, f := fs[..|fs| - 1], fs[|fs| - 1];
    RunInv(s, fs);
    RunInv(s, before);
    AwarenessRange(s);
    if before != [] {
      InViewRun(s, before);
    } else {
      assert Run(s, before) == s && Refills(s, before) == 0;
    }
    InViewStep(Run(s, before), f);
    ToppedNext(s.awareness, Refills(s, before));
    hide Run;
  }

  lemma AwarenessRange(s: Dm)
    requires Inv(s)
    ensures s.awareness <= 1.0
  {
  }

  /**
    The passive timer stands still while the driver is seen, but for a step on each update that
    ends a recovery at full awareness: that is where the next unseen update starts from.
   */
  lemma PassiveTimerWaits(s: Dm, fs: seq<Frame>, f: Frame)
    requires Inv(s) && fs != [] && forall i :: 0 <= i < |fs| ==> InView(fs[i])
    requires !s.activeMode && s.awareness > 0.0 && s.hiStds <= HI_STD_FALLBACK_TIME
    requires Run(s, fs).awareness > 6.0 / 11.0 && f.dataValid && !f.face
    ensures var t := UpdateStates(Run(s, fs), f);
            && !t.activeMode && t.stepChange == 0.05 / 30.0
            && t.awareness == MinReal(s.awareness + Refills(s, fs) as real * (0.05 / 11.0), 1.0)
  {
    hide Run, Refills, NextFilter;
    InViewRun(s, fs);
  }

  // ---------- what refills both timers ----------

  predicate Refilled(s: Dm) {
    s.awareness == 1.0 && s.awarenessActive == 1.0 && s.awarenessPassive == 1.0
  }

  /** Touching the controls does, on the passive timer or while attentive, unless it is red. */
  lemma HandsOnRefills(s: Dm, f: Frame)
    requires Inv(s) && f.driverEngaged
    ensures var u := UpdateStates(s, f);
            !Red(s) && (!u.activeMode || (u.faceDetected && u.lowStd && u.filterX < 0.37)) ==> Refilled(Step(s, f))
  {
    UpdateStatesInv(s, f);
  }

  /** So does being disengaged, unless monitoring is always on in gear and the timer is not red. */
  lemma DisengagedRefills(s: Dm, f: Frame)
    requires Inv(s) && !f.opEngaged
    requires !f.alwaysOn || f.wrongGear || Red(s)
    ensures Refilled(Step(s, f))
  {
    UpdateStatesInv(s, f);
  }

  /** An update without model data leaves measurements, mode and step as they are; with data they follow it. */
  lemma MeasurementsFollow(s: Dm, f: Frame)
    ensures var t := Step(s, f);
            if f.dataValid then
              && t.faceDetected == f.face && t.lowStd == f.lowStd
              && t.driverDistracted == (f.distractedTypes && f.face && f.lowStd)
              && t.filterX == (5.0 / 6.0) * s.filterX + (if t.driverDistracted then 1.0 / 6.0 else 0.0)
            else
              SameMeasures(s, t)
  {
    hide UpdateStates, UpdateEvents, NextFilter;
    EventsKeepMeasures(UpdateStates(s, f), f);
    StatesMeasure(s, f);
    FilterTold(s.filterX, f.distractedTypes && f.face && f.lowStd);
  }

  lemma StatesMeasure(s: Dm, f: Frame)
    ensures !f.dataValid ==> UpdateStates(s, f) == s
    ensures f.dataValid ==>
              var t := UpdateStates(s, f);
              && t.faceDetected == f.face && t.lowStd == f.lowStd
              && t.driverDistracted == (f.distractedTypes && f.face && f.lowStd)
              && t.filterX == NextFilter(s.filterX, t.driverDistracted)
  {
    hide NextFilter;
  }

  lemma FilterTold(x: real, distracted: bool)
    ensures NextFilter(x, distracted) == (5.0 / 6.0) * x + (if distracted then 1.0 / 6.0 else 0.0)
  {
    assert FILTER_ALPHA == 1.0 / 6.0;
  }

  // ---------- the exact course of looking away ----------

  /** Seen, certain and looking away, while monitoring is on; hands on or off, moving or not. */
  predicate LooksAway(f: Frame) {
    f.dataValid && f.face && f.lowStd && f.distractedTypes && (f.opEngaged || AlwaysOnValid(f))
  }

  /** How many steps such updates take at most before the exemption that applies. */
  function StepsAllowed(f: Frame): nat {
    if f.standstill || (!f.opEngaged && f.lowSpeed) then 99 else if !f.opEngaged then 219 else 220
  }

  function Steps(k: nat, allowed: nat): nat {
    if k <= 5 then 0 else if k - 5 < allowed then k - 5 else allowed
  }

  predicate Away(s: Dm, k: nat, allowed: nat) {
    && Inv(s) && s.activeMode && s.stepChange == ACTIVE_STEP && s.filterX == 1.0 - Gap(k) && s.hiStds == 0
    && (k <= 6 || s.filterX > 0.63)
    && s.awareness == 1.0 - Steps(k, allowed) as real / 220.0
  }

  lemma AwayFilter(x: real, k: nat)
    requires 0.0 <= x <= 1.0 && x == 1.0 - Gap(k) && (k <= 6 || x > 0.63)
    ensures var y := NextFilter(x, true);
            y == 1.0 - Gap(k + 1) && (k + 1 <= 5 ==> y < 0.63) && (k + 1 >= 6 ==> y > 0.63)
  {
    GapTable();
    assert 1.0 - FILTER_ALPHA == 5.0 / 6.0 && FILTER_ALPHA == 1.0 / 6.0;
  }

  /** Which of the exemptions holds at a given number of steps. */
  lemma ExemptAt(u: Dm, f: Frame, n: nat)
    requires LooksAway(f) && u.stepChange == ACTIVE_STEP && u.thresholdPrompt == ACTIVE_PROMPT
    requires u.awareness == 1.0 - n as real / 220.0 && n < 220 && n <= StepsAllowed(f)
    ensures Exempt(u, f) <==> n == StepsAllowed(f)
  {
    assert ACTIVE_STEP == 1.0 / 220.0 && ACTIVE_PROMPT == 120.0 / 220.0;
  }

  lemma AwayUpdate(s: Dm, f: Frame, k: nat)
    requires Away(s, k, StepsAllowed(f)) && LooksAway(f)
    ensures var u := UpdateStates(s, f);
            && Inv(u) && u.faceDetected && u.lowStd && u.driverDistracted && u.hiStds == 0 && u.activeMode
            && u.stepChange == ACTIVE_STEP && u.thresholdPrompt == ACTIVE_PROMPT && u.awareness == s.awareness
            && u.filterX == 1.0 - Gap(k + 1) && (k + 1 <= 5 ==> u.filterX < 0.63) && (k + 1 >= 6 ==> u.filterX > 0.63)
  {
    AwayFilter(s.filterX, k);
    UpdateStatesInv(s, f);
    hide Gap, NextFilter;
  }

  lemma AwayCounts(u: Dm, f: Frame, n: nat)
    requires Inv(u) && LooksAway(f) && u.faceDetected && u.lowStd && u.driverDistracted && u.hiStds == 0 && u.activeMode
    requires u.stepChange == ACTIVE_STEP && u.thresholdPrompt == ACTIVE_PROMPT && u.filterX > 0.63
    requires u.awareness == 1.0 - n as real / 220.0 && n < 220 && n <= StepsAllowed(f)
    ensures UpdateEvents(u, f).awareness == 1.0 - (if n < StepsAllowed(f) then n + 1 else n) as real / 220.0
  {
    var s0 := Lockout(u, f);
    assert !ResetsAtOnce(s0, f) && !Attentive(s0) && Counts(s0);
    ExemptAt(s0, f, n);
    AlertLaw(Count(s0, f), f, s0.awareness);
    assert ACTIVE_STEP == 1.0 / 220.0;
    assert (n + 1) as real / 220.0 == n as real / 220.0 + 1.0 / 220.0;
  }

  lemma AwayWaits(u: Dm, f: Frame)
    requires Inv(u) && LooksAway(f) && u.faceDetected && u.hiStds == 0 && u.activeMode
    requires u.stepChange == ACTIVE_STEP && u.awareness == 1.0 && u.filterX < 0.63
    ensures UpdateEvents(u, f).awareness == 1.0
  {
    var s0 := Lockout(u, f);
    if Attentive(s0) {
      RecoverRises(s0);
    }
  }

  lemma AwayStep(s: Dm, f: Frame, k: nat)
    requires Away(s, k, StepsAllowed(f)) && LooksAway(f) && (StepsAllowed(f) == 220 ==> k < 224)
    ensures Away(Step(s, f), k + 1, StepsAllowed(f))
  {
    hide UpdateStates, UpdateEvents, Gap;
    var u, n := UpdateStates(s, f), Steps(k, StepsAllowed(f));
    StepInv(s, f);
    AwayUpdate(s, f, k);
    EventsKeepMeasures(u, f);
    if k < 5 {
      AwayWaits(u, f);
    } else {
      AwayCounts(u, f, n);
    }
  }

  /**
    From start-up, hands on or off: after k updates of looking away the timer has taken k - 5 steps
    of 1/220, but at a standstill or, disengaged, at low speed never more than 99, and disengaged
    never more than 219.
   */
  lemma {:induction false} AwayRun(saved: bool, fs: seq<Frame>, allowed: nat)
    requires forall i :: 0 <= i < |fs| ==> LooksAway(fs[i]) && StepsAllowed(fs[i]) == allowed
    requires allowed == 220 ==> |fs| <= 224
    ensures Away(Run(Init(saved), fs), |fs|, allowed)
    decreases |fs|
  {
    hide Step, LooksAway, StepsAllowed, Away;
    if fs == [] {
      AwayStarts(saved, allowed);
    } else {
      var before := fs[..|fs| - 1];
      AwayRun(saved, before, allowed);
      AwayStep(Run(Init(saved), before), fs[|fs| - 1], |before|);
    }
  }

  lemma AwayStarts(saved: bool, allowed: nat)
    ensures Away(Init(saved), 0, allowed)
  {
  }

  // ---------- the exact course of a recovery ----------

  function Pow(q: real, k: nat): real {
    if k == 0 then 1.0 else q * Pow(q, k - 1)
  }

  lemma {:induction false} PowRange(k: nat)
    ensures 0.0 <= Pow(173.0 / 176.0, k) <= 1.0
  {
    if k > 0 {
      PowRange(k - 1);
    }
  }

  function RecoveredAfter(a: real, k: nat): real {
    MinReal(4.0 / 3.0 - (4.0 / 3.0 - a) * Pow(173.0 / 176.0, k), 1.0)
  }

  lemma RecoveredNext(a: real, k: nat)
    requires a <= 1.0
    ensures var b := RecoveredAfter(a, k);
            RecoveredAfter(a, k + 1) == MinReal(b + (5.0 - 3.75 * b) / 220.0, 1.0)
  {
    var p, d := Pow(173.0 / 176.0, k), 4.0 / 3.0 - a;
    PowRange(k);
    Reals.MulNonNeg(d, p);
    assert d * Pow(173.0 / 176.0, k + 1) == (173.0 / 176.0) * (d * p);
    assert 3.75 / 220.0 == 3.0 / 176.0;
  }

  /** The driver watches the road, engaged and hands off. */
  predicate Recovers(f: Frame) {
    Watching(f) && f.opEngaged && !f.driverEngaged
  }

  lemma RecoverIs(s: Dm)
    requires s.stepChange == ACTIVE_STEP
    ensures Recover(s).awareness == MinReal(s.awareness + (5.0 - 3.75 * s.awareness) / 220.0, 1.0)
  {
    assert ACTIVE_STEP == 1.0 / 220.0;
  }

  lemma RecoversStep(s: Dm, f: Frame)
    requires Inv(s) && !Red(s) && s.activeMode && s.hiStds <= HI_STD_FALLBACK_TIME && s.filterX < 0.37 && Recovers(f)
    ensures var t := Step(s, f);
            && Inv(t) && !Red(t) && t.activeMode && t.hiStds == 0 && t.filterX < 0.37
            && t.awareness == MinReal(s.awareness + (5.0 - 3.75 * s.awareness) / 220.0, 1.0)
  {
    var u := UpdateStates(s, f);
    assert FILTER_ALPHA == 1.0 / 6.0 && NextFilter(s.filterX, false) == (5.0 / 6.0) * s.filterX;
    UpdateStatesInv(s, f);
    StepInv(s, f);
    EventsKeepMeasures(u, f);
    assert u.stepChange == ACTIVE_STEP && u.awareness == s.awareness && u.activeMode;
    hide UpdateStates, NextFilter;
    var s0 := Lockout(u, f);
    assert !ResetsAtOnce(s0, f) && Attentive(s0);
    RecoverIs(s0);
    RecoverRises(s0);
    assert !Counts(Recover(s0));
    AlertLaw(Count(Recover(s0), f), f, s0.awareness);
  }

  /** Exactly how fast an attentive driver recovers: the distance from 4/3 shrinks by 173/176 an update, up to full. */
  lemma {:induction false} RecoversExactly(s: Dm, fs: seq<Frame>)
    requires Inv(s) && !Red(s) && s.activeMode && s.hiStds <= HI_STD_FALLBACK_TIME && s.filterX < 0.37
    requires forall i :: 0 <= i < |fs| ==> Recovers(fs[i])
    ensures var t := Run(s, fs);
            && Inv(t) && !Red(t) && t.activeMode && t.hiStds <= HI_STD_FALLBACK_TIME && t.filterX < 0.37
            && t.awareness == RecoveredAfter(s.awareness, |fs|)
    decreases |fs|
  {
    hide Step, Recovers, Pow;
    AwarenessRange(s);
    if fs == [] {
      assert Pow(173.0 / 176.0, 0) == 1.0 by {
        PowZero(173.0 / 176.0);
      }
    } else {
      var before := fs[..|fs| - 1];
      RecoversExactly(s, before);
      RecoversStep(Run(s, before), fs[|fs| - 1]);
      RecoveredNext(s.awareness, |before|);
    }
  }

  lemma PowZero(q: real)
    ensures Pow(q, 0) == 1.0
  {
  }

  // ---------- a model that stays uncertain ----------

  /** The face is found but not certain; engaged, hands off and moving. */
  predicate Uncertain(f: Frame) {
    f.dataValid && f.face && !f.lowStd && f.opEngaged && !f.driverEngaged && !f.standstill
  }

  /** Exact course of such updates from start-up: the active timer for 201 of them, then the passive one. */
  predicate Doubted(s: Dm, k: nat) {
    && Inv(s) && s.filterX == 0.0 && s.hiStds == k
    && (k <= 201 ==> s.activeMode && s.awarenessPassive == 1.0
                     && s.awareness == if k <= 200 then 1.0 else 1.0 - ACTIVE_STEP)
    && (k > 201 ==> !s.activeMode && s.awarenessActive == 1.0 - ACTIVE_STEP
                    && s.awareness == 1.0 - (k - 201) as real / 600.0)
  }

  lemma DoubtedStep(s: Dm, f: Frame, k: nat)
    requires Doubted(s, k) && Uncertain(f) && k < 801
    ensures Doubted(Step(s, f), k + 1)
  {
    var u := UpdateStates(s, f);
    assert NextFilter(0.0, false) == 0.0;
    StepInv(s, f);
    UpdateStatesInv(s, f);
    EventsKeepMeasures(u, f);
    assert PASSIVE_STEP == 1.0 / 600.0 && ACTIVE_STEP == 1.0 / 220.0;
    assert u.hiStds == k + 1 && u.filterX == 0.0 && !u.lowStd && u.faceDetected;
    assert k > 201 ==> (k + 1 - 201) as real / 600.0 == (k - 201) as real / 600.0 + 1.0 / 600.0;
    DoubtedEvents(u, f);
  }

  lemma DoubtedEvents(u: Dm, f: Frame)
    requires Inv(u) && Uncertain(f) && u.faceDetected && !u.lowStd && u.filterX == 0.0 && u.awareness > 0.0
    ensures var t := UpdateEvents(u, f);
            && t.awarenessActive == u.awarenessActive && t.awarenessPassive == u.awarenessPassive
            && t.awareness == if u.hiStds > 200 && u.awareness - u.stepChange > -0.1 then u.awareness - u.stepChange
                              else if u.hiStds > 200 then -0.1 else u.awareness
  {
    var s0 := Lockout(u, f);
    assert !ResetsAtOnce(s0, f) && !Attentive(s0) && !Exempt(s0, f);
    AlertLaw(Count(s0, f), f, s0.awareness);
  }

  lemma {:induction false} DoubtedRun(saved: bool, fs: seq<Frame>)
    requires |fs| <= 801 && forall i :: 0 <= i < |fs| ==> Uncertain(fs[i])
    ensures Doubted(Run(Init(saved), fs), |fs|)
    decreases |fs|
  {
    hide Step, Doubted;
    if fs == [] {
      DoubtedStarts(saved);
    } else {
      var before := fs[..|fs| - 1];
      DoubtedRun(saved, before);
      DoubtedStep(Run(Init(saved), before), fs[|fs| - 1], |before|);
    }
  }

  lemma DoubtedStarts(saved: bool)
    ensures Doubted(Init(saved), 0)
  {
  }

  lemma {:induction false} RedStays(s: Dm, fs: seq<Frame>)
    requires Inv(s) && Red(s) && forall i :: 0 <= i < |fs| ==> fs[i].opEngaged
    ensures Red(Run(s, fs))
    decreases |fs|
  {
    hide Step;
    if fs != [] {
      RedStays(s, fs[..|fs| - 1]);
      RunInv(s, fs[..|fs| - 1]);
      RedIsHeldWhileEngaged(Run(s, fs[..|fs| - 1]), fs[|fs| - 1]);
    }
  }

  /** A model that stays uncertain counts as a driver who is not seen: from start-up red comes with the 801st update. */
  lemma UncertainRedIff(saved: bool, fs: seq<Frame>)
    requires forall i :: 0 <= i < |fs| ==> Uncertain(fs[i])
    ensures Red(Run(Init(saved), fs)) <==> |fs| >= 801
    ensures |fs| <= 801 ==> (Run(Init(saved), fs).activeMode <==> |fs| <= 201)
  {
    hide Run, Step;
    if |fs| <= 801 {
      DoubtedRun(saved, fs);
      var k := |fs|;
      assert k > 201 ==> ((k - 201) as real / 600.0 >= 1.0 <==> k >= 801);
    } else {
      var front, rest := fs[..801], fs[801..];
      DoubtedRun(saved, front);
      RedStays(Run(Init(saved), front), rest);
      RunOn(Init(saved), front, rest);
      assert front + rest == fs;
    }
  }
}
