/** The engagement state machine: when openpilot is in control, and how it lets go. */
module StateMachine {
  import opened Events

  datatype State = Disabled | PreEnabled | Enabled | SoftDisabling | Overriding

  // 3 seconds of 10 ms steps
  const SOFT_DISABLE_STEPS: nat := 300

  predicate IsActive(s: State) {
    s.Enabled? || s.SoftDisabling? || s.Overriding?
  }

  predicate IsEnabled(s: State) {
    s.PreEnabled? || IsActive(s)
  }

  datatype Machine = Machine(state: State, timer: nat)

  const START := Machine(Disabled, 0)

  predicate Disables(ev: set<ET>) {
    UserDisable in ev || ImmediateDisable in ev
  }

  predicate Overrides(ev: set<ET>) {
    OverrideLateral in ev || OverrideLongitudinal in ev
  }

  /** The step that takes the machine out of the disabled state. */
  predicate Engages(ev: set<ET>) {
    Enable in ev && NoEntry !in ev
  }

  /** One step on the set of event types present. */
  function Step(m: Machine, ev: set<ET>): Machine {
    var timer := if m.timer > 0 then m.timer - 1 else 0;
    if m.state.Disabled? then
      if !Engages(ev) then Machine(Disabled, timer)
      else if PreEnable in ev then Machine(PreEnabled, timer)
      else if Overrides(ev) then Machine(Overriding, timer)
      else Machine(Enabled, timer)
    else if Disables(ev) then Machine(Disabled, timer)
    else match m.state
      case PreEnabled => if PreEnable in ev then Machine(PreEnabled, timer) else Machine(Enabled, timer)
      case SoftDisabling =>
        if SoftDisable !in ev then Machine(Enabled, timer)
        else if timer > 0 then Machine(SoftDisabling, timer)
        else Machine(Disabled, timer)
      case _ =>
        if SoftDisable in ev then Machine(SoftDisabling, SOFT_DISABLE_STEPS)
        else if Overrides(ev) then Machine(Overriding, timer)
        else Machine(Enabled, timer)
  }

  /** The machine after the first `n` steps of a run from start-up. */
  function After(run: seq<set<ET>>, n: nat): Machine
    requires n <= |run|
  {
    if n == 0 then START else Step(After(run, n - 1), run[n - 1])
  }

  function StateAfter(run: seq<set<ET>>, n: nat): State
    requires n <= |run|
  {
    After(run, n).state
  }

  // ---------- how a run got here ----------

  /** From step `k`, which engaged, to step `n` the machine was never disabled, nor told to be. */
  ghost predicate EngagedSince(run: seq<set<ET>>, k: nat, n: nat)
    requires k < n <= |run|
  {
    && StateAfter(run, k).Disabled? && Engages(run[k])
    && (forall j :: k < j < n ==> !Disables(run[j]))
    && (forall j :: k < j <= n ==> !StateAfter(run, j).Disabled?)
  }

  /** A machine that is not disabled was engaged by a step with ENABLE and no NO_ENTRY, its last one. */
  lemma {:induction false} EngagedBy(run: seq<set<ET>>, n: nat) returns (k: nat)
    requires n <= |run| && !StateAfter(run, n).Disabled?
    ensures k < n && EngagedSince(run, k, n)
  {
    if StateAfter(run, n - 1).Disabled? {
      k := n - 1;
    } else {
      k := EngagedBy(run, n - 1);
    }
  }

  /** The machine is pre-enabled exactly as long as every step since it engaged asks for it. */
  lemma {:induction false} PreEnabledIff(run: seq<set<ET>>, k: nat, n: nat)
    requires k < n <= |run| && EngagedSince(run, k, n)
    ensures StateAfter(run, n).PreEnabled? <==> forall j :: k <= j < n ==> PreEnable in run[j]
    decreases n
  {
    if n > k + 1 {
      PreEnabledIff(run, k, n - 1);
    }
  }

  /** The last `age` states, up to and including the one after step `n`, were soft disabling. */
  ghost predicate SoftFor(run: seq<set<ET>>, n: nat, age: nat)
    requires n <= |run| && age <= n
  {
    forall j :: n - age < j <= n ==> StateAfter(run, j).SoftDisabling?
  }

  /** The timer of a soft-disabling machine tells how many steps it has been one. */
  lemma {:induction false} TimerIsAge(run: seq<set<ET>>, n: nat)
    requires n <= |run| && StateAfter(run, n).SoftDisabling?
    ensures var timer := After(run, n).timer;
            && 1 <= timer <= SOFT_DISABLE_STEPS
            && var age := SOFT_DISABLE_STEPS + 1 - timer;
               && age < n && SoftFor(run, n, age)
               && (StateAfter(run, n - age).Enabled? || StateAfter(run, n - age).Overriding?)
  {
    if StateAfter(run, n - 1).SoftDisabling? {
      TimerIsAge(run, n - 1);
    }
  }

  /** Soft disabling lasts at most 300 steps in a row. */
  lemma SoftDisablingIsBounded(run: seq<set<ET>>, n: nat, age: nat)
    requires n <= |run| && age <= n && age >= 1 && SoftFor(run, n, age)
    ensures age <= SOFT_DISABLE_STEPS
  {
    TimerIsAge(run, n);
    var since := n - (SOFT_DISABLE_STEPS + 1 - After(run, n).timer);
    assert !StateAfter(run, since).SoftDisabling?;
  }

  /**
    The machine lets go exactly when told to by a user or immediate disable, or when a soft
    disable persists after 300 soft-disabling steps.
   */
  lemma LetsGoIff(run: seq<set<ET>>, n: nat)
    requires n < |run| && !StateAfter(run, n).Disabled?
    ensures StateAfter(run, n + 1).Disabled? <==>
              || Disables(run[n])
              || (SoftDisable in run[n] && n >= SOFT_DISABLE_STEPS && SoftFor(run, n, SOFT_DISABLE_STEPS))
  {
    var m := After(run, n);
    if m.state.SoftDisabling? {
      TimerIsAge(run, n);
      if n >= SOFT_DISABLE_STEPS && SoftFor(run, n, SOFT_DISABLE_STEPS) {
        var since := n - (SOFT_DISABLE_STEPS + 1 - m.timer);
        assert !StateAfter(run, since).SoftDisabling?;
        assert m.timer == 1;
      }
    } else {
      assert n >= SOFT_DISABLE_STEPS ==> !SoftFor(run, n, SOFT_DISABLE_STEPS);
    }
  }

  /** An enabled machine under a lasting soft disable holds on for exactly 300 steps. */
  lemma {:induction false} LastingSoftDisable(run: seq<set<ET>>, n: nat, k: nat)
    requires StateAfterIsDriving(run, n) && n + k <= |run| && 1 <= k <= SOFT_DISABLE_STEPS + 1
    requires forall j :: n <= j < n + k ==> SoftDisable in run[j] && !Disables(run[j])
    ensures After(run, n + k) ==
            if k <= SOFT_DISABLE_STEPS then Machine(SoftDisabling, SOFT_DISABLE_STEPS + 1 - k)
            else Machine(Disabled, 0)
  {
    if k > 1 {
      LastingSoftDisable(run, n, k - 1);
    }
  }

  ghost predicate StateAfterIsDriving(run: seq<set<ET>>, n: nat) {
    n <= |run| && (StateAfter(run, n).Enabled? || StateAfter(run, n).Overriding?)
  }

  // ---------- the other states ----------

  /** A disabled machine engages exactly on a step with ENABLE and no NO_ENTRY. */
  lemma EngagesIff(run: seq<set<ET>>, n: nat)
    requires n < |run| && StateAfter(run, n).Disabled?
    ensures !StateAfter(run, n + 1).Disabled? <==> Enable in run[n] && NoEntry !in run[n]
  {
  }

  /**
    The machine is overriding exactly after a step with an override that engaged without PRE_ENABLE,
    or that found it enabled or overriding and asked for no disable of any kind.  An override
    while pre-enabled or soft disabling does not show.
   */
  lemma OverridingIff(run: seq<set<ET>>, n: nat)
    requires n < |run|
    ensures var ev, before := run[n], StateAfter(run, n);
            StateAfter(run, n + 1).Overriding? <==>
              && (OverrideLateral in ev || OverrideLongitudinal in ev)
              && if before.Disabled? then Enable in ev && NoEntry !in ev && PreEnable !in ev
                 else (before.Enabled? || before.Overriding?) && SoftDisable !in ev
                      && UserDisable !in ev && ImmediateDisable !in ev
  {
  }

  /** A soft disable takes an enabled or overriding machine to soft disabling, and no other. */
  lemma SoftDisablingIff(run: seq<set<ET>>, n: nat)
    requires n < |run| && !StateAfter(run, n).SoftDisabling?
    ensures StateAfter(run, n + 1).SoftDisabling? <==>
              && (StateAfter(run, n).Enabled? || StateAfter(run, n).Overriding?)
              && SoftDisable in run[n] && UserDisable !in run[n] && ImmediateDisable !in run[n]
  {
  }

  /** It goes back to enabled as soon as the soft disable is gone. */
  lemma SoftDisablingEnds(run: seq<set<ET>>, n: nat)
    requires n < |run| && StateAfter(run, n).SoftDisabling? && !Disables(run[n])
    ensures SoftDisable !in run[n] <==> StateAfter(run, n + 1).Enabled?
    ensures SoftDisable in run[n] ==> !StateAfter(run, n + 1).PreEnabled? && !StateAfter(run, n + 1).Overriding?
  {
  }

  /** The step of the last entry into soft disabling, or -1. */
  function SoftEntry(run: seq<set<ET>>, n: nat): int
    requires n <= |run|
  {
    if n == 0 then -1
    else if StateAfter(run, n).SoftDisabling? && !StateAfter(run, n - 1).SoftDisabling? then n
    else SoftEntry(run, n - 1)
  }

  /** In every state the timer counts down from 300 at the last entry, and stays at 0. */
  lemma {:induction false} TimerSinceEntry(run: seq<set<ET>>, n: nat)
    requires n <= |run|
    ensures var j := SoftEntry(run, n);
            j <= n && After(run, n).timer == if j < 0 || n - j >= 300 then 0 else 300 - (n - j)
  {
    if n > 0 {
      TimerSinceEntry(run, n - 1);
    }
  }

  // ---------- with the events of the table ----------

  /** Every event that asks for a soft disable also blocks engagement. */
  lemma SoftDisableBlocksEntry(e: EventName)
    ensures SoftDisable in Types(e) ==> NoEntry in Types(e)
  {
  }

  /** Every event that disables blocks engagement, but for these three. */
  lemma DisableBlocksEntryIff(e: EventName)
    requires UserDisable in Types(e) || ImmediateDisable in Types(e)
    ensures NoEntry in Types(e) <==> !(e.PcmDisable? || e.CruiseDisabled? || e.SpeedTooLow?)
  {
  }

  /** A step of real events: the types are those the table gives. */
  ghost predicate FromTable(run: seq<set<ET>>, events: seq<seq<EventName>>) {
    |run| == |events| && forall n :: 0 <= n < |run| ==> run[n] == TypesOf(events[n])
  }

  /** openpilot never engages on a step with a soft-disable event. */
  lemma NeverEngagesUnderSoftDisable(run: seq<set<ET>>, events: seq<seq<EventName>>, n: nat)
    requires FromTable(run, events) && n < |run|
    requires StateAfter(run, n).Disabled? && SoftDisable in run[n]
    ensures StateAfter(run, n + 1).Disabled?
  {
    var i :| 0 <= i < |events[n]| && SoftDisable in Types(events[n][i]);
    SoftDisableBlocksEntry(events[n][i]);
    assert ContainsIn(events[n], NoEntry);
  }

  /**
    It engages under a user or immediate disable only if every such event is one of the three
    that do not block entry; the step after, a disable still present takes it out again.
   */
  lemma EngagesUnderDisableOnly(run: seq<set<ET>>, events: seq<seq<EventName>>, n: nat, i: nat)
    requires FromTable(run, events) && n < |run| && i < |events[n]|
    requires StateAfter(run, n).Disabled? && !StateAfter(run, n + 1).Disabled?
    requires UserDisable in Types(events[n][i]) || ImmediateDisable in Types(events[n][i])
    ensures events[n][i].PcmDisable? || events[n][i].CruiseDisabled? || events[n][i].SpeedTooLow?
    ensures n + 1 < |run| && events[n][i] in events[n + 1] ==> StateAfter(run, n + 2).Disabled?
  {
    var e := events[n][i];
    DisableBlocksEntryIff(e);
    assert NoEntry !in Types(e) by {
      assert NoEntry !in TypesOf(events[n]);
    }
    if n + 1 < |run| && e in events[n + 1] {
      var j :| 0 <= j < |events[n + 1]| && events[n + 1][j] == e;
      assert Disables(TypesOf(events[n + 1]));
    }
  }

  /** ...and with any of the three it does: a cancel that arrives with the request is not seen. */
  lemma EngagesUnderDisable(e: EventName)
    requires e.PcmDisable? || e.CruiseDisabled? || e.SpeedTooLow?
    ensures var ev := TypesOf([ButtonEnable, e]);
            Disables(ev) && Step(START, ev) == Machine(Enabled, 0)
  {
    var events := [ButtonEnable, e];
    assert events[0] == ButtonEnable && events[1] == e;
    assert forall et :: ContainsIn(events, et) <==> et in Types(ButtonEnable) || et in Types(e);
  }

  // ---------- the object ----------

  /** What the driver is told, from the states before and after the step. */
  function AlertTypes(before: State, ev: set<ET>, after: State): seq<ET> {
    [Permanent]
    + (if before.Disabled? then
         if !after.Disabled? then [Enable] else if Enable in ev then [NoEntry] else []
       else if UserDisable in ev then [UserDisable]
       else if ImmediateDisable in ev then [ImmediateDisable]
       else match after
         case SoftDisabling => [SoftDisable]
         case Overriding => [OverrideLateral, OverrideLongitudinal]
         case PreEnabled => [PreEnable]
         case _ => [])
    + if IsActive(after) then [Warning] else []
  }

  /** Which types of alert a step shows: each one exactly for what happened on it. */
  lemma AlertsTellTheStep(m: Machine, ev: set<ET>)
    ensures var after := Step(m, ev).state;
            var a := AlertTypes(m.state, ev, after);
            && Permanent in a && (Warning in a <==> after.Enabled? || after.SoftDisabling? || after.Overriding?)
            && (Enable in a <==> m.state.Disabled? && !after.Disabled?)
            && (NoEntry in a <==> m.state.Disabled? && Enable in ev && NoEntry in ev)
            && (UserDisable in a <==> !m.state.Disabled? && UserDisable in ev)
            && (ImmediateDisable in a <==> !m.state.Disabled? && ImmediateDisable in ev && UserDisable !in ev)
            && (SoftDisable in a <==> !m.state.Disabled? && after.SoftDisabling?)
            && (PreEnable in a <==> m.state.PreEnabled? && after.PreEnabled?)
            && (OverrideLateral in a <==> !m.state.Disabled? && after.Overriding?)
            && (OverrideLongitudinal in a <==> !m.state.Disabled? && after.Overriding?)
  {
  }

  class StateMachine {
    var state: State
    var softDisableTimer: nat
    var currentAlertTypes: seq<ET>

    ghost function View(): Machine
      reads this
    {
      Machine(state, softDisableTimer)
    }

    constructor ()
      ensures View() == START && currentAlertTypes == [Permanent]
    {
      state, softDisableTimer, currentAlertTypes := Disabled, 0, [Permanent];
    }

    method Update(events: Events) returns (enabled: bool, active: bool)
      modifies this
      ensures var ev := TypesOf(events.events);
              && View() == Step(old(View()), ev)
              && currentAlertTypes == AlertTypes(old(state), ev, state)
      ensures enabled == !state.Disabled? && active == (!state.Disabled? && !state.PreEnabled?)
    {
      hide Types, ContainsIn;
      softDisableTimer := if softDisableTimer > 0 then softDisableTimer - 1 else 0;
      currentAlertTypes := [Permanent];
      var enable := events.Contains(Enable);
      var noEntry := events.Contains(NoEntry);
      var preEnable := events.Contains(PreEnable);
      var userDisable := events.Contains(UserDisable);
      var immediateDisable := events.Contains(ImmediateDisable);
      var softDisable := events.Contains(SoftDisable);
      var lateral := events.Contains(OverrideLateral);
      var longitudinal := events.Contains(OverrideLongitudinal);
      if state != Disabled {
        if userDisable {
          state := Disabled;
          currentAlertTypes := currentAlertTypes + [UserDisable];
        } else if immediateDisable {
          state := Disabled;
          currentAlertTypes := currentAlertTypes + [ImmediateDisable];
        } else if state == Enabled {
          if softDisable {
            state, softDisableTimer := SoftDisabling, SOFT_DISABLE_STEPS;
            currentAlertTypes := currentAlertTypes + [SoftDisable];
          } else if lateral || longitudinal {
            state := Overriding;
            currentAlertTypes := currentAlertTypes + [OverrideLateral, OverrideLongitudinal];
          }
        } else if state == SoftDisabling {
          if !softDisable {
            state := Enabled;
          } else if softDisableTimer > 0 {
            currentAlertTypes := currentAlertTypes + [SoftDisable];
          } else {
            state := Disabled;
          }
        } else if state == PreEnabled {
          if !preEnable {
            state := Enabled;
          } else {
            currentAlertTypes := currentAlertTypes + [PreEnable];
          }
        } else {
          if softDisable {
            state, softDisableTimer := SoftDisabling, SOFT_DISABLE_STEPS;
            currentAlertTypes := currentAlertTypes + [SoftDisable];
          } else if !(lateral || longitudinal) {
            state := Enabled;
          } else {
            currentAlertTypes := currentAlertTypes + [OverrideLateral, OverrideLongitudinal];
          }
        }
      } else if enable {
        if noEntry {
          currentAlertTypes := currentAlertTypes + [NoEntry];
        } else {
          if preEnable {
            state := PreEnabled;
          } else if lateral || longitudinal {
            state := Overriding;
          } else {
            state := Enabled;
          }
          currentAlertTypes := currentAlertTypes + [Enable];
        }
      }
      enabled := IsEnabled(state);
      active := IsActive(state);
      if active {
        currentAlertTypes := currentAlertTypes + [Warning];
      }
    }
  }
}
