/** The object behind the set speed, updated in place every frame. */
module VCruiseHelper {
  import opened Cruise

  // the order in which the timers are looked at
  const BUTTONS: seq<ButtonType> := [DecelCruise, AccelCruise]

  datatype Change = Change(standstill: bool, enabled: bool)

  class VCruiseHelper {
    const pcmCruise: bool
    var vCruiseKph: real
    var vCruiseClusterKph: real
    var vCruiseKphLast: real
    var buttonTimers: map<ButtonType, nat>
    var buttonChangeStates: map<ButtonType, Change>

    ghost predicate Valid()
      reads this
    {
      buttonTimers.Keys == buttonChangeStates.Keys == {DecelCruise, AccelCruise}
    }

    ghost function ButtonOf(b: ButtonType): Button
      reads this
      requires Valid() && Timed(b)
    {
      Button(buttonTimers[b], buttonChangeStates[b].standstill, buttonChangeStates[b].enabled)
    }

    ghost function View(): Helper
      reads this
      requires Valid()
    {
      Helper(vCruiseKph, vCruiseKphLast, ButtonOf(DecelCruise), ButtonOf(AccelCruise))
    }

    constructor (pcmCruise: bool)
      ensures Valid() && View() == START && this.pcmCruise == pcmCruise && vCruiseClusterKph == V_CRUISE_UNSET
    {
      this.pcmCruise := pcmCruise;
      vCruiseKph, vCruiseClusterKph, vCruiseKphLast := V_CRUISE_UNSET, V_CRUISE_UNSET, 0.0;
      buttonTimers := map[DecelCruise := 0, AccelCruise := 0];
      buttonChangeStates := map[DecelCruise := Change(false, false), AccelCruise := Change(false, false)];
    }

    method UpdateVCruise(cs: CarState, speed: real, speedCluster: real, enabled: bool, metric: bool)
      requires Valid()
      modifies this
      ensures Valid()
      ensures !pcmCruise ==> View() == Updated(old(View()), cs, enabled, metric) && vCruiseClusterKph == vCruiseKph
      ensures pcmCruise ==>
                && vCruiseKphLast == old(vCruiseKph)
                && buttonTimers == old(buttonTimers) && buttonChangeStates == old(buttonChangeStates)
                && (!cs.available || speed == 0.0 ==> vCruiseKph == V_CRUISE_UNSET == vCruiseClusterKph)
                && (cs.available && speed == -1.0 ==> vCruiseKph == -1.0 == vCruiseClusterKph)
                && (cs.available && speed != 0.0 && speed != -1.0 ==>
                      vCruiseKph == speed * MS_TO_KPH && vCruiseClusterKph == speedCluster * MS_TO_KPH)
    {
      hide Applied, Decide, Timer;
      ghost var was := View();
      vCruiseKphLast := vCruiseKph;
      DecideIgnoresSpeed(was, View(), cs, enabled);
      if cs.available {
        if !pcmCruise {
          UpdateVCruiseNonPcm(cs, enabled, metric);
          vCruiseClusterKph := vCruiseKph;
          UpdateButtonTimers(cs, enabled);
        } else {
          vCruiseKph, vCruiseClusterKph := speed * MS_TO_KPH, speedCluster * MS_TO_KPH;
          if speed == 0.0 {
            vCruiseKph, vCruiseClusterKph := V_CRUISE_UNSET, V_CRUISE_UNSET;
          } else if speed == -1.0 {
            vCruiseKph, vCruiseClusterKph := -1.0, -1.0;
          }
        }
      } else {
        vCruiseKph, vCruiseClusterKph := V_CRUISE_UNSET, V_CRUISE_UNSET;
      }
    }

    /** The first released timed button among the events. */
    method FindRelease(events: seq<ButtonEvent>) returns (b: ButtonType)
      ensures b == FirstRelease(events)
    {
      var i := 0;
      assert events[0..] == events;
      while i < |events|
        invariant 0 <= i <= |events|
        invariant FirstRelease(events) == FirstRelease(events[i..])
      {
        if Timed(events[i].button) && !events[i].pressed {
          return events[i].button;
        }
        assert events[i..][1..] == events[i + 1..];
        i := i + 1;
      }
      b := OtherButton;
    }

    method UpdateVCruiseNonPcm(cs: CarState, enabled: bool, metric: bool)
      requires Valid()
      modifies this`vCruiseKph
      ensures vCruiseKph == Applied(old(vCruiseKph), cs, metric, Decide(old(View()), cs, enabled))
    {
      hide RoundTenth, Moved;
      if !enabled {
        return;
      }
      var longPress := false;
      var button := FindRelease(cs.buttonEvents);
      if Timed(button) {
        if buttonTimers[button] > CRUISE_LONG_PRESS {
          return;
        }
      } else {
        var i := 0;
        while i < |BUTTONS| && !longPress
          invariant 0 <= i <= |BUTTONS|
          invariant longPress ==> i >= 1 && button == BUTTONS[i - 1] && LongPress(buttonTimers[button])
          invariant forall j :: 0 <= j < (if longPress then i - 1 else i) ==> !LongPress(buttonTimers[BUTTONS[j]])
        {
          if LongPress(buttonTimers[BUTTONS[i]]) {
            button, longPress := BUTTONS[i], true;
          }
          i := i + 1;
        }
        assert BUTTONS[0] == DecelCruise && BUTTONS[1] == AccelCruise;
        if !longPress {
          return;
        }
      }
      if button == AccelCruise && (buttonChangeStates[button].standstill || cs.standstill) {
        return;
      }
      if !buttonChangeStates[button].enabled {
        return;
      }
      ghost var was := vCruiseKph;
      ghost var a := if longPress then Long(button) else Short(button);
      assert a == Decide(View(), cs, enabled);
      vCruiseKph := Moved(vCruiseKph, (if metric then 1.0 else IMPERIAL_INCREMENT) * if longPress then 5.0 else 1.0,
                          if longPress then Long(button) else Short(button));
      if cs.gasPressed && button == DecelCruise && cs.vEgo * MS_TO_KPH > vCruiseKph {
        vCruiseKph := cs.vEgo * MS_TO_KPH;
      }
      vCruiseKph := Clip(RoundTenth(vCruiseKph), V_CRUISE_MIN, V_CRUISE_MAX);
      assert vCruiseKph == Applied(was, cs, metric, a);
    }

    method UpdateButtonTimers(cs: CarState, enabled: bool)
      requires Valid()
      modifies this`buttonTimers, this`buttonChangeStates
      ensures Valid()
      ensures ButtonOf(DecelCruise) ==
              Timer(old(ButtonOf(DecelCruise)), DecelCruise, cs.buttonEvents, cs.standstill, enabled)
      ensures ButtonOf(AccelCruise) ==
              Timer(old(ButtonOf(AccelCruise)), AccelCruise, cs.buttonEvents, cs.standstill, enabled)
    {
      ghost var was := View();
      var events, n := cs.buttonEvents, 0;
      IncrementTimers();
      TimerStart(was.decel, DecelCruise, cs.standstill, enabled);
      TimerStart(was.accel, AccelCruise, cs.standstill, enabled);
      assert events[..0] == [];
      hide Timer;
      while n < |events|
        invariant 0 <= n <= |events| && Valid()
        invariant ButtonOf(DecelCruise) == Timer(was.decel, DecelCruise, events[..n], cs.standstill, enabled)
        invariant ButtonOf(AccelCruise) == Timer(was.accel, AccelCruise, events[..n], cs.standstill, enabled)
      {
        TimerNext(was.decel, DecelCruise, events, n, cs.standstill, enabled);
        TimerNext(was.accel, AccelCruise, events, n, cs.standstill, enabled);
        TakeEvent(events[n], cs.standstill, enabled);
        n := n + 1;
      }
      assert events[..n] == events;
    }

    /** A change of a timed button starts or ends its timer and notes the car's state. */
    method TakeEvent(e: ButtonEvent, standstill: bool, enabled: bool)
      requires Valid()
      modifies this`buttonTimers, this`buttonChangeStates
      ensures Valid()
      ensures ButtonOf(DecelCruise) ==
              if e.button.DecelCruise? then Button(if e.pressed then 1 else 0, standstill, enabled)
              else old(ButtonOf(DecelCruise))
      ensures ButtonOf(AccelCruise) ==
              if e.button.AccelCruise? then Button(if e.pressed then 1 else 0, standstill, enabled)
              else old(ButtonOf(AccelCruise))
    {
      if e.button in buttonTimers {
        buttonTimers := buttonTimers[e.button := if e.pressed then 1 else 0];
        buttonChangeStates := buttonChangeStates[e.button := Change(standstill, enabled)];
      }
    }

    /** The timers of the buttons still pressed go on. */
    method IncrementTimers()
      requires Valid()
      modifies this`buttonTimers
      ensures Valid()
      ensures forall b :: b in buttonTimers ==>
                buttonTimers[b] == old(buttonTimers)[b] + if old(buttonTimers)[b] > 0 then 1 else 0
    {
      var i := 0;
      assert BUTTONS[0] == DecelCruise && BUTTONS[1] == AccelCruise;
      while i < |BUTTONS|
        invariant 0 <= i <= |BUTTONS| && Valid()
        invariant forall j :: 0 <= j < |BUTTONS| ==>
                    var timer := old(buttonTimers)[BUTTONS[j]];
                    buttonTimers[BUTTONS[j]] == if j < i && timer > 0 then timer + 1 else timer
      {
        if buttonTimers[BUTTONS[i]] > 0 {
          buttonTimers := buttonTimers[BUTTONS[i] := buttonTimers[BUTTONS[i]] + 1];
        }
        i := i + 1;
      }
    }

    method InitializeVCruise(cs: CarState, experimental: bool)
      requires Valid()
      modifies this`vCruiseKph, this`vCruiseClusterKph
      ensures Valid()
      ensures pcmCruise ==> vCruiseKph == old(vCruiseKph) && vCruiseClusterKph == old(vCruiseClusterKph)
      ensures !pcmCruise ==> View() == Initialized(old(View()), cs, experimental) && vCruiseClusterKph == vCruiseKph
    {
      hide Round, Clip;
      if pcmCruise {
        return;
      }
      var initial := if experimental then V_CRUISE_INITIAL_EXPERIMENTAL_MODE else V_CRUISE_INITIAL;
      if Resumes(cs.buttonEvents) && vCruiseKph != V_CRUISE_UNSET {
        vCruiseKph := vCruiseKphLast;
      } else {
        vCruiseKph := Round(Clip(cs.vEgo * MS_TO_KPH, initial, V_CRUISE_MAX)) as real;
      }
      vCruiseClusterKph := vCruiseKph;
    }
  }

  lemma TimerStart(p: Button, b: ButtonType, standstill: bool, enabled: bool)
    ensures Timer(p, b, [], standstill, enabled) == p.(timer := p.timer + if p.timer > 0 then 1 else 0)
  {
  }

  lemma TimerNext(p: Button, b: ButtonType, events: seq<ButtonEvent>, n: nat, standstill: bool, enabled: bool)
    requires n < |events|
    ensures Timer(p, b, events[..n + 1], standstill, enabled) ==
            if events[n].button == b then Button(if events[n].pressed then 1 else 0, standstill, enabled)
            else Timer(p, b, events[..n], standstill, enabled)
  {
    assert events[..n + 1][..n] == events[..n];
  }
}
