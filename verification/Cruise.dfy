/** The set speed of openpilot's own cruise control: button presses, rounding and limits, in km/h. */
module Cruise {
  import Reals

  const V_CRUISE_MIN := 8.0
  const V_CRUISE_MAX := 145.0
  const V_CRUISE_UNSET := 255.0
  const V_CRUISE_INITIAL := 40.0
  const V_CRUISE_INITIAL_EXPERIMENTAL_MODE := 105.0
  // a mile in km, to one decimal
  const IMPERIAL_INCREMENT := 1.6
  const MS_TO_KPH := 3.6
  const CRUISE_LONG_PRESS: nat := 50

  // ---------- rounding ----------

  predicate Integral(x: real) {
    x.Floor as real == x
  }

  /** A multiple of 0.1, the resolution of the set speed. */
  predicate Tenths(v: real) {
    Integral(10.0 * v)
  }

  function Ceil(x: real): int {
    -((-x).Floor)
  }

  /** Python's round: to the nearest integer, halves to the even one. */
  function Round(x: real): (r: int)
    ensures x - 0.5 <= r as real <= x + 0.5
    ensures Integral(x) ==> r as real == x
    ensures x - x.Floor as real == 0.5 ==> r % 2 == 0
  {
    var f := x.Floor;
    var d := x - f as real;
    if d < 0.5 || (d == 0.5 && f % 2 == 0) then f else f + 1
  }

  function RoundTenth(x: real): (r: real)
    ensures x - 0.05 <= r <= x + 0.05 && Tenths(r)
    ensures Tenths(x) ==> r == x
  {
    TenthOf(Round(10.0 * x));
    Round(10.0 * x) as real / 10.0
  }

  lemma TenthOf(n: int)
    ensures var r := n as real / 10.0; 10.0 * r == n as real && Tenths(r)
  {
    assert 10.0 * (n as real / 10.0) == n as real;
  }

  function Clip(x: real, lo: real, hi: real): (r: real)
    requires lo <= hi
    ensures lo <= r <= hi && (lo <= x <= hi ==> r == x)
  {
    if x < lo then lo else if x > hi then hi else x
  }

  // ---------- buttons ----------

  datatype ButtonType = DecelCruise | AccelCruise | SetCruise | ResumeCruise | OtherButton

  datatype ButtonEvent = ButtonEvent(button: ButtonType, pressed: bool)

  /** The two buttons with a timer. */
  predicate Timed(b: ButtonType) {
    b.DecelCruise? || b.AccelCruise?
  }

  /** A button's timer, and the car's state when it last changed. */
  datatype Button = Button(timer: nat, standstill: bool, enabled: bool)

  datatype CarState = CarState(available: bool, standstill: bool, gasPressed: bool, vEgo: real, buttonEvents: seq<ButtonEvent>)

  datatype Helper = Helper(v: real, vLast: real, decel: Button, accel: Button)
  {
    function Of(b: ButtonType): Button
      requires Timed(b)
    {
      if b.DecelCruise? then decel else accel
    }
  }

  const START := Helper(V_CRUISE_UNSET, 0.0, Button(0, false, false), Button(0, false, false))

  /** What one frame does to the set speed. */
  datatype Action = Nothing | Short(button: ButtonType) | Long(button: ButtonType)

  function FirstRelease(events: seq<ButtonEvent>): (r: ButtonType)
    ensures r.OtherButton? || Timed(r)
  {
    if events == [] then OtherButton
    else if Timed(events[0].button) && !events[0].pressed then events[0].button
    else FirstRelease(events[1..])
  }

  predicate LongPress(timer: nat) {
    timer > 0 && timer % CRUISE_LONG_PRESS == 0
  }

  /** Not to leave a standstill, and not for a press that itself enabled. */
  function Gated(s: Helper, cs: CarState, a: Action): Action
    requires !a.Nothing? ==> Timed(a.button)
  {
    if a.Nothing? then a
    else if a.button.AccelCruise? && (s.Of(a.button).standstill || cs.standstill) then Nothing
    else if !s.Of(a.button).enabled then Nothing
    else a
  }

  function Decide(s: Helper, cs: CarState, enabled: bool): (a: Action)
    ensures !a.Nothing? ==> Timed(a.button)
  {
    var b := FirstRelease(cs.buttonEvents);
    if !enabled then Nothing
    else if Timed(b) then
      if s.Of(b).timer > CRUISE_LONG_PRESS then Nothing else Gated(s, cs, Short(b))
    else if LongPress(s.decel.timer) then Gated(s, cs, Long(DecelCruise))
    else if LongPress(s.accel.timer) then Gated(s, cs, Long(AccelCruise))
    else Nothing
  }

  function Interval(metric: bool, a: Action): real
    requires !a.Nothing?
  {
    (if metric then 1.0 else IMPERIAL_INCREMENT) * if a.Long? then 5.0 else 1.0
  }

  /** One interval on, or to the nearest whole one in that direction. */
  function Moved(v: real, d: real, a: Action): real
    requires !a.Nothing? && d > 0.0
  {
    var up := a.button.AccelCruise?;
    if a.Long? && !Integral(v / d) then (if up then Ceil(v / d) else (v / d).Floor) as real * d
    else if up then v + d else v - d
  }

  function Applied(v: real, cs: CarState, metric: bool, a: Action): real {
    if a.Nothing? then v
    else
      var moved := Moved(v, Interval(metric, a), a);
      var own := cs.vEgo * MS_TO_KPH;
      var held := if cs.gasPressed && a.button.DecelCruise? && own > moved then own else moved;
      Clip(RoundTenth(held), V_CRUISE_MIN, V_CRUISE_MAX)
  }

  /** The last event of a button restarts or stops its timer. */
  function Timer(p: Button, b: ButtonType, events: seq<ButtonEvent>, standstill: bool, enabled: bool): Button {
    if events == [] then if p.timer > 0 then p.(timer := p.timer + 1) else p
    else
      var e := events[|events| - 1];
      if e.button == b then Button(if e.pressed then 1 else 0, standstill, enabled)
      else Timer(p, b, events[..|events| - 1], standstill, enabled)
  }

  lemma DecideIgnoresSpeed(s: Helper, t: Helper, cs: CarState, enabled: bool)
    requires s.decel == t.decel && s.accel == t.accel
    ensures Decide(s, cs, enabled) == Decide(t, cs, enabled)
  {
  }

  /** `update_v_cruise` on a car without a cruise control of its own. */
  function Updated(s: Helper, cs: CarState, enabled: bool, metric: bool): Helper {
    if !cs.available then s.(v := V_CRUISE_UNSET, vLast := s.v)
    else Helper(Applied(s.v, cs, metric, Decide(s, cs, enabled)), s.v,
                Timer(s.decel, DecelCruise, cs.buttonEvents, cs.standstill, enabled),
                Timer(s.accel, AccelCruise, cs.buttonEvents, cs.standstill, enabled))
  }

  predicate Resumes(events: seq<ButtonEvent>) {
    exists i :: 0 <= i < |events| && (events[i].button.AccelCruise? || events[i].button.ResumeCruise?)
  }

  function Initialized(s: Helper, cs: CarState, experimental: bool): Helper {
    var initial := if experimental then V_CRUISE_INITIAL_EXPERIMENTAL_MODE else V_CRUISE_INITIAL;
    if Resumes(cs.buttonEvents) && s.v != V_CRUISE_UNSET then s.(v := s.vLast)
    else s.(v := Round(Clip(cs.vEgo * MS_TO_KPH, initial, V_CRUISE_MAX)) as real)
  }

  // ---------- one frame, told by its events ----------

  /** Event `i` releases button `b`, the first timed button that any event releases. */
  predicate ReleasesFirst(events: seq<ButtonEvent>, i: nat, b: ButtonType) {
    && i < |events| && events[i] == ButtonEvent(b, false) && (b.DecelCruise? || b.AccelCruise?)
    && forall j :: 0 <= j < i ==> events[j].pressed || !(events[j].button.DecelCruise? || events[j].button.AccelCruise?)
  }

  predicate NothingReleased(events: seq<ButtonEvent>) {
    forall j :: 0 <= j < |events| ==> events[j].pressed || !(events[j].button.DecelCruise? || events[j].button.AccelCruise?)
  }

  lemma {:induction false} FirstReleaseIs(events: seq<ButtonEvent>) returns (i: nat)
    ensures NothingReleased(events) <==> FirstRelease(events).OtherButton?
    ensures !NothingReleased(events) ==> ReleasesFirst(events, i, FirstRelease(events))
  {
    i := 0;
    if events != [] && !(Timed(events[0].button) && !events[0].pressed) {
      i := FirstReleaseIs(events[1..]);
      i := i + 1;
      assert forall j :: 0 < j < |events| ==> events[j] == events[1..][j - 1];
    }
  }

  lemma OneFirst(events: seq<ButtonEvent>, i: nat, b: ButtonType, j: nat, c: ButtonType)
    requires ReleasesFirst(events, i, b) && ReleasesFirst(events, j, c)
    ensures i == j && b == c
  {
  }

  /** The press was seen while enabled, and it is not a press to leave a standstill. */
  predicate Lets(s: Helper, cs: CarState, b: ButtonType)
    requires Timed(b)
  {
    s.Of(b).enabled && (b.AccelCruise? ==> !s.Of(b).standstill && !cs.standstill)
  }

  /** A short step: the first release is of this button, held for at most 50 frames. */
  lemma ShortIff(s: Helper, cs: CarState, enabled: bool, b: ButtonType)
    requires Timed(b)
    ensures Decide(s, cs, enabled) == Short(b) <==>
              enabled && s.Of(b).timer <= 50 && Lets(s, cs, b) && exists i :: ReleasesFirst(cs.buttonEvents, i, b)
  {
    var i := FirstReleaseIs(cs.buttonEvents);
    if j :| ReleasesFirst(cs.buttonEvents, j, b) {
      OneFirst(cs.buttonEvents, i, FirstRelease(cs.buttonEvents), j, b);
    }
  }

  /** A long step: nothing is released and the button has been held for a multiple of 50 frames, decelerate first. */
  lemma LongIff(s: Helper, cs: CarState, enabled: bool, b: ButtonType)
    requires Timed(b)
    ensures Decide(s, cs, enabled) == Long(b) <==>
              && enabled && NothingReleased(cs.buttonEvents) && Lets(s, cs, b)
              && s.Of(b).timer > 0 && s.Of(b).timer % 50 == 0
              && (b.AccelCruise? ==> s.decel.timer == 0 || s.decel.timer % 50 != 0)
  {
    var i := FirstReleaseIs(cs.buttonEvents);
  }

  /** A button's last event restarts or stops its timer and notes the car's state; without one a running timer goes on. */
  lemma {:induction false} TimerTold(p: Button, b: ButtonType, events: seq<ButtonEvent>, standstill: bool, enabled: bool, i: nat)
    requires i < |events| && events[i].button == b && forall j :: i < j < |events| ==> events[j].button != b
    ensures Timer(p, b, events, standstill, enabled) == Button(if events[i].pressed then 1 else 0, standstill, enabled)
    decreases |events|
  {
    if i < |events| - 1 {
      TimerTold(p, b, events[..|events| - 1], standstill, enabled, i);
    }
  }

  lemma {:induction false} TimerUntold(p: Button, b: ButtonType, events: seq<ButtonEvent>, standstill: bool, enabled: bool)
    requires forall j :: 0 <= j < |events| ==> events[j].button != b
    ensures Timer(p, b, events, standstill, enabled) == Button(if p.timer > 0 then p.timer + 1 else 0, p.standstill, p.enabled)
    decreases |events|
  {
    if events != [] {
      TimerUntold(p, b, events[..|events| - 1], standstill, enabled);
    }
  }

  /** Without cruise the speed is unset and the timers stop where they are. */
  lemma Unavailable(s: Helper, cs: CarState, enabled: bool, metric: bool)
    requires !cs.available
    ensures Updated(s, cs, enabled, metric) == Helper(255.0, s.v, s.decel, s.accel)
  {
  }

  /**
    On engaging, a request to resume brings back the speed of the frame before; otherwise the
    speed is the whole number nearest to the car's own, but at least 40, or 105 in experimental
    mode, and at most 145.
   */
  lemma InitializedIs(s: Helper, cs: CarState, experimental: bool)
    ensures var t := Initialized(s, cs, experimental);
            var least, own := if experimental then 105.0 else 40.0, cs.vEgo * 3.6;
            && t == s.(v := t.v)
            && if s.v != 255.0 && exists i :: 0 <= i < |cs.buttonEvents| && cs.buttonEvents[i].button in {AccelCruise, ResumeCruise}
               then t.v == s.vLast
               else
                 && Integral(t.v) && least <= t.v <= 145.0
                 && (own <= least ==> t.v == least) && (own >= 145.0 ==> t.v == 145.0)
                 && (least < own < 145.0 ==> own - 0.5 <= t.v <= own + 0.5)
  {
    var least, own := if experimental then 105.0 else 40.0, cs.vEgo * MS_TO_KPH;
    var x := Clip(own, least, V_CRUISE_MAX);
    var n := Round(x);
    RoundBetween(x, n, if experimental then 105 else 40, 145);
    assert (n as real).Floor == n;
    assert Integral(least) && Integral(V_CRUISE_MAX);
    assert Resumes(cs.buttonEvents) <==>
             exists i :: 0 <= i < |cs.buttonEvents| && cs.buttonEvents[i].button in {AccelCruise, ResumeCruise};
    hide Round, Resumes;
  }

  /** With gas, a step down ends within 0.05 of the higher of the lowered speed and the car's own, or at a limit. */
  lemma GasStep(v: real, cs: CarState, metric: bool, a: Action)
    requires !a.Nothing? && a.button.DecelCruise? && cs.gasPressed
    ensures var lowered, own := Moved(v, Interval(metric, a), a), cs.vEgo * 3.6;
            var held := if own > lowered then own else lowered;
            && (held <= 7.95 ==> Applied(v, cs, metric, a) == 8.0) && (held >= 145.05 ==> Applied(v, cs, metric, a) == 145.0)
            && (8.05 <= held <= 144.95 ==> held - 0.05 <= Applied(v, cs, metric, a) <= held + 0.05)
  {
    hide Moved;
  }

  // ---------- the set speed over whole runs ----------

  /**
    One frame of the car process: an update, then on a rising edge of enabled an initialization.
    `applied` says whether the frame's controls went out, which is when its enabled flag is kept.
   */
  datatype Frame = Frame(cs: CarState, enabled: bool, metric: bool, rising: bool, csPrev: CarState, experimental: bool,
                         applied: bool)

  function Next(s: Helper, f: Frame): Helper {
    var t := Updated(s, f.cs, f.enabled, f.metric);
    if f.rising then Initialized(t, f.csPrev, f.experimental) else t
  }

  function Run(frames: seq<Frame>): Helper {
    if frames == [] then START else Next(Run(frames[..|frames| - 1]), frames[|frames| - 1])
  }

  /** Unset, or a whole number of tenths within the limits. */
  predicate Settable(v: real) {
    v == V_CRUISE_UNSET || (V_CRUISE_MIN <= v <= V_CRUISE_MAX && Tenths(v))
  }

  lemma AppliedSettable(v: real, cs: CarState, metric: bool, a: Action)
    requires Settable(v)
    ensures Settable(Applied(v, cs, metric, a))
  {
    hide Moved, RoundTenth;
  }

  lemma InitializedSettable(s: Helper, cs: CarState, experimental: bool)
    requires Settable(s.v) && Settable(s.vLast)
    ensures Settable(Initialized(s, cs, experimental).v)
  {
    var initial := if experimental then V_CRUISE_INITIAL_EXPERIMENTAL_MODE else V_CRUISE_INITIAL;
    var x := Clip(cs.vEgo * MS_TO_KPH, initial, V_CRUISE_MAX);
    var n := Round(x);
    hide Round;
    RoundBetween(x, n, 40, 145);
    assert 10.0 * n as real == (10 * n) as real;
    assert Tenths(n as real);
  }

  lemma RoundBetween(x: real, n: int, lo: int, hi: int)
    requires lo as real <= x <= hi as real && x - 0.5 <= n as real <= x + 0.5
    ensures lo <= n <= hi
  {
  }

  /** Whatever the frames, the set speed is unset or within its limits, in whole tenths. */
  lemma {:induction false} SetSpeedInRange(frames: seq<Frame>)
    ensures Settable(Run(frames).v)
  {
    if frames != [] {
      SetSpeedInRange(frames[..|frames| - 1]);
      var s, f := Run(frames[..|frames| - 1]), frames[|frames| - 1];
      AppliedSettable(s.v, f.cs, f.metric, Decide(s, f.cs, f.enabled));
      if f.rising {
        InitializedSettable(Updated(s, f.cs, f.enabled, f.metric), f.csPrev, f.experimental);
      }
    }
  }

  // ---------- whether an initialization sets it ----------

  lemma InitialIsSet(s: Helper, cs: CarState, experimental: bool)
    ensures Initialized(s, cs, experimental).v == V_CRUISE_UNSET <==>
              Resumes(cs.buttonEvents) && s.v != V_CRUISE_UNSET && s.vLast == V_CRUISE_UNSET
  {
    var initial := if experimental then V_CRUISE_INITIAL_EXPERIMENTAL_MODE else V_CRUISE_INITIAL;
    var x := Clip(cs.vEgo * MS_TO_KPH, initial, V_CRUISE_MAX);
    var n := Round(x);
    hide Round;
    RoundBetween(x, n, 40, 145);
  }

  lemma UpdatedIsSet(s: Helper, cs: CarState, enabled: bool, metric: bool)
    requires Settable(s.v)
    ensures Updated(s, cs, enabled, metric).v != V_CRUISE_UNSET <==>
              cs.available && (s.v != V_CRUISE_UNSET || !Decide(s, cs, enabled).Nothing?)
  {
    hide Decide, Timer, RoundTenth, Moved;
  }

  /**
    On every run an initialization sets the speed, unless the frame before asked to resume, there
    was no speed to resume, and this very frame's update makes a step.
   */
  lemma InitializationSetsIff(frames: seq<Frame>, f: Frame)
    requires f.rising
    ensures var s := Run(frames);
            Next(s, f).v != V_CRUISE_UNSET <==>
              !(Resumes(f.csPrev.buttonEvents) && s.v == V_CRUISE_UNSET
                && f.cs.available && !Decide(s, f.cs, f.enabled).Nothing?)
  {
    hide Updated, Initialized, Run, Decide;
    var s := Run(frames);
    SetSpeedInRange(frames);
    UpdatedIsSet(s, f.cs, f.enabled, f.metric);
    UpdatedKeepsLast(s, f.cs, f.enabled, f.metric);
    InitialIsSet(Updated(s, f.cs, f.enabled, f.metric), f.csPrev, f.experimental);
  }

  lemma UpdatedKeepsLast(s: Helper, cs: CarState, enabled: bool, metric: bool)
    ensures Updated(s, cs, enabled, metric).vLast == s.v
  {
    hide Applied, Decide, Timer;
  }

  // ---------- the frames the car process makes ----------

  const BLANK := CarState(false, false, false, 0.0, [])

  /** The enabled flag kept from the last frame whose controls went out. */
  predicate KeptEnabled(frames: seq<Frame>) {
    frames != [] &&
    var n := |frames| - 1;
    if frames[n].applied then frames[n].enabled else KeptEnabled(frames[..n])
  }

  /** Each frame has the car state of the one before, and rises exactly if enabled when the kept flag is not. */
  predicate Consistent(frames: seq<Frame>) {
    frames != [] ==>
      var before, f := frames[..|frames| - 1], frames[|frames| - 1];
      && Consistent(before)
      && f.csPrev == (if before == [] then BLANK else before[|before| - 1].cs)
      && (f.rising <==> f.enabled && !KeptEnabled(before))
  }

  /**
    Decelerate pressed on engaging, cruise unavailable with resume pressed, decelerate released on
    engaging again: initialized, and still unset.
   */
  lemma InitializedButUnset()
    ensures exists frames, f: Frame ::
              Consistent(frames + [f]) && f.rising && Next(Run(frames), f).v == V_CRUISE_UNSET
  {
    var press := CarState(true, false, false, 0.0, [ButtonEvent(DecelCruise, true)]);
    var resume := CarState(false, false, false, 0.0, [ButtonEvent(ResumeCruise, true)]);
    var release := CarState(true, false, false, 0.0, [ButtonEvent(DecelCruise, false)]);
    var a := Frame(press, true, true, true, BLANK, false, true);
    var b := Frame(resume, false, true, false, press, false, true);
    var f := Frame(release, true, true, true, resume, false, true);
    var up := Button(0, false, false);
    var s := Run([a, b]);
    ThreeFrames(a, b, f);
    assert [a, b][..1] == [a] && [a][..0] == [];
    Pressed(press, up);
    assert Run([a]).decel == Button(1, false, true);
    assert s.v == V_CRUISE_UNSET && s.decel == Button(1, false, true);
    assert FirstRelease(release.buttonEvents) == DecelCruise;
    assert Decide(s, release, true) == Short(DecelCruise);
    assert Resumes(resume.buttonEvents) by {
      assert resume.buttonEvents[0].button.ResumeCruise?;
    }
    InitializationSetsIff([a, b], f);
  }

  lemma ThreeFrames(a: Frame, b: Frame, f: Frame)
    requires a.applied && a.enabled && a.rising && a.csPrev == BLANK
    requires b.applied && !b.enabled && !b.rising && b.csPrev == a.cs
    requires f.enabled && f.rising && f.csPrev == b.cs
    ensures Consistent([a, b] + [f])
  {
    assert [a, b, f][..2] == [a, b] && [a, b][..1] == [a] && [a][..0] == [];
    assert Consistent([]) && Consistent([a]) && KeptEnabled([a]);
    assert Consistent([a, b]) && !KeptEnabled([a, b]);
    assert [a, b] + [f] == [a, b, f];
  }

  lemma Pressed(cs: CarState, up: Button)
    requires cs.buttonEvents == [ButtonEvent(DecelCruise, true)] && up.timer == 0
    ensures FirstRelease(cs.buttonEvents) == OtherButton
    ensures Timer(up, DecelCruise, cs.buttonEvents, cs.standstill, true) == Button(1, cs.standstill, true)
    ensures Timer(up, AccelCruise, cs.buttonEvents, cs.standstill, true) == up
  {
    assert cs.buttonEvents[1..] == [] && cs.buttonEvents[..0] == [];
  }

  // ---------- one press ----------

  /** No event of a button with a timer. */
  predicate Quiet(events: seq<ButtonEvent>) {
    forall i :: 0 <= i < |events| ==> !Timed(events[i].button)
  }

  /** The only event of a timed button is that `b` is pressed, or released. */
  predicate Only(events: seq<ButtonEvent>, b: ButtonType, pressed: bool) {
    && (forall i :: 0 <= i < |events| && Timed(events[i].button) ==> events[i] == ButtonEvent(b, pressed))
    && ButtonEvent(b, pressed) in events
  }

  lemma {:induction false} QuietEvents(p: Button, b: ButtonType, events: seq<ButtonEvent>, standstill: bool, enabled: bool)
    requires Timed(b) && forall i :: 0 <= i < |events| ==> events[i].button != b
    ensures Timer(p, b, events, standstill, enabled) == if p.timer > 0 then p.(timer := p.timer + 1) else p
  {
    if events != [] {
      QuietEvents(p, b, events[..|events| - 1], standstill, enabled);
    }
  }

  lemma {:induction false} NoRelease(events: seq<ButtonEvent>)
    requires forall i :: 0 <= i < |events| && Timed(events[i].button) ==> events[i].pressed
    ensures FirstRelease(events) == OtherButton
  {
    if events != [] {
      NoRelease(events[1..]);
    }
  }

  lemma {:induction false} OnlyRelease(events: seq<ButtonEvent>, b: ButtonType)
    requires Timed(b) && Only(events, b, false)
    ensures FirstRelease(events) == b
  {
    if !Timed(events[0].button) {
      OnlyRelease(events[1..], b);
    }
  }

  lemma {:induction false} OnlyPress(p: Button, b: ButtonType, events: seq<ButtonEvent>, standstill: bool, enabled: bool)
    requires Timed(b) && Only(events, b, true)
    ensures Timer(p, b, events, standstill, enabled) == Button(1, standstill, enabled)
  {
    var n := |events| - 1;
    if events[n].button != b {
      assert ButtonEvent(b, true) in events[..n];
      OnlyPress(p, b, events[..n], standstill, enabled);
    }
  }

  /** A button pressed in the first frame, alone, and released in the last; openpilot stays enabled. */
  ghost predicate LonePress(b: ButtonType, css: seq<CarState>) {
    && Timed(b) && |css| >= 2
    && Only(css[0].buttonEvents, b, true) && Only(css[|css| - 1].buttonEvents, b, false)
    && (forall j :: 0 < j < |css| - 1 ==> Quiet(css[j].buttonEvents))
    && (forall j :: 0 <= j < |css| ==> css[j].available)
    && (b.AccelCruise? ==> forall j :: 0 <= j < |css| ==> !css[j].standstill)
  }

  /** The helper before frame `j` of a press that met it with both buttons up. */
  function Before(s: Helper, css: seq<CarState>, metric: bool, j: nat): Helper
    requires j <= |css|
  {
    if j == 0 then s else Updated(Before(s, css, metric, j - 1), css[j - 1], true, metric)
  }

  function ActionAt(s: Helper, css: seq<CarState>, metric: bool, j: nat): Action
    requires j < |css|
  {
    Decide(Before(s, css, metric, j), css[j], true)
  }

  function Other(b: ButtonType): ButtonType
    requires Timed(b)
  {
    if b.DecelCruise? then AccelCruise else DecelCruise
  }

  /** While the button is held its timer is the number of frames since the press. */
  lemma {:induction false} TimerCounts(s: Helper, b: ButtonType, css: seq<CarState>, metric: bool, j: nat)
    requires LonePress(b, css) && s.decel.timer == 0 == s.accel.timer && 1 <= j < |css|
    ensures var t := Before(s, css, metric, j);
            t.Of(b) == Button(j, css[0].standstill, true) && t.Of(Other(b)).timer == 0
  {
    hide Applied, Decide;
    var u, cs := Before(s, css, metric, j - 1), css[j - 1];
    QuietEvents(u.Of(Other(b)), Other(b), cs.buttonEvents, cs.standstill, true);
    if j == 1 {
      OnlyPress(s.Of(b), b, cs.buttonEvents, cs.standstill, true);
    } else {
      TimerCounts(s, b, css, metric, j - 1);
      QuietEvents(u.Of(b), b, cs.buttonEvents, cs.standstill, true);
    }
  }

  /** A press held `k` frames: a short step on release if k <= 50, else a long step at each 50 held. */
  lemma PressAction(s: Helper, b: ButtonType, css: seq<CarState>, metric: bool, j: nat)
    requires LonePress(b, css) && s.decel.timer == 0 == s.accel.timer && j < |css|
    ensures var k := |css| - 1;
            ActionAt(s, css, metric, j) ==
              if j == k then if k <= CRUISE_LONG_PRESS then Short(b) else Nothing
              else if LongPress(j) then Long(b)
              else Nothing
  {
    hide Updated, Timer;
    if j == |css| - 1 {
      TimerCounts(s, b, css, metric, j);
      OnlyRelease(css[j].buttonEvents, b);
    } else {
      NoRelease(css[j].buttonEvents);
      if j > 0 {
        TimerCounts(s, b, css, metric, j);
      }
    }
  }

  function LongSteps(s: Helper, css: seq<CarState>, metric: bool, n: nat): nat
    requires n <= |css|
  {
    if n == 0 then 0 else LongSteps(s, css, metric, n - 1) + if ActionAt(s, css, metric, n - 1).Long? then 1 else 0
  }

  lemma {:induction false} LongStepsSoFar(s: Helper, b: ButtonType, css: seq<CarState>, metric: bool, n: nat)
    requires LonePress(b, css) && s.decel.timer == 0 == s.accel.timer && 1 <= n < |css|
    ensures LongSteps(s, css, metric, n) == (n - 1) / CRUISE_LONG_PRESS
  {
    PressAction(s, b, css, metric, n - 1);
    hide ActionAt;
    if n == 1 {
      assert LongSteps(s, css, metric, 0) == 0;
    } else {
      LongStepsSoFar(s, b, css, metric, n - 1);
    }
  }

  /** All of a press: every action is this button's, and they add up. */
  lemma PressSteps(s: Helper, b: ButtonType, css: seq<CarState>, metric: bool)
    requires LonePress(b, css) && s.decel.timer == 0 == s.accel.timer
    ensures var k := |css| - 1;
            && LongSteps(s, css, metric, k + 1) == (k - 1) / CRUISE_LONG_PRESS
            && (ActionAt(s, css, metric, k) == if k <= CRUISE_LONG_PRESS then Short(b) else Nothing)
            && forall j :: 0 <= j < k ==> ActionAt(s, css, metric, j) in {Nothing, Long(b)}
  {
    var k := |css| - 1;
    LongStepsSoFar(s, b, css, metric, k);
    forall j | 0 <= j <= k
      ensures j < k ==> ActionAt(s, css, metric, j) in {Nothing, Long(b)}
      ensures j == k ==> ActionAt(s, css, metric, k) == if k <= CRUISE_LONG_PRESS then Short(b) else Nothing
    {
      PressAction(s, b, css, metric, j);
    }
  }

  // ---------- where the steps lead ----------

  predicate Plain(cs: CarState, a: Action) {
    !a.Nothing? && Timed(a.button) && !(cs.gasPressed && a.button.DecelCruise?)
  }

  /** `m` whole intervals on from `v`, counting from the next multiple in that direction. */
  function Whole(v: real, d: real, b: ButtonType, m: int): real
    requires d > 0.0
  {
    (if b.AccelCruise? then (v / d).Floor + m else Ceil(v / d) - m) as real * d
  }

  lemma TenthsOfInterval(w: real, n: int, metric: bool, a: Action)
    requires !a.Nothing? && w == n as real * Interval(metric, a)
    ensures Tenths(w)
  {
    var k := if metric then if a.Long? then 50 else 10 else if a.Long? then 80 else 16;
    hide Integral;
    TimesInterval(w, n, metric, a);
    IsIntegral(10.0 * w, n * k);
  }

  lemma TimesInterval(w: real, n: int, metric: bool, a: Action)
    requires !a.Nothing? && w == n as real * Interval(metric, a)
    ensures 10.0 * w == (n * if metric then if a.Long? then 50 else 10 else if a.Long? then 80 else 16) as real
  {
    if metric {
      if a.Long? {
        assert w == n as real * 5.0;
      } else {
        assert w == n as real * 1.0;
      }
    } else {
      if a.Long? {
        assert w == n as real * 8.0;
      } else {
        assert w == n as real * 1.6;
      }
    }
  }

  lemma TenthsAdd(v: real, w: real)
    requires Tenths(v) && Tenths(w)
    ensures Tenths(v + w) && Tenths(v - w)
  {
    var a, b := (10.0 * v).Floor, (10.0 * w).Floor;
    hide Integral;
    assert 10.0 * v == a as real && 10.0 * w == b as real by {
      IntegralIs(10.0 * v);
      IntegralIs(10.0 * w);
    }
    IsIntegral(10.0 * (v + w), a + b);
    IsIntegral(10.0 * (v - w), a - b);
  }

  lemma IntegralIs(x: real)
    requires Integral(x)
    ensures x == x.Floor as real
  {
  }

  lemma IsIntegral(x: real, n: int)
    requires x == n as real
    ensures Integral(x)
  {
  }

  lemma CeilIs(x: real)
    ensures Ceil(x) == if Integral(x) then x.Floor else x.Floor + 1
  {
    var n := x.Floor;
    if Integral(x) {
      assert -x == (-n) as real;
    } else {
      assert (-n - 1) as real <= -x < (-n) as real;
    }
  }

  lemma MovedIs(v: real, d: real, a: Action)
    requires !a.Nothing? && Timed(a.button) && d > 0.0 && a.Long?
    ensures Moved(v, d, a) == Whole(v, d, a.button, 1)
  {
    var n := (v / d).Floor;
    Reals.Cancel(d, v);
    CeilIs(v / d);
    Reals.Distribute(n as real, 1.0, d);
    hide Ceil;
    if Integral(v / d) {
      assert n as real * d == v;
    }
  }

  /** A whole step leaves the value strictly behind, and goes on by one interval at a time. */
  lemma WholeGoesOn(v: real, d: real, b: ButtonType, m: int)
    requires Timed(b) && d > 0.0
    ensures Whole(v, d, b, m + 1) == if b.AccelCruise? then Whole(v, d, b, m) + d else Whole(v, d, b, m) - d
    ensures if b.AccelCruise? then Whole(v, d, b, 1) > v else Whole(v, d, b, 1) < v
  {
    var q, n, c := v / d, (v / d).Floor, Ceil(v / d);
    Reals.Cancel(d, v);
    Reals.Distribute((n + m) as real, 1.0, d);
    Reals.Distribute((c - m) as real, 1.0, d);
    Reals.MulPositive(d, (n + 1) as real - q);
    Reals.MulPositive(d, q - (c - 1) as real);
    Reals.Distribute((n + 1) as real, q, d);
    Reals.Distribute(q, (c - 1) as real, d);
    assert (n + 1 + m) as real == (n + m) as real + 1.0 && (c - m - 1) as real == (c - m) as real - 1.0;
  }

  /** A multiple of the interval steps to the next one. */
  lemma WholeOfMultiple(v: real, d: real, b: ButtonType, m: int)
    requires Timed(b) && d > 0.0
    ensures var w := Whole(v, d, b, m);
            Whole(w, d, b, 1) == if b.AccelCruise? then w + d else w - d
  {
    var n := if b.AccelCruise? then (v / d).Floor + m else Ceil(v / d) - m;
    var w := n as real * d;
    assert w == Whole(v, d, b, m);
    QuotientIs(w, d, n);
    CeilIs(w / d);
    Reals.Distribute(n as real, 1.0, d);
    assert (n + 1) as real == n as real + 1.0 && (n - 1) as real == n as real - 1.0;
    hide Ceil;
    WholeIs(w, d, b, if b.AccelCruise? then n + 1 else n - 1);
  }

  lemma QuotientIs(w: real, d: real, n: int)
    requires d > 0.0 && w == n as real * d
    ensures w / d == n as real && (w / d).Floor == n && Integral(w / d)
  {
    Reals.Cancel(d, n as real);
  }

  lemma WholeIs(v: real, d: real, b: ButtonType, n: int)
    requires d > 0.0 && n == if b.AccelCruise? then (v / d).Floor + 1 else Ceil(v / d) - 1
    ensures Whole(v, d, b, 1) == n as real * d
  {
    hide Ceil;
  }

  /** A long step goes to the next multiple of its interval, up to the limits; rounding adds nothing. */
  lemma LongStep(v: real, cs: CarState, metric: bool, a: Action)
    requires a.Long? && Plain(cs, a)
    ensures Applied(v, cs, metric, a) == Clip(Whole(v, Interval(metric, a), a.button, 1), V_CRUISE_MIN, V_CRUISE_MAX)
  {
    hide Moved, RoundTenth, Tenths, Clip, Whole, Ceil;
    var d := Interval(metric, a);
    var n := if a.button.AccelCruise? then (v / d).Floor + 1 else Ceil(v / d) - 1;
    MovedIs(v, d, a);
    WholeIs(v, d, a.button, n);
    TenthsOfInterval(Whole(v, d, a.button, 1), n, metric, a);
  }

  /** A short step moves a set speed by exactly its interval, up to the limits. */
  lemma ShortStep(v: real, cs: CarState, metric: bool, a: Action)
    requires a.Short? && Plain(cs, a) && Tenths(v)
    ensures var d := Interval(metric, a);
            Applied(v, cs, metric, a)
            == Clip(if a.button.AccelCruise? then v + d else v - d, V_CRUISE_MIN, V_CRUISE_MAX)
  {
    hide RoundTenth, Tenths, Clip;
    TenthsOfInterval(Interval(metric, a), 1, metric, a);
    TenthsAdd(v, Interval(metric, a));
  }

  /** Within the limits a short press up and one down cancel out. */
  lemma UpAndDown(v: real, cs: CarState, metric: bool)
    requires V_CRUISE_MIN <= v <= V_CRUISE_MAX - 2.0 && Tenths(v) && !cs.gasPressed
    ensures Applied(Applied(v, cs, metric, Short(AccelCruise)), cs, metric, Short(DecelCruise)) == v
  {
    hide Applied, Tenths;
    ShortStep(v, cs, metric, Short(AccelCruise));
    TenthsOfInterval(Interval(metric, Short(AccelCruise)), 1, metric, Short(AccelCruise));
    TenthsAdd(v, Interval(metric, Short(AccelCruise)));
    ShortStep(v + Interval(metric, Short(AccelCruise)), cs, metric, Short(DecelCruise));
  }

  /** Every metric long step lands on a multiple of 5 or on a limit. */
  lemma MetricLongStepLands(v: real, cs: CarState, a: Action)
    requires a.Long? && Plain(cs, a)
    ensures var w := Applied(v, cs, true, a);
            w == V_CRUISE_MIN || w == V_CRUISE_MAX || Integral(w / 5.0)
  {
    hide Applied, Whole;
    LongStep(v, cs, true, a);
    var n := if a.button.AccelCruise? then (v / 5.0).Floor + 1 else Ceil(v / 5.0) - 1;
    assert Whole(v, 5.0, a.button, 1) == n as real * 5.0 by {
      WholeIs(v, 5.0, a.button, n);
    }
    assert n as real * 5.0 / 5.0 == n as real;
  }

  /** Setting while overriding never leaves the set speed below the car's own, but for rounding and the limit. */
  lemma GasHoldsSpeed(v: real, cs: CarState, metric: bool, a: Action)
    requires !a.Nothing? && a.button.DecelCruise? && cs.gasPressed
    ensures Applied(v, cs, metric, a) >= Clip(cs.vEgo * MS_TO_KPH - 0.05, V_CRUISE_MIN, V_CRUISE_MAX)
  {
    hide Moved;
  }

  // ---------- the whole effect of a press ----------

  /** The set speed after `m` long steps from `v`. */
  function AfterLong(v: real, d: real, b: ButtonType, m: nat): real
    requires d > 0.0
  {
    if m == 0 then v else Clip(Whole(v, d, b, m), V_CRUISE_MIN, V_CRUISE_MAX)
  }

  lemma OneMore(v: real, d: real, b: ButtonType, m: nat)
    requires Timed(b) && d > 0.0 && V_CRUISE_MIN <= v <= V_CRUISE_MAX && m >= 1
    ensures Clip(Whole(AfterLong(v, d, b, m), d, b, 1), V_CRUISE_MIN, V_CRUISE_MAX) == AfterLong(v, d, b, m + 1)
  {
    var w, at := Whole(v, d, b, m), AfterLong(v, d, b, m);
    Monotone(v, d, b, m);
    WholeGoesOn(v, d, b, m);
    WholeGoesOn(at, d, b, 0);
    WholeOfMultiple(v, d, b, m);
    hide Whole;
    // at a limit the next step leaves it again and is clipped back
    assert at != w ==> at == if b.AccelCruise? then V_CRUISE_MAX else V_CRUISE_MIN;
  }

  lemma {:induction false} Monotone(v: real, d: real, b: ButtonType, m: nat)
    requires Timed(b) && d > 0.0 && m >= 1
    ensures if b.AccelCruise? then Whole(v, d, b, m) > v else Whole(v, d, b, m) < v
  {
    hide Whole;
    if m == 1 {
      WholeGoesOn(v, d, b, 0);
    } else {
      Monotone(v, d, b, m - 1);
      WholeGoesOn(v, d, b, m - 1);
    }
  }

  /** The set speed before frame `n` of a press. */
  lemma {:induction false} SpeedDuringPress(s: Helper, b: ButtonType, css: seq<CarState>, metric: bool, n: nat)
    requires LonePress(b, css) && s.decel.timer == 0 == s.accel.timer && n < |css|
    requires V_CRUISE_MIN <= s.v <= V_CRUISE_MAX
    requires b.DecelCruise? ==> forall j :: 0 <= j < |css| ==> !css[j].gasPressed
    ensures Before(s, css, metric, n).v
            == AfterLong(s.v, Interval(metric, Long(b)), b, if n == 0 then 0 else (n - 1) / CRUISE_LONG_PRESS)
  {
    hide Applied, Decide, Timer, Clip, Whole;
    if n > 0 {
      SpeedDuringPress(s, b, css, metric, n - 1);
      PressAction(s, b, css, metric, n - 1);
      var a, t := ActionAt(s, css, metric, n - 1), Before(s, css, metric, n - 1);
      AppliedIs(t.v, css[n - 1], metric, a);
      if a.Long? {
        OneStep(s.v, Interval(metric, Long(b)), b, (n - 1) / CRUISE_LONG_PRESS - 1);
      }
    }
  }

  lemma AppliedIs(v: real, cs: CarState, metric: bool, a: Action)
    requires a.Nothing? || (a.Long? && Plain(cs, a))
    ensures a.Nothing? ==> Applied(v, cs, metric, a) == v
    ensures a.Long? ==>
              Applied(v, cs, metric, a) == Clip(Whole(v, Interval(metric, a), a.button, 1), V_CRUISE_MIN, V_CRUISE_MAX)
  {
    if a.Long? {
      LongStep(v, cs, metric, a);
    }
  }

  lemma OneStep(v: real, d: real, b: ButtonType, m: nat)
    requires Timed(b) && (d == 5.0 || d == 8.0) && V_CRUISE_MIN <= v <= V_CRUISE_MAX
    ensures Clip(Whole(AfterLong(v, d, b, m), d, b, 1), V_CRUISE_MIN, V_CRUISE_MAX) == AfterLong(v, d, b, m + 1)
  {
    if m >= 1 {
      OneMore(v, d, b, m);
    }
  }

  /**
    The whole effect of a lone press held k frames: one interval up to 50 frames, beyond that as
    many whole long intervals as there are full 50-frame stretches before the release frame.
   */
  lemma PressEffect(s: Helper, b: ButtonType, css: seq<CarState>, metric: bool)
    requires LonePress(b, css) && s.decel.timer == 0 == s.accel.timer
    requires V_CRUISE_MIN <= s.v <= V_CRUISE_MAX && Tenths(s.v)
    requires b.DecelCruise? ==> forall j :: 0 <= j < |css| ==> !css[j].gasPressed
    ensures var k := |css| - 1;
            var d := Interval(metric, Short(b));
            Before(s, css, metric, k + 1).v ==
              if k <= CRUISE_LONG_PRESS
              then Clip(if b.AccelCruise? then s.v + d else s.v - d, V_CRUISE_MIN, V_CRUISE_MAX)
              else AfterLong(s.v, 5.0 * d, b, (k - 1) / CRUISE_LONG_PRESS)
  {
    hide Applied, Decide, Timer, Clip, Whole, Tenths;
    var k := |css| - 1;
    SpeedDuringPress(s, b, css, metric, k);
    PressAction(s, b, css, metric, k);
    if k <= CRUISE_LONG_PRESS {
      ShortStep(s.v, css[k], metric, Short(b));
    } else {
      AppliedIs(Before(s, css, metric, k).v, css[k], metric, Nothing);
    }
  }
}
