/** The driver-monitoring object. */
module DriverMonitor {
  import opened DriverMonitoring
  import opened FilterSimple

  class DriverMonitor {
    var awareness: real
    var awarenessActive: real
    var awarenessPassive: real
    var thresholdPre: real
    var thresholdPrompt: real
    var stepChange: real
    var activeMonitoringMode: bool
    var faceDetected: bool
    var lowStd: bool
    var driverDistracted: bool
    const filter: FirstOrderFilter
    var hiStds: nat
    var terminalAlertCnt: nat
    var terminalTime: nat
    var tooDistracted: bool
    var currentEvents: set<EventName>

    ghost function Model(): Dm
      reads this, filter
    {
      Dm(awareness, awarenessActive, awarenessPassive, thresholdPre, thresholdPrompt, stepChange,
         activeMonitoringMode, faceDetected, lowStd, driverDistracted, filter.x, hiStds,
         terminalAlertCnt, terminalTime, tooDistracted, currentEvents)
    }

    ghost predicate Valid()
      reads this, filter
    {
      filter.initialized && filter.alpha == FILTER_ALPHA && Inv(Model())
    }

    constructor (savedTooDistracted: bool)
      ensures Valid() && fresh(filter)
      ensures Model() == Init(savedTooDistracted)
    {
      filter := new FirstOrderFilter(0.0, DISTRACTED_FILTER_TS, DT_DMON);
      driverDistracted, faceDetected, lowStd := false, false, true;
      terminalAlertCnt, terminalTime, hiStds := 0, 0, 0;
      stepChange := 0.0;
      activeMonitoringMode := true;
      thresholdPre, thresholdPrompt := ACTIVE_PRE, ACTIVE_PROMPT;
      tooDistracted := savedTooDistracted;
      awareness, awarenessActive, awarenessPassive := 1.0, 1.0, 1.0;
      currentEvents := {};
      new;
      DoSetTimers(true);
      InitInv(savedTooDistracted);
    }

    method DoResetAwareness()
      modifies this`awareness, this`awarenessActive, this`awarenessPassive
      ensures Model() == ResetAwareness(old(Model()))
    {
      awareness := 1.0;
      awarenessActive := 1.0;
      awarenessPassive := 1.0;
    }

    method DoSetTimers(activeMonitoring: bool)
      modifies this
      ensures Model() == SetTimers(old(Model()), activeMonitoring)
    {
      if activeMonitoringMode && awareness <= thresholdPrompt {
        if activeMonitoring {
          stepChange := DT_DMON / DISTRACTED_TIME;
        } else {
          stepChange := 0.0;
        }
        return;  // looking away and back must not refill an orange timer
      } else if awareness <= 0.0 {
        return;
      }

      if activeMonitoring {
        // the driver is seen again: the saved active timer goes on
        if !activeMonitoringMode {
          awarenessPassive := awareness;
          awareness := awarenessActive;
        }
        thresholdPre := DISTRACTED_PRE_TIME / DISTRACTED_TIME;
        thresholdPrompt := DISTRACTED_PROMPT_TIME / DISTRACTED_TIME;
        stepChange := DT_DMON / DISTRACTED_TIME;
        activeMonitoringMode := true;
      } else {
        if activeMonitoringMode {
          awarenessActive := awareness;
          awareness := awarenessPassive;
        }
        thresholdPre := AWARENESS_PRE_TIME / AWARENESS_TIME;
        thresholdPrompt := AWARENESS_PROMPT_TIME / AWARENESS_TIME;
        stepChange := DT_DMON / AWARENESS_TIME;
        activeMonitoringMode := false;
      }
    }

    method Observe(f: Frame)
      requires filter.initialized && filter.alpha == FILTER_ALPHA
      modifies this`faceDetected, this`lowStd, this`driverDistracted, filter
      ensures filter.initialized && filter.alpha == FILTER_ALPHA
      ensures Model() == Observed(old(Model()), f)
    {
      faceDetected := f.face;
      lowStd := f.lowStd;
      driverDistracted := f.distractedTypes && f.face && f.lowStd;
      var alpha := filter.alpha;
      var _ := filter.Update(if driverDistracted then 1.0 else 0.0);
      assert filter.alpha == alpha;
    }

    method DoUpdateStates(f: Frame)
      requires filter.initialized && filter.alpha == FILTER_ALPHA
      modifies this, filter
      ensures filter.initialized && filter.alpha == FILTER_ALPHA
      ensures Model() == UpdateStates(old(Model()), f)
    {
      if !f.dataValid {
        return;
      }
      Observe(f);
      var isModelUncertain := hiStds > HI_STD_FALLBACK_TIME;
      DoSetTimers(faceDetected && !isModelUncertain);
      ghost var t := Model();
      if faceDetected && !lowStd && !driverDistracted {
        hiStds := hiStds + 1;
      } else if faceDetected && lowStd {
        hiStds := 0;
      }
      assert Model() == t.(hiStds := NextHiStds(t, f));
    }

    method DoRecover()
      modifies this`awareness, this`awarenessPassive
      ensures Model() == Recover(old(Model()))
    {
      awareness := MinReal(awareness + ((RECOVERY_FACTOR_MAX - RECOVERY_FACTOR_MIN) * (1.0 - awareness)
                                        + RECOVERY_FACTOR_MIN) * stepChange, 1.0);
      if awareness == 1.0 {
        awarenessPassive := MinReal(awarenessPassive + stepChange, 1.0);
      }
    }

    method CountDown(f: Frame)
      modifies this`awareness
      ensures Model() == Count(old(Model()), f)
    {
      var alwaysOnValid := f.alwaysOn && !f.wrongGear;
      var reachingAudible := awareness - stepChange <= thresholdPrompt;
      var reachingTerminal := awareness - stepChange <= 0.0;
      var standstillOrangeExemption := f.standstill && reachingAudible;
      var alwaysOnRedExemption := alwaysOnValid && !f.opEngaged && reachingTerminal;
      var alwaysOnLowspeedExemption := alwaysOnValid && !f.opEngaged && f.lowSpeed;

      var certainlyDistracted := filter.x > 0.63 && driverDistracted && faceDetected;
      var maybeDistracted := hiStds > HI_STD_FALLBACK_TIME || !faceDetected;
      if certainlyDistracted || maybeDistracted {
        if !(standstillOrangeExemption || alwaysOnRedExemption || (alwaysOnLowspeedExemption && reachingAudible)) {
          awareness := if awareness - stepChange > -0.1 then awareness - stepChange else -0.1;
        }
      }
    }

    method RaiseAlert(f: Frame, awarenessPrev: real)
      modifies this`currentEvents, this`terminalTime, this`terminalAlertCnt
      ensures Model() == Alert(old(Model()), f, awarenessPrev)
    {
      var alwaysOnLowspeedExemption := f.alwaysOn && !f.wrongGear && !f.opEngaged && f.lowSpeed;
      if awareness <= 0.0 {
        // red: the timer has run out
        currentEvents := currentEvents + {if activeMonitoringMode then DriverDistracted else DriverUnresponsive};
        terminalTime := terminalTime + 1;
        if awarenessPrev > 0.0 {
          terminalAlertCnt := terminalAlertCnt + 1;
        }
      } else if awareness <= thresholdPrompt {
        currentEvents := currentEvents + {if activeMonitoringMode then PromptDriverDistracted else PromptDriverUnresponsive};
      } else if awareness <= thresholdPre && !alwaysOnLowspeedExemption {
        currentEvents := currentEvents + {if activeMonitoringMode then PreDriverDistracted else PreDriverUnresponsive};
      }
    }

    method CheckLockout(f: Frame)
      modifies this`currentEvents, this`tooDistracted
      ensures Model() == Lockout(old(Model()), f)
    {
      currentEvents := {};
      if terminalAlertCnt >= MAX_TERMINAL_ALERTS || terminalTime >= MAX_TERMINAL_DURATION {
        tooDistracted := true;
      }
      if tooDistracted || (f.alwaysOn && awareness <= thresholdPrompt) {
        currentEvents := currentEvents + {TooDistracted};
      }
    }

    method DoUpdateEvents(f: Frame)
      modifies this
      ensures Model() == UpdateEvents(old(Model()), f)
    {
      CheckLockout(f);
      ghost var s0 := Model();
      var alwaysOnValid := f.alwaysOn && !f.wrongGear;
      if (f.driverEngaged && awareness > 0.0 && !activeMonitoringMode) ||
         (!alwaysOnValid && !f.opEngaged) ||
         (alwaysOnValid && !f.opEngaged && awareness <= 0.0)
      {
        DoResetAwareness();
        return;
      }
      assert !ResetsAtOnce(s0, f);
      var driverAttentive := filter.x < 0.37;
      var awarenessPrev := awareness;
      if driverAttentive && faceDetected && lowStd && awareness > 0.0 {
        assert Attentive(s0);
        if f.driverEngaged {
          DoResetAwareness();
          return;
        }
        DoRecover();
        if awareness > thresholdPrompt {
          return;
        }
      }
      CountDown(f);
      RaiseAlert(f, awarenessPrev);
    }

    method RunStep(f: Frame)
      requires Valid()
      modifies this, filter
      ensures Valid() && Model() == Step(old(Model()), f)
    {
      StepInv(Model(), f);
      DoUpdateStates(f);
      DoUpdateEvents(f);
    }
  }
}
