/** The calibrator object: its fields are updated in place, message by message. */
module Calibrator {
  import opened Calibration
  import opened Wrappers

  class Calibrator {
    const limits: Limits
    var rpy: Vec3
    var rpys: array<Vec3>
    var idx: nat
    var blockIdx: nat
    var validBlocks: nat
    var oldRpy: Vec3
    var oldRpyWeight: real
    var calStatus: Status
    var calibSpread: Vec3

    ghost function Model(): Cal
      reads this, rpys
    {
      Cal(limits, rpy, rpys[..], idx, blockIdx, validBlocks, oldRpy, oldRpyWeight, calStatus, calibSpread)
    }

    ghost predicate Valid()
      reads this, rpys
    {
      Model().Shaped()
    }

    constructor (limits: Limits, rpyInit: Option<Vec3>, savedBlocks: int)
      requires savedBlocks <= INPUTS_WANTED
      ensures Valid() && fresh(rpys)
      ensures Model() == Start(limits, rpyInit, savedBlocks)
    {
      this.limits := limits;
      calStatus := Uncalibrated;
      rpy, calibSpread, oldRpy, oldRpyWeight := RPY_INIT, RPY_INIT, RPY_INIT, 0.0;
      idx, blockIdx, validBlocks := 0, 0, 0;
      rpys := new Vec3[INPUTS_WANTED](_ => RPY_INIT);
      new;
      DoReset(if rpyInit.None? then RPY_INIT else rpyInit.value, if savedBlocks < 0 then 0 else savedBlocks, None);
      DoUpdateStatus();
    }

    method DoReset(rpyInit: Vec3, validBlocks: nat, smoothFrom: Option<Vec3>)
      requires validBlocks <= INPUTS_WANTED
      modifies this
      ensures Valid() && fresh(rpys)
      ensures Model() == Calibration.Reset(old(Model()), rpyInit, validBlocks, smoothFrom)
    {
      rpy := rpyInit;
      this.validBlocks := validBlocks;
      rpys := new Vec3[INPUTS_WANTED](_ => rpyInit);
      idx := 0;
      blockIdx := 0;
      if smoothFrom.None? {
        oldRpy := RPY_INIT;
        oldRpyWeight := 0.0;
      } else {
        oldRpy := smoothFrom.value;
        oldRpyWeight := 1.0;
      }
    }

    /** The first half of the status update: mean, spread and status. */
    method Assess()
      requires Valid()
      modifies this
      ensures rpys == old(rpys) && Model() == Assessed(old(Model()))
    {
      ghost var rows := Model().ValidRows();
      var validIdxs := GetValidIdxs(blockIdx, validBlocks);
      if validIdxs != [] {
        rpy := Mean(Select(rpys[..], validIdxs));
        calibSpread := Spread(Select(rpys[..], validIdxs));
      } else {
        assert rows == [];
        calibSpread := Vec3(0.0, 0.0, 0.0);
      }
      if validBlocks < INPUTS_NEEDED {
        if calStatus == Recalibrating {
          calStatus := Recalibrating;
        } else {
          calStatus := Uncalibrated;
        }
      } else if IsCalibrationValid(limits, rpy) {
        calStatus := Calibrated;
      } else {
        calStatus := Invalid;
      }
    }

    method DoUpdateStatus()
      requires Valid()
      modifies this
      ensures Valid() && (rpys == old(rpys) || fresh(rpys))
      ensures Model() == Calibration.UpdateStatus(old(Model()))
    {
      Assess();
      ghost var a := Model();
      // blocks disagree: keep only the newest one and fade over to it
      if SpreadTooHigh(calibSpread) && calStatus == Calibrated {
        var lastRow := rpys[if blockIdx == 0 then INPUTS_WANTED - 1 else blockIdx - 1];
        assert lastRow == PreviousRow(a);
        DoReset(lastRow, 1, Some(rpy));
        calStatus := Recalibrating;
      }
    }

    method DoHandleCamOdom(odom: Odom) returns (newRpy: Option<Vec3>)
      requires Valid()
      modifies this, rpys
      ensures Valid() && (rpys == old(rpys) || fresh(rpys))
      ensures Model() == Calibration.HandleCamOdom(old(Model()), odom)
      ensures newRpy == if Accepted(old(Model()), odom) then Some(SanityClip(limits, odom.observed)) else None
    {
      var w := oldRpyWeight - 1.0 / SMOOTH_CYCLES as real;
      oldRpyWeight := if w > 0.0 then w else 0.0;

      var certainIfCalib := (odom.rpyCertain && odom.heightCertain) || validBlocks < INPUTS_NEEDED;
      if !(odom.straightAndFast && certainIfCalib) {
        return None;
      }
      var clipped := SanityClip(limits, odom.observed);
      rpys[blockIdx] := MovingAvgWithLinearDecay(rpys[blockIdx], clipped, idx);
      idx := (idx + 1) % BLOCK_SIZE;
      if idx == 0 {
        blockIdx := blockIdx + 1;
        validBlocks := Max(blockIdx, validBlocks);
        blockIdx := blockIdx % INPUTS_WANTED;
      }
      assert Model() == Pushed(Decayed(old(Model())), clipped);
      DoUpdateStatus();
      return Some(clipped);
    }
  }
}
