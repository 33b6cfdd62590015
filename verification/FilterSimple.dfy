/** The first-order low-pass filter. */
module FilterSimple {

  function Filtered(x: real, alpha: real, input: real): real {
    (1.0 - alpha) * x + alpha * input
  }

  function Alpha(rc: real, dt: real): real
    requires rc + dt != 0.0
  {
    dt / (rc + dt)
  }

  class FirstOrderFilter {
    var x: real
    var dt: real
    var alpha: real
    var initialized: bool

    constructor (x0: real, rc: real, dt: real, initialized: bool := true)
      requires rc + dt != 0.0
      ensures x == x0 && this.dt == dt && alpha == Alpha(rc, dt) && this.initialized == initialized
    {
      x := x0;
      this.dt := dt;
      alpha := dt / (rc + dt);
      this.initialized := initialized;
    }

    method UpdateAlpha(rc: real)
      requires rc + dt != 0.0
      modifies this`alpha
      ensures alpha == Alpha(rc, dt)
    {
      alpha := dt / (rc + dt);
    }

    method Update(input: real) returns (r: real)
      modifies this`x, this`initialized
      ensures initialized && r == x
      ensures x == if old(initialized) then Filtered(old(x), alpha, input) else input
    {
      if initialized {
        x := (1.0 - alpha) * x + alpha * input;
      } else {
        initialized := true;
        x := input;
      }
      return x;
    }
  }
}
