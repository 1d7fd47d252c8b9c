/**
 * `ALOCI.Parameterizer`: the three integer options `nmin`, `g` and
 * `alpha`, their defaults, and the clamp that keeps `alpha` at least 1.
 */
module Parameters {

  /** Java `int`. */
  type Int32 = x: int | -0x8000_0000 <= x < 0x8000_0000

  /**
   * What `config.grab(p)` finds for one option: a value the user gave, no
   * value (the parameter then supplies its default) or a value the
   * framework rejected (`grab` answers false and the field is not set).
   */
  datatype Grab = Given(value: Int32) | Absent | Rejected

  /** The value an option field ends up with when it was `current` before `grab`. */
  function Grabbed(arg: Grab, default: Int32, current: Int32): Int32
  {
    match arg
    case Given(v) => v
    case Absent => default
    case Rejected => current
  }

  /** An `alpha` below 1 is raised to 1; any other value is kept. */
  function ClampAlpha(a: Int32): (r: Int32)
    ensures r >= 1 && r >= a
    ensures a >= 1 ==> r == a
    ensures a < 1 ==> r == 1
  {
    if a < 1 then 1 else a
  }

  /** `alpha` after `makeOptions`: the grabbed value, clamped only when `grab` succeeded. */
  function AlphaOption(arg: Grab, current: Int32): Int32
  {
    if arg.Rejected? then current else ClampAlpha(Grabbed(arg, 4, current))
  }

  /**
   * Starting from an `alpha` of at least 1 (the field's initial 4), the
   * configured `alpha` is at least 1 whatever the user supplies, which is
   * what the scorer's sampling level `cg.level - alpha` relies on.
   */
  lemma AlphaOptionIsPositive(arg: Grab, current: Int32)
    requires current >= 1
    ensures AlphaOption(arg, current) >= 1
    ensures arg.Given? && arg.value >= 1 ==> AlphaOption(arg, current) == arg.value
    ensures arg.Given? && arg.value < 1 ==> AlphaOption(arg, current) == 1
    ensures arg.Absent? ==> AlphaOption(arg, current) == 4
  {
  }

  class Parameterizer {
    var nmin: Int32
    var alpha: Int32
    var g: Int32

    /** The field initialisers: `nmin = 0`, `alpha = 4`, `g = 1`. */
    constructor()
      ensures nmin == 0 && alpha == 4 && g == 1
    {
      nmin, alpha, g := 0, 4, 1;
    }

    /**
     * `makeOptions`: grabs `nmin` (default 20), `g` (default 1) and
     * `alpha` (default 4), raising an `alpha` below 1 to 1.
     */
    method MakeOptions(nminArg: Grab, gArg: Grab, alphaArg: Grab)
      modifies this
      ensures nmin == Grabbed(nminArg, 20, old(nmin))
      ensures g == Grabbed(gArg, 1, old(g))
      ensures alpha == AlphaOption(alphaArg, old(alpha))
      ensures old(alpha) >= 1 ==> alpha >= 1
    {
      match nminArg {
        case Given(v) => nmin := v;
        case Absent => nmin := 20;
        case Rejected =>
      }
      match gArg {
        case Given(v) => g := v;
        case Absent => g := 1;
        case Rejected =>
      }
      if alphaArg != Rejected {
        alpha := if alphaArg.Given? then alphaArg.value else 4;
        if alpha < 1 {
          alpha := 1;
        }
      }
      if old(alpha) >= 1 {
        AlphaOptionIsPositive(alphaArg, old(alpha));
      }
    }
  }
}
