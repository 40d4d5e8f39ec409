/** The `Plotter` widget's event handler `onChange`: the guard that keeps each
    axis's max spin box above its min spin box, and the dispatch of the plot event.
    Spin boxes are modelled as `real` fields and `setValue` as assignment; the
    dialog and the drawing are returned as an `Outcome` instead of being shown. */
module Plotter {
  import FunctionInput

  datatype Option<T> = None | Some(value: T)

  /** What one call of `onChange` shows: an error dialog with a title and a text,
      a plot of the rewritten expression over the current limits, or nothing. */
  datatype Outcome =
    | Error(title: string, message: string)
    | Plot(code: string, xMin: real, xMax: real, yMin: real, yMax: real)
    | NoOp

  /** The values of one axis's min and max spin boxes. */
  datatype Axis = Axis(min: real, max: real)

  datatype Limits = Limits(x: Axis, y: Axis)

  const XLimitsError: string := "x limits Error!"
  const YLimitsError: string := "y limits Error!"
  const MinTooLarge: string := "Min value cannot be greater than or equal max value"
  const MaxTooSmall: string := "Max value cannot be less than or equal min value"
  const FunctionError: string := "Function Error!"

  /** The event indices: 1 and 2 are the x min and max spin boxes, 3 and 4 the y
      ones, 5 the plot button and the grid check box. */
  const XMinChanged: int := 1
  const XMaxChanged: int := 2
  const YMinChanged: int := 3
  const YMaxChanged: int := 4
  const Replot: int := 5

  /** The max bound is not above the min bound. */
  predicate Inverted(a: Axis)
  {
    a.max <= a.min
  }

  /** The event is a change of a bound of an axis whose bounds are inverted. */
  predicate Corrects(b: Limits, index: int)
  {
    ((index == XMinChanged || index == XMaxChanged) && Inverted(b.x)) ||
    ((index == YMinChanged || index == YMaxChanged) && Inverted(b.y))
  }

  /** The spin-box values after `onChange(index)`. */
  function NextLimits(b: Limits, index: int): (r: Limits)
    ensures !Corrects(b, index) ==> r == b
    ensures index == Replot ==> r == b
    ensures index == XMaxChanged && Inverted(b.x) ==>
              r.x.min == b.x.min && r.x.max == b.x.min + 1.0 && r.y == b.y && !Inverted(r.x)
    ensures index == YMaxChanged && Inverted(b.y) ==>
              r.y.min == b.y.min && r.y.max == b.y.min + 1.0 && r.x == b.x && !Inverted(r.y)
    ensures index == XMinChanged && Inverted(b.x) ==>
              r.x.min == b.x.min && r.x.max == b.x.max - 1.0 && r.y == b.y && Inverted(r.x)
    ensures index == YMinChanged && Inverted(b.y) ==>
              r.y.min == b.y.min && r.y.max == b.y.max - 1.0 && r.x == b.x && Inverted(r.y)
  {
    if index == XMinChanged && Inverted(b.x) then b.(x := b.x.(max := b.x.max - 1.0))
    else if index == XMaxChanged && Inverted(b.x) then b.(x := b.x.(max := b.x.min + 1.0))
    else if index == YMinChanged && Inverted(b.y) then b.(y := b.y.(max := b.y.max - 1.0))
    else if index == YMaxChanged && Inverted(b.y) then b.(y := b.y.(max := b.y.min + 1.0))
    else b
  }

  /** What `onChange(index)` shows, given the limits before the call, the text of
      the function box, and how evaluating the rewritten expression ends (`None`
      when it yields values, `Some(m)` when it raises an exception with text `m`). */
  function Respond(b: Limits, index: int, text: string, evalError: Option<string>): (o: Outcome)
    ensures Corrects(b, index) ==>
              o.Error? &&
              o.title == (if index == XMinChanged || index == XMaxChanged then XLimitsError else YLimitsError) &&
              o.message == (if index == XMinChanged || index == YMinChanged then MinTooLarge else MaxTooSmall)
    ensures o.Plot? <==> index == Replot && FunctionInput.Convert(text).Success? && evalError.None?
    ensures o.Plot? ==> o == Plot(FunctionInput.Convert(text).code, b.x.min, b.x.max, b.y.min, b.y.max)
    ensures index == Replot && FunctionInput.Convert(text).Failure? ==>
              o == Error(FunctionError, FunctionInput.InvalidFunctionInput)
    ensures index == Replot && FunctionInput.Convert(text).Success? && evalError.Some? ==>
              o == Error(FunctionError, evalError.value)
    ensures o.NoOp? <==> !Corrects(b, index) && index != Replot
  {
    if index == XMinChanged && Inverted(b.x) then Error(XLimitsError, MinTooLarge)
    else if index == XMaxChanged && Inverted(b.x) then Error(XLimitsError, MaxTooSmall)
    else if index == YMinChanged && Inverted(b.y) then Error(YLimitsError, MinTooLarge)
    else if index == YMaxChanged && Inverted(b.y) then Error(YLimitsError, MaxTooSmall)
    else if index == Replot then
      match FunctionInput.Convert(text)
      case Failure(e) => Error(FunctionError, e.message)
      case Success(code) =>
        match evalError
        case Some(m) => Error(FunctionError, m)
        case None => Plot(code, b.x.min, b.x.max, b.y.min, b.y.max)
    else NoOp
  }

  /** With both axes in order, no event changes a bound or reports a limits error. */
  lemma OrderedLimitsAreStable(b: Limits, index: int, text: string, evalError: Option<string>)
    requires !Inverted(b.x) && !Inverted(b.y)
    ensures NextLimits(b, index) == b
    ensures Respond(b, index, text, evalError).Error? ==>
              Respond(b, index, text, evalError).title == FunctionError
  {
  }

  /** A correction made on a min event leaves max below min; a following max event
      on the same axis puts max at min + 1. */
  lemma MinCorrectionThenMaxEvent(b: Limits)
    requires Inverted(b.x)
    ensures Inverted(NextLimits(b, XMinChanged).x)
    ensures NextLimits(NextLimits(b, XMinChanged), XMaxChanged) == b.(x := Axis(b.x.min, b.x.min + 1.0))
  {
  }

  /** Setting both x bounds to 1 ends, on the max event, with max 2 and an error. */
  lemma EqualBoundsExample(y: Axis, text: string, evalError: Option<string>)
    ensures NextLimits(Limits(Axis(1.0, 1.0), y), XMaxChanged) == Limits(Axis(1.0, 2.0), y)
    ensures Respond(Limits(Axis(1.0, 1.0), y), XMaxChanged, text, evalError) == Error(XLimitsError, MaxTooSmall)
  {
  }

  class Plotter {
    var mn: real
    var mx: real
    var mnY: real
    var mxY: real
    /** The text of the function input box. */
    var functionText: string

    function Bounds(): Limits
      reads this
    {
      Limits(Axis(mn, mx), Axis(mnY, mxY))
    }

    /** The initial state: both axes at (-10, 10) and the function `x`. */
    constructor ()
      ensures Bounds() == Limits(Axis(-10.0, 10.0), Axis(-10.0, 10.0))
      ensures functionText == "x"
    {
      mn, mx := -10.0, 10.0;
      mnY, mxY := -10.0, 10.0;
      functionText := "x";
    }

    /** `self.function.setText(t)`: the text is stored as given. */
    method SetFunctionText(t: string)
      modifies this
      ensures functionText == t
      ensures Bounds() == old(Bounds())
    {
      functionText := t;
    }

    /** `onChange(index)`. A bound event on an inverted axis resets that axis's max
      and reports the error; the plot event converts the function text and either
      reports the failure or plots over the current limits; everything else does
      nothing. */
    method OnChange(index: int, evalError: Option<string>) returns (o: Outcome)
      modifies this
      ensures Bounds() == NextLimits(old(Bounds()), index)
      ensures functionText == old(functionText)
      ensures o == Respond(old(Bounds()), index, functionText, evalError)
    {
      if index == XMinChanged && mx <= mn {
        mx := mx - 1.0;
        return Error(XLimitsError, MinTooLarge);
      } else if index == XMaxChanged && mx <= mn {
        mx := mn + 1.0;
        return Error(XLimitsError, MaxTooSmall);
      }
      if index == YMinChanged && mxY <= mnY {
        mxY := mxY - 1.0;
        return Error(YLimitsError, MinTooLarge);
      } else if index == YMaxChanged && mxY <= mnY {
        mxY := mnY + 1.0;
        return Error(YLimitsError, MaxTooSmall);
      } else if index == Replot {
        var r := FunctionInput.ConvertStringToFunction(functionText);
        if r.Failure? {
          return Error(FunctionError, r.error.message);
        }
        if evalError.Some? {
          return Error(FunctionError, evalError.value);
        }
        return Plot(r.code, mn, mx, mnY, mxY);
      }
      return NoOp;
    }
  }
}
