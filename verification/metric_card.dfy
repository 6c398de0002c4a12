/** The trend line of a dashboard metric card: its colour, its arrow and the
    percentage shown. The trend is a JavaScript number, modelled as a real. */
module MetricCard {

  const SuccessColor: string := "text-success"
  const ErrorColor: string := "text-error"
  const UpArrow: string := "\U{2197}"    // north-east arrow
  const DownArrow: string := "\U{2198}"  // south-east arrow

  /** What the card shows for a trend. */
  datatype TrendView = TrendView(color: string, icon: string, magnitude: real)

  /** A flat trend counts as positive. */
  predicate IsPositive(trend: real) {
    trend >= 0.0
  }

  /** `Math.abs`. */
  function Abs(x: real): (r: real)
    ensures r >= 0.0 && (r == x || r == -x)
  {
    if x < 0.0 then -x else x
  }

  function View(trend: real): (v: TrendView)
    ensures v.color == SuccessColor <==> IsPositive(trend)
    ensures v.color == ErrorColor <==> !IsPositive(trend)
    ensures v.icon == UpArrow <==> v.color == SuccessColor
    ensures v.icon == DownArrow <==> v.color == ErrorColor
    ensures v.magnitude >= 0.0
  {
    var positive := IsPositive(trend);
    TrendView(if positive then SuccessColor else ErrorColor,
              if positive then UpArrow else DownArrow,
              Abs(trend))
  }

  /** Reading a trend back off the card: the magnitude, negated under the
      falling arrow. */
  function Signed(v: TrendView): real {
    if v.icon == UpArrow then v.magnitude else -v.magnitude
  }

  /** The card loses no information about the trend. */
  lemma ViewRoundTrip(trend: real)
    ensures Signed(View(trend)) == trend
  {
  }

  lemma ZeroIsPositive()
    ensures View(0.0) == TrendView(SuccessColor, UpArrow, 0.0)
  {
  }
}
