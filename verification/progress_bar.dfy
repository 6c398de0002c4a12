/** The colour band of a progress bar. Progress is a JavaScript number,
    modelled as a real (`NaN` is not a value of this model). */
module ProgressBar {

  datatype Band = Warning | Accent | Success

  const WarningBelow: real := 30.0
  const AccentBelow: real := 70.0

  /** The CSS class of each band. */
  function ColorClass(b: Band): string {
    match b
    case Warning => "bg-warning"
    case Accent => "bg-accent"
    case Success => "bg-success"
  }

  /** `getColorClass`, as the band it picks. */
  function BandOf(progress: real): (b: Band)
    ensures b == Warning <==> progress < WarningBelow
    ensures b == Accent <==> WarningBelow <= progress < AccentBelow
    ensures b == Success <==> AccentBelow <= progress
  {
    if progress < WarningBelow then Warning
    else if progress < AccentBelow then Accent
    else Success
  }

  function GetColorClass(progress: real): string {
    ColorClass(BandOf(progress))
  }

  /** The bands in the order warning, accent, success. */
  function Rank(b: Band): (n: nat)
    ensures n < 3
  {
    match b
    case Warning => 0
    case Accent => 1
    case Success => 2
  }

  /** More progress never moves the bar to an earlier band. */
  lemma BandMonotone(p: real, q: real)
    requires p <= q
    ensures Rank(BandOf(p)) <= Rank(BandOf(q))
  {
  }

  /** Each band has its own class, so the class names the band. */
  lemma ClassNamesBand(p: real, q: real)
    ensures GetColorClass(p) == GetColorClass(q) <==> BandOf(p) == BandOf(q)
  {
  }

  /** The band boundaries belong to the upper band. */
  lemma Boundaries()
    ensures GetColorClass(29.5) == "bg-warning"
    ensures GetColorClass(30.0) == "bg-accent"
    ensures GetColorClass(70.0) == "bg-success"
  {
  }
}
