/** Classification policy: the four EAQI tiers, as a label and as a marker
    colour. Both views split the real line at the same two thresholds. */
module Eaqi {
  import opened Wrappers

  /** Upper bound (inclusive) of the "Bon" tier. */
  const GoodMax: real := 40.0
  /** Upper bound (inclusive) of the "Moyen" tier. */
  const MediumMax: real := 80.0

  const LabelUnknown: string := "Inconnu"
  const LabelGood: string := "Bon"
  const LabelMedium: string := "Moyen"
  const LabelBad: string := "Mauvais"

  const ColorGood: string := "#0078FF"
  const ColorMedium: string := "#FFA500"
  const ColorBad: string := "#DC143C"
  const ColorUnknown: string := "#A0A0A0"

  /** `eaqi_label`: the tier name of an AQI value; `None` is NaN. */
  function Label(v: Option<real>): (r: string)
    ensures r == LabelUnknown <==> v.None?
    ensures r == LabelGood <==> v.Some? && v.value <= GoodMax
    ensures r == LabelMedium <==> v.Some? && GoodMax < v.value <= MediumMax
    ensures r == LabelBad <==> v.Some? && MediumMax < v.value
  {
    if v.None? then LabelUnknown
    else if v.value <= GoodMax then LabelGood
    else if v.value <= MediumMax then LabelMedium
    else LabelBad
  }

  /** `eaqi_color`: the marker colour of an AQI value; `None` is NaN. */
  function Color(v: Option<real>): (r: string)
    ensures r == ColorUnknown <==> v.None?
    ensures r == ColorGood <==> v.Some? && v.value <= GoodMax
    ensures r == ColorMedium <==> v.Some? && GoodMax < v.value <= MediumMax
    ensures r == ColorBad <==> v.Some? && MediumMax < v.value
  {
    if v.None? then ColorUnknown
    else if v.value <= GoodMax then ColorGood
    else if v.value <= MediumMax then ColorMedium
    else ColorBad
  }

  /** The legend: which colour is drawn beside which tier name. */
  function LegendColor(tier: string): string {
    if tier == LabelGood then ColorGood
    else if tier == LabelMedium then ColorMedium
    else if tier == LabelBad then ColorBad
    else ColorUnknown
  }

  /** The colour of a value is the legend colour of its label. */
  lemma ColorFollowsLabel(v: Option<real>)
    ensures Color(v) == LegendColor(Label(v))
  {
  }

  /** Label and colour are two views of one partition: two values share a
      label exactly when they share a colour. */
  lemma SamePartition(v: Option<real>, w: Option<real>)
    ensures Label(v) == Label(w) <==> Color(v) == Color(w)
  {
  }

  /** How bad a tier is; the unknown tier is not ranked. */
  function Severity(tier: string): int {
    if tier == LabelGood then 0
    else if tier == LabelMedium then 1
    else if tier == LabelBad then 2
    else -1
  }

  /** A higher AQI never yields a better tier. */
  lemma LabelMonotone(x: real, y: real)
    requires x <= y
    ensures 0 <= Severity(Label(Some(x))) <= Severity(Label(Some(y)))
  {
  }

  /** The boundary cases: both thresholds belong to the lower tier. */
  lemma Boundaries()
    ensures Label(Some(40.0)) == "Bon" && Color(Some(40.0)) == "#0078FF"
    ensures Label(Some(40.0001)) == "Moyen" && Color(Some(40.0001)) == "#FFA500"
    ensures Label(Some(80.0)) == "Moyen" && Color(Some(80.0)) == "#FFA500"
    ensures Label(Some(80.0001)) == "Mauvais" && Color(Some(80.0001)) == "#DC143C"
    ensures Label(Some(0.0)) == "Bon" && Label(Some(-5.0)) == "Bon"
    ensures Label(None) == "Inconnu" && Color(None) == "#A0A0A0"
  {
  }
}
