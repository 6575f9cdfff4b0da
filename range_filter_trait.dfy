/**
 * The operator tokens and the value normalisers the range filter shares with
 * its ORM sibling. The trait that defines the normalisers is not part of this
 * model; the bodies below are the behaviour the filter relies on, stated as
 * an assumption: a bound is accepted when it is a numeric string
 * (`Numeric.ParseNumeric`), a `between` split when it has exactly two numeric
 * parts, and an operator map keeps only the five recognised operators, being
 * rejected as a whole when none is left.
 */
module RangeFilterTrait {
  import opened Options
  import opened Numeric

  const Between := "between"
  const GreaterThan := "gt"
  const GreaterThanOrEqual := "gte"
  const LessThan := "lt"
  const LessThanOrEqual := "lte"

  predicate IsOperator(op: string)
  {
    op == Between || op == GreaterThan || op == GreaterThanOrEqual || op == LessThan || op == LessThanOrEqual
  }

  /** One `operator => value` pair of a property's operator map. */
  datatype Entry = Entry(op: string, value: string)

  /** A single bound: its numeric value, or `None` when it is not numeric. */
  function NormalizeValue(value: string): (r: Option<real>)
    ensures r.Some? <==> IsNumeric(value)
  {
    ParseNumeric(value)
  }

  /** The two bounds of a `between` split, or `None` unless there are exactly two numeric parts. */
  function NormalizeBetweenValues(parts: seq<string>): (r: Option<(real, real)>)
    ensures r.Some? <==> |parts| == 2 && IsNumeric(parts[0]) && IsNumeric(parts[1])
    ensures r.Some? ==> Some(r.value.0) == ParseNumeric(parts[0]) && Some(r.value.1) == ParseNumeric(parts[1])
  {
    if |parts| != 2 then None
    else
      match (ParseNumeric(parts[0]), ParseNumeric(parts[1]))
      case (Some(lo), Some(hi)) => Some((lo, hi))
      case _ => None
  }

  /**
   * The entries whose operator is recognised. Their order is kept; what that
   * means for the stages is `RecognisedKeepsStages`.
   */
  function Recognised(entries: seq<Entry>): (r: seq<Entry>)
    ensures |r| <= |entries|
    ensures forall e :: e in r ==> e in entries && IsOperator(e.op)
    ensures forall e :: e in entries && IsOperator(e.op) ==> e in r
  {
    if |entries| == 0 then []
    else if IsOperator(entries[0].op) then [entries[0]] + Recognised(entries[1..])
    else Recognised(entries[1..])
  }

  /** The operator map without unknown operators, or `None` when nothing is left. */
  function NormalizeValues(entries: seq<Entry>): (r: Option<seq<Entry>>)
    ensures r.None? <==> forall e :: e in entries ==> !IsOperator(e.op)
    ensures r.Some? ==> r.value == Recognised(entries)
  {
    var kept := Recognised(entries);
    if |kept| == 0 then None
    else
      assert kept[0] in kept;
      Some(kept)
  }
}
