/**
 * The range filter of the MongoDB ODM backend: for every property of the
 * `range` query parameter it turns each `operator => value` pair into at most
 * one `$match` stage on the aggregation pipeline.
 *
 * `MatchFor` is the decision `addMatch` takes for one pair, `StagesOf`,
 * `PropertyStages` and `ApplyStages` what `filterProperty` and `apply` add in
 * all, and the class `RangeFilter` the imperative filter whose methods are
 * proved to add exactly those stages to a `Builder`.
 */
module MongoRangeFilter {
  import opened Options
  import Explode
  import opened Numeric
  import opened RangeFilterTrait
  import opened Aggregation

  /** The separator of the two bounds of a `between` value. */
  const BetweenSeparator := ".."

  predicate IsComparison(op: string)
  {
    op == GreaterThan || op == GreaterThanOrEqual || op == LessThan || op == LessThanOrEqual
  }

  /** What a comparison operator asks of a field value `d` against the bound `x`. */
  predicate Relation(op: string, d: real, x: real)
    requires IsComparison(op)
  {
    match op
    case "gt" => d > x
    case "gte" => d >= x
    case "lt" => d < x
    case "lte" => d <= x
  }

  predicate EndsWithDot(s: string)
  {
    |s| > 0 && s[|s| - 1] == '.'
  }

  /**
   * The stage `addMatch` adds for the pair `op => value` on `matchField`, if
   * any. Malformed values and unknown operators add nothing.
   */
  function MatchFor(matchField: string, op: string, value: string): (r: seq<Stage>)
    ensures |r| <= 1
    ensures forall st :: st in r ==> st.field == matchField
    ensures !IsOperator(op) ==> r == []
  {
    if op == Between then
      match NormalizeBetweenValues(Explode.Explode(BetweenSeparator, value))
      case None => []
      case Some((lo, hi)) => if lo == hi then [Eq(matchField, lo)] else [Range(matchField, lo, hi)]
    else if op == GreaterThan then
      match NormalizeValue(value)
      case None => []
      case Some(x) => [Gt(matchField, x)]
    else if op == GreaterThanOrEqual then
      match NormalizeValue(value)
      case None => []
      case Some(x) => [Gte(matchField, x)]
    else if op == LessThan then
      match NormalizeValue(value)
      case None => []
      case Some(x) => [Lt(matchField, x)]
    else if op == LessThanOrEqual then
      match NormalizeValue(value)
      case None => []
      case Some(x) => [Lte(matchField, x)]
    else
      []
  }

  /** The stages added for an operator map, entry by entry in map order. */
  function StagesOf(matchField: string, entries: seq<Entry>): (r: seq<Stage>)
    ensures |r| <= |entries|
    ensures forall st :: st in r ==> st.field == matchField
  {
    if |entries| == 0 then []
    else MatchFor(matchField, entries[0].op, entries[0].value) + StagesOf(matchField, entries[1..])
  }

  /**
   * The collaborators the filter consults about a property, for the resource
   * class at hand: whether the property is enabled, mapped and nested, the
   * field a nested property is matched on once its lookups are added, the
   * name converter's denormalisation of a query-parameter name, and the
   * stages the parent class's `apply` adds for the request's filters.
   */
  datatype Metadata = Metadata(
    enabled: string -> bool,
    mapped: string -> bool,
    nested: string -> bool,
    nestedMatchField: string -> string,
    denormalize: string -> string,
    parentStages: map<string, RangeParameter> -> seq<Stage>)

  /** The field the stages of `property` compare. */
  function MatchField(md: Metadata, property: string): (r: string)
    ensures !md.nested(property) ==> r == property
  {
    if md.nested(property) then md.nestedMatchField(property) else property
  }

  /** What one property of the `range` parameter holds: a plain value or an operator map. */
  datatype PropertyFilter = Scalar(text: string) | Operators(entries: seq<Entry>)

  /** The `range` parameter: anything but an array, or a list of property filters by name. */
  datatype RangeParameter = NotAnArray | Properties(props: seq<(string, PropertyFilter)>)

  /** `$context['filters'][$name] ?? null`, a missing parameter being no array either. */
  function RangeParameterOf(filters: map<string, RangeParameter>, name: string): RangeParameter
  {
    if name in filters then filters[name] else NotAnArray
  }

  /** The stages `filterProperty` adds for one property. */
  function PropertyStages(md: Metadata, property: string, values: PropertyFilter): (r: seq<Stage>)
    ensures forall st :: st in r ==> st.field == MatchField(md, property)
  {
    if !values.Operators? || !md.enabled(property) || !md.mapped(property) then []
    else
      match NormalizeValues(values.entries)
      case None => []
      case Some(ops) => StagesOf(MatchField(md, property), ops)
  }

  /** The stages `apply` adds for a list of property filters, property by property. */
  function ApplyStages(md: Metadata, props: seq<(string, PropertyFilter)>): (r: seq<Stage>)
    ensures forall st :: st in r ==>
      exists k :: 0 <= k < |props| && st.field == MatchField(md, md.denormalize(props[k].0))
  {
    if |props| == 0 then []
    else
      var first := PropertyStages(md, md.denormalize(props[0].0), props[0].1);
      var rest := ApplyStages(md, props[1..]);
      assert forall st :: st in rest ==>
        exists k :: 1 <= k < |props| && st.field == MatchField(md, md.denormalize(props[k].0)) by {
        forall st | st in rest
          ensures exists k :: 1 <= k < |props| && st.field == MatchField(md, md.denormalize(props[k].0))
        {
          var k :| 0 <= k < |props[1..]| && st.field == MatchField(md, md.denormalize(props[1..][k].0));
          assert props[1..][k] == props[k + 1];
        }
      }
      first + rest
  }

  // ---------------------------------------------------------------------------
  // Entries and properties are handled independently and in order.

  /** The stages of two operator maps one after the other are those of each, in order. */
  lemma {:induction false} StagesOfAppend(matchField: string, a: seq<Entry>, b: seq<Entry>)
    ensures StagesOf(matchField, a + b) == StagesOf(matchField, a) + StagesOf(matchField, b)
    decreases |a|
  {
    if |a| == 0 {
      assert a + b == b;
    } else {
      assert (a + b)[1..] == a[1..] + b;
      StagesOfAppend(matchField, a[1..], b);
    }
  }

  lemma PrefixSnoc<T>(s: seq<T>, i: nat)
    requires i < |s|
    ensures s[..i + 1] == s[..i] + [s[i]]
  {
  }

  /** One more entry of the map handled: its stages come after those of the entries before it. */
  lemma StagesOfPrefix(matchField: string, entries: seq<Entry>, i: nat)
    requires i < |entries|
    ensures StagesOf(matchField, entries[..i + 1]) ==
      StagesOf(matchField, entries[..i]) + MatchFor(matchField, entries[i].op, entries[i].value)
  {
    var e := entries[i];
    PrefixSnoc(entries, i);
    StagesOfAppend(matchField, entries[..i], [e]);
    assert [e][1..] == [];
  }

  /** The stages of a list of properties are those of each property, in order. */
  lemma {:induction false} ApplyStagesAppend(md: Metadata, a: seq<(string, PropertyFilter)>, b: seq<(string, PropertyFilter)>)
    ensures ApplyStages(md, a + b) == ApplyStages(md, a) + ApplyStages(md, b)
    decreases |a|
  {
    if |a| == 0 {
      assert a + b == b;
    } else {
      assert (a + b)[1..] == a[1..] + b;
      ApplyStagesAppend(md, a[1..], b);
    }
  }

  /** One more property handled: its stages come after those of the properties before it. */
  lemma ApplyStagesPrefix(md: Metadata, props: seq<(string, PropertyFilter)>, i: nat)
    requires i < |props|
    ensures ApplyStages(md, props[..i + 1]) ==
      ApplyStages(md, props[..i]) + PropertyStages(md, md.denormalize(props[i].0), props[i].1)
  {
    var p := props[i];
    PrefixSnoc(props, i);
    ApplyStagesAppend(md, props[..i], [p]);
    assert [p][1..] == [];
  }

  /** Dropping the unknown operators first changes nothing about the stages. */
  lemma {:induction false} RecognisedKeepsStages(matchField: string, entries: seq<Entry>)
    ensures StagesOf(matchField, Recognised(entries)) == StagesOf(matchField, entries)
    decreases |entries|
  {
    if |entries| > 0 {
      RecognisedKeepsStages(matchField, entries[1..]);
      if IsOperator(entries[0].op) {
        var kept := [entries[0]] + Recognised(entries[1..]);
        assert kept[1..] == Recognised(entries[1..]);
      }
    }
  }

  /**
   * A property adds nothing unless its value is an operator map and it is
   * enabled and mapped; otherwise it adds the stages of its entries, in
   * order, on its match field. The operator map being rejected as a whole
   * when it holds no known operator is the same as adding nothing.
   */
  lemma PropertyStagesPerEntry(md: Metadata, property: string, values: PropertyFilter)
    ensures PropertyStages(md, property, values) ==
      if values.Operators? && md.enabled(property) && md.mapped(property)
      then StagesOf(MatchField(md, property), values.entries)
      else []
  {
    if values.Operators? {
      RecognisedKeepsStages(MatchField(md, property), values.entries);
    }
  }

  // ---------------------------------------------------------------------------
  // `between`

  /** No decimal point is followed by another one: `..` does not occur. */
  lemma NoAdjacentDotsFree(s: string)
    requires NoAdjacentDots(s)
    ensures Explode.Free(BetweenSeparator, s)
  {
    forall j | 0 <= j <= |s| ensures !Explode.OccursAt(BetweenSeparator, s, j) {
      if j + 2 <= |s| {
        assert s[j..j + 2][0] == s[j] && s[j..j + 2][1] == s[j + 1];
      }
    }
  }

  /**
   * `a..b` splits into `a` and `b` when neither holds `..` and `a` does not
   * end with a decimal point.
   */
  lemma SplitAtFirstSeparator(a: string, b: string)
    requires Explode.Free(BetweenSeparator, a) && Explode.Free(BetweenSeparator, b) && !EndsWithDot(a)
    ensures Explode.Explode(BetweenSeparator, a + BetweenSeparator + b) == [a, b]
  {
    var s := a + BetweenSeparator + b;
    forall j | j < |a| ensures !Explode.OccursAt(BetweenSeparator, s, j) {
      if 0 <= j && j + 2 <= |a| {
        assert s[j..j + 2] == a[j..j + 2];
        assert !Explode.OccursAt(BetweenSeparator, a, j);
      } else if 0 <= j && j == |a| - 1 {
        assert s[j..j + 2][0] == a[|a| - 1];
      }
    }
    Explode.ExplodePair(BetweenSeparator, a, b);
  }

  /**
   * `a..b` with numeric `a` and `b` splits into `a` and `b`, provided `a`
   * does not end with a decimal point (`1...2` splits as `1` and `.2`).
   */
  lemma SplitNumericPair(a: string, b: string)
    requires IsNumeric(a) && IsNumeric(b) && !EndsWithDot(a)
    ensures Explode.Explode(BetweenSeparator, a + BetweenSeparator + b) == [a, b]
  {
    NumericShape(a);
    NumericShape(b);
    NoAdjacentDotsFree(a);
    NoAdjacentDotsFree(b);
    SplitAtFirstSeparator(a, b);
  }

  /**
   * `between` with `a..b`, both numeric: one stage on the match field, an
   * equality when the bounds are equal, a range `a <= field <= b` otherwise.
   */
  lemma BetweenOfNumerals(matchField: string, a: string, b: string)
    requires IsNumeric(a) && IsNumeric(b) && !EndsWithDot(a)
    ensures
      var lo, hi := ParseNumeric(a).value, ParseNumeric(b).value;
      MatchFor(matchField, Between, a + BetweenSeparator + b) ==
        if lo == hi then [Eq(matchField, lo)] else [Range(matchField, lo, hi)]
  {
    SplitNumericPair(a, b);
  }

  /**
   * Conversely, `between` adds a stage only for a value of the form `a..b`
   * with `a` and `b` numeric and `a` not ending with a decimal point: the
   * two parts of the split.
   */
  lemma BetweenAcceptsOnlyNumericPairs(matchField: string, value: string)
    requires MatchFor(matchField, Between, value) != []
    ensures
      var parts := Explode.Explode(BetweenSeparator, value);
      && |parts| == 2
      && value == parts[0] + BetweenSeparator + parts[1]
      && IsNumeric(parts[0]) && IsNumeric(parts[1])
      && !EndsWithDot(parts[0])
  {
    var parts := Explode.Explode(BetweenSeparator, value);
    assert NormalizeBetweenValues(parts).Some?;
    Explode.ExplodeTwo(BetweenSeparator, value);
    Explode.ExplodeFirstPart(BetweenSeparator, value);
    FirstOccurrenceAfterNoDot(value, |parts[0]|);
  }

  /** The character before the first `..` is no decimal point. */
  lemma FirstOccurrenceAfterNoDot(s: string, k: nat)
    requires Explode.OccursAt(BetweenSeparator, s, k)
    requires forall j :: j < k ==> !Explode.OccursAt(BetweenSeparator, s, j)
    ensures !EndsWithDot(s[..k])
  {
    if k > 0 {
      assert !Explode.OccursAt(BetweenSeparator, s, k - 1);
      assert s[k..k + 2][0] == s[k];
      assert s[k - 1..k + 1] == [s[k - 1], s[k]];
    }
  }

  /** `between` without `..` (too few operands) adds nothing. */
  lemma BetweenTooFewOperands(matchField: string, value: string)
    requires Explode.Free(BetweenSeparator, value)
    ensures MatchFor(matchField, Between, value) == []
  {
    Explode.ExplodeSingle(BetweenSeparator, value);
  }

  /** `between` with two separate `..` (too many operands, `1..2..3`) adds nothing. */
  lemma BetweenTooManyOperands(matchField: string, value: string, i: int, j: int)
    requires Explode.OccursAt(BetweenSeparator, value, i)
    requires Explode.OccursAt(BetweenSeparator, value, j) && i + |BetweenSeparator| <= j
    ensures MatchFor(matchField, Between, value) == []
  {
    Explode.ExplodeAtLeastThree(BetweenSeparator, value, i, j);
  }

  /** `between` with `a..b` where one bound is not numeric (`abc..10`) adds nothing. */
  lemma BetweenNonNumericOperands(matchField: string, a: string, b: string)
    requires Explode.Free(BetweenSeparator, a) && Explode.Free(BetweenSeparator, b) && !EndsWithDot(a)
    requires !IsNumeric(a) || !IsNumeric(b)
    ensures MatchFor(matchField, Between, a + BetweenSeparator + b) == []
  {
    SplitAtFirstSeparator(a, b);
  }

  /**
   * The stage `between` adds for `a..b` selects exactly the documents whose
   * field lies between the two bounds, inclusive: collapsing equal bounds
   * to an equality loses nothing.
   */
  lemma BetweenSelects(matchField: string, a: string, b: string, doc: Document)
    requires IsNumeric(a) && IsNumeric(b) && !EndsWithDot(a)
    requires matchField in doc
    ensures
      var lo, hi := ParseNumeric(a).value, ParseNumeric(b).value;
      Passes(doc, MatchFor(matchField, Between, a + BetweenSeparator + b)) <==> lo <= doc[matchField] <= hi
  {
    BetweenOfNumerals(matchField, a, b);
    var lo, hi := ParseNumeric(a).value, ParseNumeric(b).value;
    var stages := MatchFor(matchField, Between, a + BetweenSeparator + b);
    assert |stages| == 1 && (Passes(doc, stages) <==> Holds(doc, stages[0]));
  }

  /** `between` on two integers written out in decimal. */
  lemma BetweenOfIntegers(matchField: string, lo: int, hi: int)
    ensures MatchFor(matchField, Between, IntToString(lo) + BetweenSeparator + IntToString(hi)) ==
      if lo == hi then [Eq(matchField, lo as real)] else [Range(matchField, lo as real, hi as real)]
  {
    NumeralRoundTrip(lo);
    NumeralRoundTrip(hi);
    BetweenOfNumerals(matchField, IntToString(lo), IntToString(hi));
  }

  // ---------------------------------------------------------------------------
  // `gt`, `gte`, `lt`, `lte`

  /**
   * A comparison operator adds nothing for a non-numeric value, and for a
   * numeric one exactly one stage, which selects the documents whose field
   * is in the operator's relation to the value.
   */
  lemma ComparisonSelects(matchField: string, op: string, value: string, doc: Document)
    requires IsComparison(op)
    requires matchField in doc
    ensures MatchFor(matchField, op, value) == [] <==> !IsNumeric(value)
    ensures IsNumeric(value) ==>
      && |MatchFor(matchField, op, value)| == 1
      && (Passes(doc, MatchFor(matchField, op, value)) <==> Relation(op, doc[matchField], ParseNumeric(value).value))
  {
  }

  /** `gte` then `lte` on integers adds the two comparisons in that order, which together select the closed interval. */
  lemma GteThenLte(md: Metadata, property: string, lo: int, hi: int, doc: Document)
    requires md.enabled(property) && md.mapped(property)
    requires MatchField(md, property) in doc
    ensures
      var f := MatchField(md, property);
      var values := Operators([Entry(GreaterThanOrEqual, IntToString(lo)), Entry(LessThanOrEqual, IntToString(hi))]);
      && PropertyStages(md, property, values) == [Gte(f, lo as real), Lte(f, hi as real)]
      && (Passes(doc, PropertyStages(md, property, values)) <==> lo as real <= doc[f] <= hi as real)
  {
    var f := MatchField(md, property);
    GteThenLteStages(md, property, lo, hi);
    PassesTwo(doc, Gte(f, lo as real), Lte(f, hi as real));
  }

  lemma GteThenLteStages(md: Metadata, property: string, lo: int, hi: int)
    requires md.enabled(property) && md.mapped(property)
    ensures
      var values := Operators([Entry(GreaterThanOrEqual, IntToString(lo)), Entry(LessThanOrEqual, IntToString(hi))]);
      PropertyStages(md, property, values) == [Gte(MatchField(md, property), lo as real), Lte(MatchField(md, property), hi as real)]
  {
    var entries := [Entry(GreaterThanOrEqual, IntToString(lo)), Entry(LessThanOrEqual, IntToString(hi))];
    NumeralRoundTrip(lo);
    NumeralRoundTrip(hi);
    PropertyStagesPerEntry(md, property, Operators(entries));
    StagesOfGteLte(MatchField(md, property), IntToString(lo), IntToString(hi));
  }

  lemma StagesOfGteLte(f: string, a: string, b: string)
    requires IsNumeric(a) && IsNumeric(b)
    ensures StagesOf(f, [Entry(GreaterThanOrEqual, a), Entry(LessThanOrEqual, b)]) ==
      [Gte(f, ParseNumeric(a).value), Lte(f, ParseNumeric(b).value)]
  {
    var entries := [Entry(GreaterThanOrEqual, a), Entry(LessThanOrEqual, b)];
    assert entries[1..][1..] == [];
  }

  /** A pipeline that held the stages of the first `i` entries holds those of `i + 1` once entry `i` is added. */
  lemma StagesOfStep(start: seq<Stage>, before: seq<Stage>, after: seq<Stage>, matchField: string, entries: seq<Entry>, i: nat)
    requires i < |entries|
    requires before == start + StagesOf(matchField, entries[..i])
    requires after == before + MatchFor(matchField, entries[i].op, entries[i].value)
    ensures after == start + StagesOf(matchField, entries[..i + 1])
  {
    StagesOfPrefix(matchField, entries, i);
    AppendAssociative(start, StagesOf(matchField, entries[..i]), MatchFor(matchField, entries[i].op, entries[i].value));
  }

  /** A pipeline that held the stages of the first `i` properties holds those of `i + 1` once property `i` is added. */
  lemma ApplyStagesStep(start: seq<Stage>, before: seq<Stage>, after: seq<Stage>, md: Metadata, props: seq<(string, PropertyFilter)>, i: nat)
    requires i < |props|
    requires before == start + ApplyStages(md, props[..i])
    requires after == before + PropertyStages(md, md.denormalize(props[i].0), props[i].1)
    ensures after == start + ApplyStages(md, props[..i + 1])
  {
    ApplyStagesPrefix(md, props, i);
    AppendAssociative(start, ApplyStages(md, props[..i]), PropertyStages(md, md.denormalize(props[i].0), props[i].1));
  }

  lemma AppendAssociative(a: seq<Stage>, b: seq<Stage>, c: seq<Stage>)
    ensures a + (b + c) == (a + b) + c
  {
  }

  // ---------------------------------------------------------------------------
  // The filter as the source runs it: stages added to a builder one by one.

  /** The part of the request context the filter reads and writes. */
  class Context {
    const filters: map<string, RangeParameter>
    var rangeDeprecatedSyntax: bool

    constructor (filters: map<string, RangeParameter>)
      ensures this.filters == filters && !rangeDeprecatedSyntax
    {
      this.filters := filters;
      rangeDeprecatedSyntax := false;
    }
  }

  class RangeFilter {
    const metadata: Metadata
    const rangeParameterName: string

    constructor (metadata: Metadata, rangeParameterName: string)
      ensures this.metadata == metadata && this.rangeParameterName == rangeParameterName
    {
      this.metadata := metadata;
      this.rangeParameterName := rangeParameterName;
    }

    /** Adds the stage for `op => value` on `matchField`, if any. */
    method AddMatch(builder: Builder, field: string, matchField: string, op: string, value: string)
      modifies builder
      ensures builder.stages == old(builder.stages) + MatchFor(matchField, op, value)
    {
      if op == Between {
        var rangeValue := NormalizeBetweenValues(Explode.Explode(BetweenSeparator, value));
        if rangeValue.None? {
          return;
        }
        if rangeValue.value.0 == rangeValue.value.1 {
          builder.Match(Eq(matchField, rangeValue.value.0));
          return;
        }
        builder.Match(Range(matchField, rangeValue.value.0, rangeValue.value.1));
      } else if op == GreaterThan {
        var x := NormalizeValue(value);
        if x.None? {
          return;
        }
        builder.Match(Gt(matchField, x.value));
      } else if op == GreaterThanOrEqual {
        var x := NormalizeValue(value);
        if x.None? {
          return;
        }
        builder.Match(Gte(matchField, x.value));
      } else if op == LessThan {
        var x := NormalizeValue(value);
        if x.None? {
          return;
        }
        builder.Match(Lt(matchField, x.value));
      } else if op == LessThanOrEqual {
        var x := NormalizeValue(value);
        if x.None? {
          return;
        }
        builder.Match(Lte(matchField, x.value));
      }
    }

    /** Adds the stages for one property's filter, entry by entry. */
    method FilterProperty(property: string, values: PropertyFilter, builder: Builder)
      modifies builder
      ensures builder.stages == old(builder.stages) + PropertyStages(metadata, property, values)
    {
      if !values.Operators? || !metadata.enabled(property) || !metadata.mapped(property) {
        return;
      }
      var normalized := NormalizeValues(values.entries);
      if normalized.None? {
        return;
      }
      var ops := normalized.value;
      var field := property;
      var matchField := property;
      if metadata.nested(property) {
        matchField := metadata.nestedMatchField(property);
      }
      var i := 0;
      while i < |ops|
        invariant 0 <= i <= |ops|
        invariant builder.stages == old(builder.stages) + StagesOf(matchField, ops[..i])
      {
        ghost var before := builder.stages;
        AddMatch(builder, field, matchField, ops[i].op, ops[i].value);
        StagesOfStep(old(builder.stages), before, builder.stages, matchField, ops, i);
        i := i + 1;
      }
      assert ops[..i] == ops;
    }

    /** `parent::apply`: appends whatever stages the parent class adds for the filters. */
    method ParentApply(builder: Builder, context: Context)
      modifies builder
      ensures builder.stages == old(builder.stages) + metadata.parentStages(context.filters)
    {
      builder.stages := builder.stages + metadata.parentStages(context.filters);
    }

    /**
     * Flags the deprecated syntax and hands over to the parent class when the
     * `range` parameter is not an array; otherwise adds the stages of every
     * property, in order.
     */
    method Apply(builder: Builder, context: Context)
      modifies builder, context
      ensures
        var param := RangeParameterOf(context.filters, rangeParameterName);
        if param.NotAnArray? then
          && context.rangeDeprecatedSyntax
          && builder.stages == old(builder.stages) + metadata.parentStages(context.filters)
        else
          && context.rangeDeprecatedSyntax == old(context.rangeDeprecatedSyntax)
          && builder.stages == old(builder.stages) + ApplyStages(metadata, param.props)
    {
      var param := RangeParameterOf(context.filters, rangeParameterName);
      if param.NotAnArray? {
        context.rangeDeprecatedSyntax := true;
        ParentApply(builder, context);
        return;
      }
      var props := param.props;
      var i := 0;
      while i < |props|
        invariant 0 <= i <= |props|
        invariant context.rangeDeprecatedSyntax == old(context.rangeDeprecatedSyntax)
        invariant builder.stages == old(builder.stages) + ApplyStages(metadata, props[..i])
      {
        ghost var before := builder.stages;
        FilterProperty(metadata.denormalize(props[i].0), props[i].1, builder);
        ApplyStagesStep(old(builder.stages), before, builder.stages, metadata, props, i);
        i := i + 1;
      }
      assert props[..i] == props;
    }
  }
}
