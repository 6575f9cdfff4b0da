# Range filter for the MongoDB ODM backend, modelled in Dafny

API Platform's `RangeFilter` for Doctrine MongoDB ODM reads the `range` query
parameter, for example `range[price][between]=10..20` or
`range[price][gte]=10&range[price][lte]=20`. It turns every
`operator => value` pair of every property into at most one `$match` stage on
the aggregation pipeline. Five operators are recognised: `between`, `gt`,
`gte`, `lt` and `lte`. A `between` value is cut at every `..`, in the way PHP's
`explode` does it. It must give exactly two numeric bounds. When the two bounds
are equal, the range collapses to an equality. A malformed string value adds
nothing, and the other pairs of the same property still apply. An operator
whose value is an array is not skipped: it reaches `addMatch`, whose `string`
parameter then raises a `TypeError` (see "## Left out").

The model has these parts:

- `Explode` (explode.dfy): PHP's `explode` for a non-empty separator, with `Join`.
  The lemmas say how many parts come back and what they hold, and that
  joining the parts gives the input back.
- `Numeric` (numeric.dfy): the numeric-string test and the coercion
  `$value + 0` that the normalisers apply. This is a strict base-10
  recogniser with an exact `real` value, and an assumption (see below).
- `RangeFilterTrait` (range_filter_trait.dfy): the operator tokens and the
  normalisers `normalizeValue`, `normalizeBetweenValues` and `normalizeValues`.
  They come from a trait that is not part of this model, so their bodies here
  are an assumption.
- `Aggregation` (aggregation.dfy): a `$match` stage as a datatype, and what a
  pipeline of such stages selects from a document. The aggregation builder is
  a class that only ever appends stages.
- `MongoRangeFilter` (range_filter.dfy): the decision `addMatch` takes for one
  pair (`MatchFor`) and the stages that `filterProperty` and `apply` add in all
  (`StagesOf`, `PropertyStages`, `ApplyStages`). The class `RangeFilter` holds
  the methods `AddMatch`, `FilterProperty` and `Apply`. Each is proved to
  append exactly those stages to a `Builder`. `Apply` also sets the
  deprecated-syntax flag on a `Context` and hands over to the parent class
  when the `range` parameter is not an array.

The collaborators are the `Metadata` datatype: whether a property is enabled,
mapped and nested, the match field the nested-property lookups produce, the
name converter, and the stages the parent class's `apply` adds. Each is a
function parameter about which nothing is assumed.
The resource class and the operation name are folded into these functions.

Two behaviours of the code are worth stating outright:

- `between` with `a..b` does not always give `a <= field <= b` for numeric
  `a` and `b`. `explode` cuts at the first `..`, so when `a` ends with a
  decimal point, `1...2` splits as `1` and `.2` (a range from 1 to 0.2), and
  `1...-2` adds nothing. The lemmas about `a..b` therefore require that `a`
  does not end with `.`. `BetweenAcceptsOnlyNumericPairs` shows that no other
  shape adds a stage.
- When the `range` parameter is missing or is not an array, this file only
  sets `range_deprecated_syntax` and hands the builder and the context over to
  the parent class's `apply`. A plain (non-array) property value inside
  `range` is skipped by `filterProperty`'s `is_array` guard.

## Model

| member | source | states |
|---|---|---|
| `Explode.Explode` | src/Bridge/Doctrine/MongoDbOdm/Filter/RangeFilter.php:101 | `explode('..', $value)` always returns at least one part |
| `Explode.JoinExplode` | src/Bridge/Doctrine/MongoDbOdm/Filter/RangeFilter.php:101 | joining the parts of `explode` with the separator gives the value back |
| `Explode.ExplodeFree` | src/Bridge/Doctrine/MongoDbOdm/Filter/RangeFilter.php:101 | no part of the split contains the separator |
| `Explode.ExplodeSingle` | src/Bridge/Doctrine/MongoDbOdm/Filter/RangeFilter.php:101 | the value comes back as one part exactly when `..` does not occur in it |
| `Explode.ExplodePair` | src/Bridge/Doctrine/MongoDbOdm/Filter/RangeFilter.php:101 | `a..b` comes back as `[a, b]` when the first `..` is the one between them and `b` holds none |
| `Explode.ExplodeAtLeastThree` | src/Bridge/Doctrine/MongoDbOdm/Filter/RangeFilter.php:101 | two non-overlapping occurrences of `..` give at least three parts |
| `Explode.ExplodeFirstPart` | src/Bridge/Doctrine/MongoDbOdm/Filter/RangeFilter.php:101 | with two parts or more, the first part is the prefix before the first occurrence of `..` |
| `Explode.ExplodeTwo` | src/Bridge/Doctrine/MongoDbOdm/Filter/RangeFilter.php:101 | a value split into two parts is the first part, `..` and the second part |
| `Numeric.NumeralRoundTrip` | src/Bridge/Doctrine/MongoDbOdm/Filter/RangeFilter.php:118-121 | every integer written in decimal is numeric and normalises to that integer; it does not end with `.` |
| `Numeric.NumericShape` | src/Bridge/Doctrine/MongoDbOdm/Filter/RangeFilter.php:103-106 | a numeric bound is non-empty, holds only digits, signs, points and exponent letters, and never `..` |
| `RangeFilterTrait.Recognised` | src/Bridge/Doctrine/MongoDbOdm/Filter/RangeFilter.php:72 | keeps exactly the entries whose operator is one of the five tokens |
| `RangeFilterTrait.NormalizeValues` | src/Bridge/Doctrine/MongoDbOdm/Filter/RangeFilter.php:72-75 | the operator map is rejected exactly when it holds no recognised operator; otherwise only the recognised entries are kept |
| `MongoRangeFilter.MatchFor` | src/Bridge/Doctrine/MongoDbOdm/Filter/RangeFilter.php:99-153 | one pair adds at most one stage, always on `matchField`; an unknown operator adds nothing, because the switch has no default branch |
| `MongoRangeFilter.BetweenOfNumerals` | src/Bridge/Doctrine/MongoDbOdm/Filter/RangeFilter.php:100-116 | `between` with `a..b`, both numeric: an equality stage when the bounds are equal, else a single range stage `gte lo` and `lte hi` |
| `MongoRangeFilter.BetweenAcceptsOnlyNumericPairs` | src/Bridge/Doctrine/MongoDbOdm/Filter/RangeFilter.php:101-106 | `between` adds a stage only when the value is `a..b` with both parts numeric and `a` not ending with `.` |
| `MongoRangeFilter.BetweenTooFewOperands` | src/Bridge/Doctrine/MongoDbOdm/Filter/RangeFilter.php:101-106 | `between` without `..` adds nothing |
| `MongoRangeFilter.BetweenTooManyOperands` | src/Bridge/Doctrine/MongoDbOdm/Filter/RangeFilter.php:101-106 | `between` with two separate `..` (`1..2..3`) adds nothing |
| `MongoRangeFilter.BetweenNonNumericOperands` | src/Bridge/Doctrine/MongoDbOdm/Filter/RangeFilter.php:103-106 | `between` with `a..b` where a bound is not numeric (`abc..10`) adds nothing |
| `MongoRangeFilter.SplitNumericPair` | src/Bridge/Doctrine/MongoDbOdm/Filter/RangeFilter.php:101 | `a..b` with numeric `a`, `b` and `a` not ending with `.` splits into exactly `a` and `b` |
| `MongoRangeFilter.BetweenSelects` | src/Bridge/Doctrine/MongoDbOdm/Filter/RangeFilter.php:108-114 | the stage for `a..b` selects exactly the documents with `lo <= field <= hi`, so collapsing equal bounds to an equality loses nothing |
| `MongoRangeFilter.BetweenOfIntegers` | src/Bridge/Doctrine/MongoDbOdm/Filter/RangeFilter.php:100-116 | `between` on two integers in decimal gives an equality when they are equal and a range otherwise |
| `MongoRangeFilter.ComparisonSelects` | src/Bridge/Doctrine/MongoDbOdm/Filter/RangeFilter.php:117-152 | `gt`, `gte`, `lt` and `lte` add nothing exactly when the value is not numeric; otherwise they add one stage that selects the documents in the operator's relation to the value |
| `MongoRangeFilter.StagesOf` | src/Bridge/Doctrine/MongoDbOdm/Filter/RangeFilter.php:83-91 | an operator map adds at most one stage per entry, all on `matchField` |
| `MongoRangeFilter.StagesOfAppend` | src/Bridge/Doctrine/MongoDbOdm/Filter/RangeFilter.php:83-91 | entries are handled independently and in map order: the stages of two maps in a row are those of each, in order |
| `MongoRangeFilter.StagesOfPrefix` | src/Bridge/Doctrine/MongoDbOdm/Filter/RangeFilter.php:83-91 | handling one more entry appends that entry's stages after those of the entries before it |
| `MongoRangeFilter.RecognisedKeepsStages` | src/Bridge/Doctrine/MongoDbOdm/Filter/RangeFilter.php:72-75 | dropping the unknown operators first does not change the stages added |
| `MongoRangeFilter.MatchField` | src/Bridge/Doctrine/MongoDbOdm/Filter/RangeFilter.php:77-81 | the match field is the property name unless the property is nested |
| `MongoRangeFilter.PropertyStages` | src/Bridge/Doctrine/MongoDbOdm/Filter/RangeFilter.php:77-91 | every stage added for a property is on that property's match field |
| `MongoRangeFilter.PropertyStagesPerEntry` | src/Bridge/Doctrine/MongoDbOdm/Filter/RangeFilter.php:64-91 | a property adds nothing unless its value is an array and it is enabled and mapped; otherwise it adds the stages of its entries, in order |
| `MongoRangeFilter.GteThenLte` | src/Bridge/Doctrine/MongoDbOdm/Filter/RangeFilter.php:83-91 | `gte` then `lte` add two stages in that order, which together select the closed interval |
| `MongoRangeFilter.ApplyStages` | src/Bridge/Doctrine/MongoDbOdm/Filter/RangeFilter.php:54-56 | every stage `apply` adds is on the match field of some property's denormalised name |
| `MongoRangeFilter.ApplyStagesAppend` | src/Bridge/Doctrine/MongoDbOdm/Filter/RangeFilter.php:54-56 | properties are handled independently and in order |
| `MongoRangeFilter.ApplyStagesPrefix` | src/Bridge/Doctrine/MongoDbOdm/Filter/RangeFilter.php:54-56 | handling one more property appends its stages after those of the properties before it |
| `MongoRangeFilter.RangeFilter.AddMatch` | src/Bridge/Doctrine/MongoDbOdm/Filter/RangeFilter.php:97-154 | appends exactly the stage `MatchFor` gives, or nothing |
| `MongoRangeFilter.RangeFilter.FilterProperty` | src/Bridge/Doctrine/MongoDbOdm/Filter/RangeFilter.php:62-92 | appends exactly `PropertyStages` for the property, entry by entry |
| `MongoRangeFilter.RangeFilter.ParentApply` | src/Bridge/Doctrine/MongoDbOdm/Filter/RangeFilter.php:49 | the hand-over to the parent class appends the stages that collaborator gives for the request's filters, and nothing else |
| `MongoRangeFilter.RangeFilter.Apply` | src/Bridge/Doctrine/MongoDbOdm/Filter/RangeFilter.php:45-57 | when the `range` parameter is missing or not an array, sets `range_deprecated_syntax` and appends exactly what the parent class adds; otherwise leaves the flag alone and appends `ApplyStages` |
| `Aggregation.Builder.Match` | src/Bridge/Doctrine/MongoDbOdm/Filter/RangeFilter.php:109 | adding a match stage appends it to the pipeline and changes nothing else |

## Left out

- The normalisers `normalizeValue`, `normalizeBetweenValues` and `normalizeValues` live in a trait that is not part of this model. Their bodies here are an assumption, based on how the filter uses them. The assumed behaviour: a numeric test plus coercion, exactly two numeric parts for `between`, and dropping unknown operators with the whole map rejected when none is left. The notices they log are not modelled.
- `RangeFilterTrait.NormalizeValue`: an assumed stand-in for `normalizeValue`. Its contract only names the numeric test it is built on; what follows from it is proved in `ComparisonSelects` and `NumeralRoundTrip`.
- `RangeFilterTrait.NormalizeBetweenValues`: an assumed stand-in for `normalizeBetweenValues`. Its contract only names the two-numeric-parts test it is built on; what follows from it is proved in `BetweenOfNumerals` and `BetweenAcceptsOnlyNumericPairs`.
- `Numeric.NumeralRoundTrip`: the numeric test is strict base-10 (sign, digits, one point, exponent). PHP's `is_numeric` also accepts leading whitespace, and that is not modelled.
- `MongoRangeFilter.MatchFor`: numbers are exact reals. PHP keeps integers and floats apart, and its `===` on the two bounds is false for `1..1.0` (an int against a float). The model collapses `1..1.0` to an equality where the source adds a range. Float rounding and integer overflow to float are not modelled either.
- `MongoRangeFilter.RangeFilter.Apply`: in the deprecated branch the source passes the builder and the whole context to the parent class's `apply`. That class is not part of this model. Its effect is an uninterpreted collaborator (`Metadata.parentStages`) from the request's filters to the stages it appends, so the parent class may add stages there. The model does not capture what those stages are, or that the parent sees the flag already set.
- The `$lookup` stages that `addLookupsForNestedProperty` adds for a nested property are not modelled. Only the match field it returns is kept (`Metadata.nestedMatchField`).
- `isPropertyEnabled`, `isPropertyMapped`, `isPropertyNested` and `denormalizePropertyName` are collaborators without a body here. They are function parameters that the model knows nothing about.
- Operator values that are arrays (`range[price][gt][]=1`) are not representable. In the source such an entry survives `normalizeValues`, which looks at keys only. It then reaches `addMatch`, whose `string $value` parameter raises a `TypeError` under `strict_types=1`. The model's types exclude these inputs, so it does not capture that error.
- Integer array keys are not representable. For an operator map they are never a recognised operator. `addMatch` declares its operator as `string`.
- PHP arrays cannot hold a key twice. The model's lists can, and every result holds either way.
- The constructor wiring, the manager registry, the logger and `getDescription` are not modelled, because they hold no filtering logic.
- The ORM backend's DQL text and its bind-parameter names (`:dummyPrice_p1`, …) are not modelled. The `field` argument of `AddMatch`, which only the ORM backend uses for naming, is passed along and not used.
