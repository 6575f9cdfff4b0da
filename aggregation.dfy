/**
 * The part of the aggregation builder the range filter uses: a pipeline that
 * only ever grows by `$match` stages, each comparing one field with numbers,
 * and what such a pipeline selects.
 */
module Aggregation {

  /**
   * One `$match` stage. `Range` is the single stage that
   * `match()->field(f)->gte(lo)->lte(hi)` builds.
   */
  datatype Stage =
    | Eq(field: string, value: real)
    | Gt(field: string, value: real)
    | Gte(field: string, value: real)
    | Lt(field: string, value: real)
    | Lte(field: string, value: real)
    | Range(field: string, lo: real, hi: real)

  /** A document as the numeric values of its fields, by path. */
  type Document = map<string, real>

  /** The document passes the stage: it has the field and the comparison holds. */
  predicate Holds(doc: Document, st: Stage)
  {
    st.field in doc &&
    var d := doc[st.field];
    match st
    case Eq(_, x) => d == x
    case Gt(_, x) => d > x
    case Gte(_, x) => d >= x
    case Lt(_, x) => d < x
    case Lte(_, x) => d <= x
    case Range(_, lo, hi) => lo <= d <= hi
  }

  /** The document passes every stage of the pipeline. */
  predicate Passes(doc: Document, stages: seq<Stage>)
  {
    forall k :: 0 <= k < |stages| ==> Holds(doc, stages[k])
  }

  /** The stages of a pipeline filter one after the other: a pipeline of two parts selects their intersection. */
  lemma PassesAppend(doc: Document, a: seq<Stage>, b: seq<Stage>)
    ensures Passes(doc, a + b) <==> Passes(doc, a) && Passes(doc, b)
  {
    if Passes(doc, a) && Passes(doc, b) {
      forall k | 0 <= k < |a + b| ensures Holds(doc, (a + b)[k]) {
        if k >= |a| {
          assert (a + b)[k] == b[k - |a|];
        }
      }
    }
    if Passes(doc, a + b) {
      forall k | 0 <= k < |a| ensures Holds(doc, a[k]) {
        assert (a + b)[k] == a[k];
      }
      forall k | 0 <= k < |b| ensures Holds(doc, b[k]) {
        assert (a + b)[|a| + k] == b[k];
      }
    }
  }

  lemma PassesTwo(doc: Document, first: Stage, second: Stage)
    ensures Passes(doc, [first, second]) <==> Holds(doc, first) && Holds(doc, second)
  {
    assert [first, second][0] == first && [first, second][1] == second;
  }

  /** The aggregation builder, seen as the sequence of stages added to it so far. */
  class Builder {
    var stages: seq<Stage>

    constructor ()
      ensures stages == []
    {
      stages := [];
    }

    /** Adds one `$match` stage at the end of the pipeline. */
    method Match(st: Stage)
      modifies this
      ensures stages == old(stages) + [st]
    {
      stages := stages + [st];
    }
  }
}
