/**
 * The AVG aggregate of the pull evaluator (section 18.5 of the W3C SPARQL 1.1
 * Query Language): a per-group accumulator that keeps a count, three
 * parallel running sums (decimal, float and double precision), the highest
 * numeric type seen so far, the type of the last accepted value and, for
 * AVG(DISTINCT ...), the set of values already seen.
 *
 * The sums are exact reals here: the rounding of the original's float and
 * double arithmetic is not modelled. The value expression is evaluated by
 * the caller; Accept receives its result (None when evaluation yields null).
 */
module AverageAggregate {
  import opened Wrappers
  import opened Rdf

  /** SPARQL numeric types, numbered in promotion order: NaN (not a number)
      < Integer < Decimal < Float < Double. Only the order of the numbers
      matters; the original compares the members through integer casts. */
  newtype NumericType = t: int | 0 <= t <= 4

  const NaN: NumericType := 0
  const Integer: NumericType := 1
  const Decimal: NumericType := 2
  const Float: NumericType := 3
  const Double: NumericType := 4

  /** The higher of two numeric types; the first one on a tie. */
  function MaxType(a: NumericType, b: NumericType): (r: NumericType)
    ensures a <= r && b <= r
    ensures r == a || r == b
  {
    if b > a then b else a
  }

  /** The highest type of a sequence of types; NaN for the empty sequence. */
  function MaxOf(ts: seq<NumericType>): NumericType
  {
    if ts == [] then NaN else MaxType(MaxOf(ts[..|ts| - 1]), ts[|ts| - 1])
  }

  /** MaxOf is an upper bound of its input and, unless the input is empty,
      one of its elements. */
  lemma {:induction false} MaxOfIsHighest(ts: seq<NumericType>)
    ensures forall i :: 0 <= i < |ts| ==> ts[i] <= MaxOf(ts)
    ensures ts == [] <==> MaxOf(ts) == NaN && NaN !in ts
    ensures ts != [] ==> MaxOf(ts) in ts
  {
    if ts != [] {
      var init := ts[..|ts| - 1];
      MaxOfIsHighest(init);
      assert forall i :: 0 <= i < |init| ==> ts[i] == init[i];
      assert ts == init + [ts[|ts| - 1]];
    }
  }

  /** A value returned by the value expression: the RDF node itself (the key
      of the DISTINCT set), its numeric type and its conversions to the three
      sum representations. */
  datatype ValuedNode = ValuedNode(node: Term, numericType: NumericType,
                                   asDecimal: real, asFloat: real, asDouble: real)

  /** The node returned by Value: a long, decimal, float or double literal. */
  datatype NumericValue = LongValue(l: int) | DecimalValue(d: real) | FloatValue(f: real) | DoubleValue(x: real)

  function SumDecimal(w: seq<ValuedNode>): real
  {
    if w == [] then 0.0 else SumDecimal(w[..|w| - 1]) + w[|w| - 1].asDecimal
  }

  function SumFloat(w: seq<ValuedNode>): real
  {
    if w == [] then 0.0 else SumFloat(w[..|w| - 1]) + w[|w| - 1].asFloat
  }

  function SumDouble(w: seq<ValuedNode>): real
  {
    if w == [] then 0.0 else SumDouble(w[..|w| - 1]) + w[|w| - 1].asDouble
  }

  /** The mean of a non-empty window of values, in the representation that
      belongs to the numeric type `t`. */
  function MeanAt(t: NumericType, w: seq<ValuedNode>): Option<NumericValue>
    requires w != []
  {
    var n := |w| as real;
    if t == Integer || t == Decimal then Some(DecimalValue(SumDecimal(w) / n))
    else if t == Float then Some(FloatValue(SumFloat(w) / n))
    else if t == Double then Some(DoubleValue(SumDouble(w) / n))
    else None
  }

  /** The parallel-sums invariant over the values accepted since the last
      Start (`w`) and the types accepted since construction (`ts`): the
      ceiling `mt` is the highest accepted type, the double sum `xs` covers
      the whole window, and the float sum `fs` and decimal sum `ds` do too as
      long as the ceiling has not risen above their precision. */
  ghost predicate SumsInvariant(w: seq<ValuedNode>, ts: seq<NumericType>, mt: NumericType,
                                ds: real, fs: real, xs: real)
  {
    && mt == MaxOf(ts)
    && NaN !in ts
    && (w != [] ==> ts != [])
    && xs == SumDouble(w)
    && (mt <= Float ==> fs == SumFloat(w))
    && (mt <= Decimal ==> ds == SumDecimal(w))
  }

  /** Accepting a numeric value keeps the invariant: the ceiling rises to the
      value's type if it is higher, and the value is added to the double sum
      and to each lower-precision sum the new ceiling still allows. */
  lemma {:induction false} AcceptKeepsSums(w: seq<ValuedNode>, ts: seq<NumericType>, mt: NumericType,
                                           ds: real, fs: real, xs: real, x: ValuedNode)
    requires SumsInvariant(w, ts, mt, ds, fs, xs)
    requires x.numericType != NaN
    ensures var mt' := MaxType(mt, x.numericType);
      SumsInvariant(w + [x], ts + [x.numericType], mt',
                    ds + (if mt' <= Decimal then x.asDecimal else 0.0),
                    fs + (if mt' <= Float then x.asFloat else 0.0),
                    xs + x.asDouble)
  {
    assert (w + [x])[..|w|] == w;
    assert (ts + [x.numericType])[..|ts|] == ts;
  }

  class AsyncAverageAggregate {
    const distinct: bool
    var error: bool
    var count: nat
    var decimalSum: real
    var floatSum: real
    var doubleSum: real
    var maxtype: NumericType
    var numtype: NumericType
    /** The DISTINCT seen-set; it stays empty when `distinct` is false. */
    var values: set<Term>

    /** The types of all values accepted (not as duplicates) since construction. */
    ghost var accepted: seq<NumericType>
    /** The values accepted (not as duplicates) since the last Start. */
    ghost var window: seq<ValuedNode>

    /** The accumulator invariant: the ceiling is the highest type accepted so
        far, the count is the size of the window, the double sum covers the
        whole window, and the float and decimal sums do too as long as the
        ceiling has not risen above their precision. */
    ghost predicate Valid()
      reads this
    {
      && (!distinct ==> values == {})
      && count == |window|
      && SumsInvariant(window, accepted, maxtype, decimalSum, floatSum, doubleSum)
    }

    constructor (distinct: bool)
      ensures Valid()
      ensures this.distinct == distinct && !error && count == 0
      ensures decimalSum == 0.0 && floatSum == 0.0 && doubleSum == 0.0
      ensures maxtype == NaN && numtype == NaN && values == {}
      ensures accepted == [] && window == []
    {
      this.distinct := distinct;
      error, count := false, 0;
      decimalSum, floatSum, doubleSum := 0.0, 0.0, 0.0;
      maxtype, numtype := NaN, NaN;
      values := {};
      accepted, window := [], [];
    }

    /** The aggregate's value, selecting the sum by the type of the LAST
        accepted value as the original does. When that type is the ceiling
        the value is the mean of the window in the ceiling's representation. */
    function Value(): (r: Option<NumericValue>)
      reads this
      ensures error ==> r == None
      ensures !error && count == 0 ==> r == Some(LongValue(0))
      ensures Valid() && !error && count > 0 && numtype == maxtype ==> r == MeanAt(maxtype, window)
    {
      if error then None
      else if count == 0 then Some(LongValue(0))
      else
        if numtype == Integer || numtype == Decimal then Some(DecimalValue(decimalSum / count as real))
        else if numtype == Float then Some(FloatValue(floatSum / count as real))
        else if numtype == Double then Some(DoubleValue(doubleSum / count as real))
        else None
    }

    /** Value selecting the sum by the ceiling instead: always the mean of the
        window in the ceiling's representation. */
    function CorrectedValue(): (r: Option<NumericValue>)
      reads this
      ensures error ==> r == None
      ensures !error && count == 0 ==> r == Some(LongValue(0))
      ensures Valid() && !error && count > 0 ==> r == MeanAt(maxtype, window) && r.Some?
    {
      if error then None
      else if count == 0 then Some(LongValue(0))
      else
        if maxtype == Integer || maxtype == Decimal then Some(DecimalValue(decimalSum / count as real))
        else if maxtype == Float then Some(FloatValue(floatSum / count as real))
        else if maxtype == Double then Some(DoubleValue(doubleSum / count as real))
        else None
    }

    /** Starts a new group: resets the count and the three sums and nothing
        else. */
    method Start()
      requires Valid()
      modifies this
      ensures Valid()
      ensures count == 0 && decimalSum == 0.0 && floatSum == 0.0 && doubleSum == 0.0
      ensures error == old(error) && maxtype == old(maxtype) && numtype == old(numtype)
      ensures values == old(values) && accepted == old(accepted) && window == []
    {
      count := 0;
      decimalSum := 0.0;
      floatSum := 0.0;
      doubleSum := 0.0;
      window := [];
    }

    /** Folds one evaluated value into the accumulator. `v` is None when the
        value expression produced null. Returns false exactly when the
        aggregate is, or now becomes, in error. */
    method Accept(v: Option<ValuedNode>) returns (ok: bool)
      requires Valid()
      modifies this
      ensures Valid()
      ensures old(maxtype) <= maxtype
      // Once in error: refuse and change nothing.
      ensures old(error) ==> (
        && !ok && error && count == old(count) && maxtype == old(maxtype)
        && numtype == old(numtype) && values == old(values) && decimalSum == old(decimalSum)
        && floatSum == old(floatSum) && doubleSum == old(doubleSum))
      // A null value: enter the error state.
      ensures !old(error) && v.None? ==> (
        && !ok && error && count == old(count)
        && maxtype == old(maxtype) && numtype == old(numtype) && values == old(values)
        && decimalSum == old(decimalSum) && floatSum == old(floatSum) && doubleSum == old(doubleSum))
      // A DISTINCT duplicate: accept without changing anything.
      ensures !old(error) && v.Some? && distinct && v.value.node in old(values) ==> (
        && ok && !error && count == old(count) && maxtype == old(maxtype) && numtype == old(numtype)
        && values == old(values) && decimalSum == old(decimalSum) && floatSum == old(floatSum)
        && doubleSum == old(doubleSum))
      // A fresh value: record it as seen (under DISTINCT) and as the last type.
      ensures !old(error) && v.Some? && !(distinct && v.value.node in old(values)) ==> (
        && numtype == v.value.numericType
        && values == (if distinct then old(values) + {v.value.node} else old(values)))
      // A non-numeric value: enter the error state without counting it.
      ensures (!old(error) && v.Some? && !(distinct && v.value.node in old(values))
               && v.value.numericType == NaN) ==> (
        && !ok && error && count == old(count) && maxtype == old(maxtype)
        && decimalSum == old(decimalSum) && floatSum == old(floatSum) && doubleSum == old(doubleSum))
      // A numeric value: raise the ceiling, add to the sums the ceiling allows, count it.
      ensures (!old(error) && v.Some? && !(distinct && v.value.node in old(values))
               && v.value.numericType != NaN) ==> (
        && ok && !error && count == old(count) + 1
        && maxtype == MaxType(old(maxtype), v.value.numericType)
        && decimalSum == old(decimalSum) + (if maxtype <= Decimal then v.value.asDecimal else 0.0)
        && floatSum == old(floatSum) + (if maxtype <= Float then v.value.asFloat else 0.0)
        && doubleSum == old(doubleSum) + v.value.asDouble
        && accepted == old(accepted) + [v.value.numericType] && window == old(window) + [v.value])
    {
      if error {
        return false;
      }
      if v.None? {
        error := true;
        return false;
      }
      var tmp := v.value;
      if distinct {
        if tmp.node in values {
          return true;
        }
        values := values + {tmp.node};
      }
      ok := AcceptNew(tmp);
    }

    /** The part of Accept after the null and DISTINCT checks: a value seen
        for the first time. */
    method AcceptNew(tmp: ValuedNode) returns (ok: bool)
      requires Valid() && !error
      modifies this`numtype, this`error, this`maxtype, this`decimalSum, this`floatSum,
               this`doubleSum, this`count, this`window, this`accepted
      ensures Valid()
      ensures numtype == tmp.numericType
      ensures tmp.numericType == NaN ==> (
        && !ok && error && count == old(count) && maxtype == old(maxtype)
        && decimalSum == old(decimalSum) && floatSum == old(floatSum) && doubleSum == old(doubleSum))
      ensures tmp.numericType != NaN ==> (
        && ok && !error && count == old(count) + 1
        && maxtype == MaxType(old(maxtype), tmp.numericType)
        && decimalSum == old(decimalSum) + (if maxtype <= Decimal then tmp.asDecimal else 0.0)
        && floatSum == old(floatSum) + (if maxtype <= Float then tmp.asFloat else 0.0)
        && doubleSum == old(doubleSum) + tmp.asDouble
        && accepted == old(accepted) + [tmp.numericType] && window == old(window) + [tmp])
    {
      numtype := tmp.numericType;
      if numtype == NaN {
        error := true;
        return false;
      }
      AcceptNumeric(tmp);
      return true;
    }

    /** Raises the ceiling to the value's type, adds the value to the sums the
        ceiling allows and counts it. */
    method AcceptNumeric(tmp: ValuedNode)
      requires Valid() && !error && tmp.numericType != NaN
      modifies this`maxtype, this`decimalSum, this`floatSum, this`doubleSum, this`count,
               this`window, this`accepted
      ensures Valid()
      ensures count == old(count) + 1
      ensures maxtype == MaxType(old(maxtype), tmp.numericType)
      ensures decimalSum == old(decimalSum) + (if maxtype <= Decimal then tmp.asDecimal else 0.0)
      ensures floatSum == old(floatSum) + (if maxtype <= Float then tmp.asFloat else 0.0)
      ensures doubleSum == old(doubleSum) + tmp.asDouble
      ensures accepted == old(accepted) + [tmp.numericType] && window == old(window) + [tmp]
    {
      // Track the numeric type.
      if tmp.numericType > maxtype {
        maxtype := tmp.numericType;
      }
      AddToSums(tmp);
      count := count + 1;
      AcceptKeepsSums(window, accepted, old(maxtype), old(decimalSum), old(floatSum), old(doubleSum), tmp);
      window := window + [tmp];
      accepted := accepted + [tmp.numericType];
    }

    /** Adds a value to the sums whose precision the current ceiling allows. */
    method AddToSums(x: ValuedNode)
      modifies this`decimalSum, this`floatSum, this`doubleSum
      ensures decimalSum == old(decimalSum) + (if 0 < maxtype <= Decimal then x.asDecimal else 0.0)
      ensures floatSum == old(floatSum) + (if 0 < maxtype <= Float then x.asFloat else 0.0)
      ensures doubleSum == old(doubleSum) + (if 0 < maxtype then x.asDouble else 0.0)
    {
      if maxtype == Integer || maxtype == Decimal {
        decimalSum := decimalSum + x.asDecimal;
        floatSum := floatSum + x.asFloat;
        doubleSum := doubleSum + x.asDouble;
      } else if maxtype == Float {
        floatSum := floatSum + x.asFloat;
        doubleSum := doubleSum + x.asDouble;
      } else if maxtype == Double {
        doubleSum := doubleSum + x.asDouble;
      }
    }
  }

  /** AVG over an integer 1 and a decimal 2.5 promotes to decimal and is 1.75. */
  method AverageOfIntegerAndDecimal() returns (r: Option<NumericValue>)
    ensures r == Some(DecimalValue(1.75))
  {
    var agg := new AsyncAverageAggregate(false);
    agg.Start();
    var ok1 := agg.Accept(Some(ValuedNode(Literal("1", None, None), Integer, 1.0, 1.0, 1.0)));
    var ok2 := agg.Accept(Some(ValuedNode(Literal("2.5", None, None), Decimal, 2.5, 2.5, 2.5)));
    r := agg.Value();
  }

  /** AVG over a double 1.0e0 followed by an integer 2: the original selects
      the sum by the integer's type, reads the decimal sum, which stopped
      growing when the ceiling became double, and yields decimal 0; the
      ceiling-based value is the double 1.5. */
  method AverageAfterDoubleThenInteger() returns (asWritten: Option<NumericValue>, corrected: Option<NumericValue>)
    ensures asWritten == Some(DecimalValue(0.0))
    ensures corrected == Some(DoubleValue(1.5))
  {
    var agg := new AsyncAverageAggregate(false);
    agg.Start();
    var ok1 := agg.Accept(Some(ValuedNode(Literal("1.0e0", None, None), Double, 1.0, 1.0, 1.0)));
    var ok2 := agg.Accept(Some(ValuedNode(Literal("2", None, None), Integer, 2.0, 2.0, 2.0)));
    asWritten := agg.Value();
    corrected := agg.CorrectedValue();
  }
}
