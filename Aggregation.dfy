/** aggregate: groups the input tuples by the value of an optional group
    field and writes, for each group in ascending key order, the group key
    (when grouping) followed by the aggregate of the group's values. */
module Aggregation {
  import opened Common
  import opened Fields
  import opened Tuples
  import opened Grouping

  datatype AggregateOp = SUM | AVG | MIN | MAX | COUNT

  /** The field to aggregate, the operation, and the optional group field. */
  datatype AggregateRequest = AggregateRequest(field: string, op: AggregateOp, group: Option<string>)

  /** What to_double throws for a string. */
  const NonNumeric: Error := InvalidArgument("Non-numeric type")

  /** No value of the list is a string. */
  ghost predicate Numeric(vs: seq<Field>)
  {
    forall i :: 0 <= i < |vs| ==> !vs[i].StringField?
  }

  /** The sum of the numeric values, each converted to a double; strings
      contribute nothing. The reference for SUM and AVG. */
  function NumericTotal(vs: seq<Field>): real
  {
    if vs == [] then 0.0
    else
      var last := vs[|vs| - 1];
      NumericTotal(vs[..|vs| - 1]) + (if last.StringField? then 0.0 else ToDouble(last).value)
  }

  // ---- SUM ----

  /** int_sum: the sum of the int values. */
  function IntSum(vs: seq<Field>): int
  {
    if vs == [] then 0
    else
      var last := vs[|vs| - 1];
      IntSum(vs[..|vs| - 1]) + (if last.IntField? then last.i else 0)
  }

  /** double_sum: the sum of the double values. */
  function DoubleSum(vs: seq<Field>): real
  {
    if vs == [] then 0.0
    else
      var last := vs[|vs| - 1];
      DoubleSum(vs[..|vs| - 1]) + (if last.DoubleField? then last.d else 0.0)
  }

  /** all_integers: cleared by a double only, not by a string. */
  predicate AllIntegers(vs: seq<Field>)
    ensures AllIntegers(vs) <==> forall i :: 0 <= i < |vs| ==> !vs[i].DoubleField?
  {
    if vs == [] then true
    else
      var front := vs[..|vs| - 1];
      assert forall i :: 0 <= i < |front| ==> front[i] == vs[i];
      AllIntegers(front) && !vs[|vs| - 1].DoubleField?
  }

  /** The SUM of a group: an int when no value is a double, a double otherwise. */
  function SumResult(vs: seq<Field>): Field
  {
    if AllIntegers(vs) then IntField(IntSum(vs))
    else DoubleField(IntSum(vs) as real + DoubleSum(vs))
  }

  // ---- AVG ----

  /** std::accumulate of to_double from 0.0: throws at the first string. */
  function DoubleTotal(vs: seq<Field>): (r: Result<real>)
    ensures r.Ok? <==> Numeric(vs)
    ensures r.Ok? ==> r.value == NumericTotal(vs)
    ensures r.Err? ==> r.error == NonNumeric
  {
    if vs == [] then Ok(0.0)
    else
      var front := vs[..|vs| - 1];
      assert forall i :: 0 <= i < |front| ==> front[i] == vs[i];
      match DoubleTotal(front)
      case Err(e) => Err(e)
      case Ok(x) =>
        match ToDouble(vs[|vs| - 1])
        case None => Err(NonNumeric)
        case Some(y) => Ok(x + y)
  }

  // ---- MIN and MAX ----

  /** std::max_element under to_double(a) < to_double(b): the position of the
      first greatest value. A single value is returned without a comparison;
      otherwise every comparison converts both sides and a string throws. */
  function MaxIndex(vs: seq<Field>): (r: Result<nat>)
    requires |vs| > 0
    ensures r.Ok? ==> r.value < |vs|
    ensures r.Err? ==> r.error == NonNumeric
    ensures |vs| == 1 ==> r == Ok(0)
  {
    if |vs| == 1 then Ok(0)
    else
      match MaxIndex(vs[..|vs| - 1])
      case Err(e) => Err(e)
      case Ok(k) =>
        match (ToDouble(vs[k]), ToDouble(vs[|vs| - 1]))
        case (Some(x), Some(y)) => Ok(if x < y then |vs| - 1 else k)
        case _ => Err(NonNumeric)
  }

  /** std::min_element under the same comparison: the position of the first
      least value. */
  function MinIndex(vs: seq<Field>): (r: Result<nat>)
    requires |vs| > 0
    ensures r.Ok? ==> r.value < |vs|
    ensures r.Err? ==> r.error == NonNumeric
    ensures |vs| == 1 ==> r == Ok(0)
  {
    if |vs| == 1 then Ok(0)
    else
      match MinIndex(vs[..|vs| - 1])
      case Err(e) => Err(e)
      case Ok(k) =>
        match (ToDouble(vs[|vs| - 1]), ToDouble(vs[k]))
        case (Some(y), Some(x)) => Ok(if y < x then |vs| - 1 else k)
        case _ => Err(NonNumeric)
  }

  // ---- per group ----

  /** The aggregate of one group's values, or what to_double throws. A group
      always holds at least one value. */
  function GroupResult(op: AggregateOp, vs: seq<Field>): Result<Field>
    requires |vs| > 0
  {
    match op
    case SUM => Ok(SumResult(vs))
    case AVG =>
      (match DoubleTotal(vs)
       case Err(e) => Err(e)
       case Ok(x) => Ok(DoubleField(x / (|vs| as real))))
    case MIN =>
      (match MinIndex(vs)
       case Err(e) => Err(e)
       case Ok(k) => Ok(vs[k]))
    case MAX =>
      (match MaxIndex(vs)
       case Err(e) => Err(e)
       case Ok(k) => Ok(vs[k]))
    case COUNT => Ok(IntField(|vs|))
  }

  // ---- properties of the per-group results ----

  /** SUM is the arithmetic sum of the numeric values: exact as an int when
      there is no double, converted to a double otherwise. */
  lemma {:induction false} SumIsNumericTotal(vs: seq<Field>)
    ensures IntSum(vs) as real + DoubleSum(vs) == NumericTotal(vs)
    ensures AllIntegers(vs) ==> SumResult(vs) == IntField(IntSum(vs)) && IntSum(vs) as real == NumericTotal(vs)
    ensures !AllIntegers(vs) ==> SumResult(vs) == DoubleField(NumericTotal(vs))
  {
    if vs != [] {
      var front := vs[..|vs| - 1];
      SumIsNumericTotal(front);
      assert forall i :: 0 <= i < |front| ==> front[i] == vs[i];
      if AllIntegers(vs) {
        assert AllIntegers(front);
        assert !vs[|vs| - 1].DoubleField?;
        SumWithoutDoubles(front);
      }
    }
  }

  /** Without a double, double_sum stays zero. */
  lemma {:induction false} SumWithoutDoubles(vs: seq<Field>)
    requires AllIntegers(vs)
    ensures DoubleSum(vs) == 0.0
  {
    if vs != [] {
      var front := vs[..|vs| - 1];
      assert forall i :: 0 <= i < |front| ==> front[i] == vs[i];
      SumWithoutDoubles(front);
    }
  }

  /** SUM skips a string without changing the result or its type. */
  lemma SumSkipsStrings(vs: seq<Field>, s: string)
    ensures SumResult(vs + [StringField(s)]) == SumResult(vs)
  {
    var ws := vs + [StringField(s)];
    assert ws[..|ws| - 1] == vs;
  }

  /** A group of strings only sums to the int zero. */
  lemma {:induction false} SumOfStrings(vs: seq<Field>)
    requires forall i :: 0 <= i < |vs| ==> vs[i].StringField?
    ensures SumResult(vs) == IntField(0)
  {
    if vs != [] {
      var front := vs[..|vs| - 1];
      assert forall i :: 0 <= i < |front| ==> front[i] == vs[i];
      SumOfStrings(front);
      SumWithoutDoubles(vs);
    }
  }

  /** With every value numeric, max_element finds the first greatest value. */
  lemma {:induction false} MaxIndexIsFirstGreatest(vs: seq<Field>)
    requires |vs| > 0 && Numeric(vs)
    ensures MaxIndex(vs).Ok?
    ensures forall j :: 0 <= j < |vs| ==> ToDouble(vs[j]).value <= ToDouble(vs[MaxIndex(vs).value]).value
    ensures forall j :: 0 <= j < MaxIndex(vs).value ==> ToDouble(vs[j]).value < ToDouble(vs[MaxIndex(vs).value]).value
  {
    if |vs| > 1 {
      var front := vs[..|vs| - 1];
      assert forall i :: 0 <= i < |front| ==> front[i] == vs[i];
      MaxIndexIsFirstGreatest(front);
    }
  }

  /** With every value numeric, min_element finds the first least value. */
  lemma {:induction false} MinIndexIsFirstLeast(vs: seq<Field>)
    requires |vs| > 0 && Numeric(vs)
    ensures MinIndex(vs).Ok?
    ensures forall j :: 0 <= j < |vs| ==> ToDouble(vs[MinIndex(vs).value]).value <= ToDouble(vs[j]).value
    ensures forall j :: 0 <= j < MinIndex(vs).value ==> ToDouble(vs[MinIndex(vs).value]).value < ToDouble(vs[j]).value
  {
    if |vs| > 1 {
      var front := vs[..|vs| - 1];
      assert forall i :: 0 <= i < |front| ==> front[i] == vs[i];
      MinIndexIsFirstLeast(front);
    }
  }

  /** Among two or more values, one string makes max_element throw. */
  lemma {:induction false} MaxIndexFailsOnString(vs: seq<Field>)
    requires |vs| >= 2 && !Numeric(vs)
    ensures MaxIndex(vs) == Err(NonNumeric)
  {
    var front := vs[..|vs| - 1];
    assert forall i :: 0 <= i < |front| ==> front[i] == vs[i];
    if |front| >= 2 && !Numeric(front) {
      MaxIndexFailsOnString(front);
    } else if |front| >= 2 {
      MaxIndexIsFirstGreatest(front);
    }
  }

  /** Among two or more values, one string makes min_element throw. */
  lemma {:induction false} MinIndexFailsOnString(vs: seq<Field>)
    requires |vs| >= 2 && !Numeric(vs)
    ensures MinIndex(vs) == Err(NonNumeric)
  {
    var front := vs[..|vs| - 1];
    assert forall i :: 0 <= i < |front| ==> front[i] == vs[i];
    if |front| >= 2 && !Numeric(front) {
      MinIndexFailsOnString(front);
    } else if |front| >= 2 {
      MinIndexIsFirstLeast(front);
    }
  }

  /** A group's aggregate fails exactly when AVG meets a string, or MIN or MAX
      meets a string among two or more values; it fails with to_double's
      error. A single value is its own MIN and MAX, whatever its type. */
  lemma GroupResultFails(op: AggregateOp, vs: seq<Field>)
    requires |vs| > 0
    ensures GroupResult(op, vs).Err? <==>
      !Numeric(vs) && (op == AVG || ((op == MIN || op == MAX) && |vs| >= 2))
    ensures GroupResult(op, vs).Err? ==> GroupResult(op, vs).error == NonNumeric
    ensures |vs| == 1 && (op == MIN || op == MAX) ==> GroupResult(op, vs) == Ok(vs[0])
  {
    if |vs| >= 2 && !Numeric(vs) {
      MaxIndexFailsOnString(vs);
      MinIndexFailsOnString(vs);
    } else if Numeric(vs) {
      MaxIndexIsFirstGreatest(vs);
      MinIndexIsFirstLeast(vs);
    }
  }

  /** AVG is the numeric total over the group size. */
  lemma AverageIsMean(vs: seq<Field>)
    requires |vs| > 0 && Numeric(vs)
    ensures GroupResult(AVG, vs) == Ok(DoubleField(NumericTotal(vs) / (|vs| as real)))
  {
  }

  /** The switch on the operation for one group, with the SUM loop. */
  method AggregateGroup(op: AggregateOp, values: seq<Field>) returns (r: Result<Field>)
    requires |values| > 0
    ensures r == GroupResult(op, values)
  {
    match op {
      case SUM =>
        var allIntegers := true;
        var intSum := 0;
        var doubleSum := 0.0;
        for k := 0 to |values|
          invariant allIntegers == AllIntegers(values[..k])
          invariant intSum == IntSum(values[..k])
          invariant doubleSum == DoubleSum(values[..k])
        {
          assert values[..k + 1][..k] == values[..k];
          match values[k] {
            case IntField(x) => intSum := intSum + x;
            case DoubleField(x) =>
              allIntegers := false;
              doubleSum := doubleSum + x;
            case StringField(_) =>
          }
        }
        assert values[..|values|] == values;
        if allIntegers {
          r := Ok(IntField(intSum));
        } else {
          r := Ok(DoubleField(intSum as real + doubleSum));
        }
      case MAX =>
        var k := MaxIndex(values);
        r := if k.Err? then Err(k.error) else Ok(values[k.value]);
      case AVG =>
        var sum := DoubleTotal(values);
        r := if sum.Err? then Err(sum.error) else Ok(DoubleField(sum.value / (|values| as real)));
      case MIN =>
        var k := MinIndex(values);
        r := if k.Err? then Err(k.error) else Ok(values[k.value]);
      case COUNT =>
        r := Ok(IntField(|values|));
    }
  }

  // ---- grouping ----

  /** Every tuple holds the aggregated field and, when grouping, the group field. */
  ghost predicate Fits(tuples: seq<Tuple>, g: Option<nat>, a: nat)
  {
    forall k :: 0 <= k < |tuples| ==> a < |tuples[k]| && (g.Some? ==> g.value < |tuples[k]|)
  }

  /** The group key of a tuple: its group field, or field_t{} when not grouping. */
  function KeyOf(t: Tuple, g: Option<nat>): Field
    requires g.Some? ==> g.value < |t|
  {
    if g.Some? then t[g.value] else DefaultField
  }

  /** The grouping loop: groups[key].push_back(value) for each tuple in turn. */
  function BuildGroups(tuples: seq<Tuple>, g: Option<nat>, a: nat): seq<Group>
    requires Fits(tuples, g, a)
  {
    if tuples == [] then []
    else
      var front := tuples[..|tuples| - 1];
      var last := tuples[|tuples| - 1];
      assert Fits(front, g, a);
      PushBack(BuildGroups(front, g, a), KeyOf(last, g), last[a])
  }

  /** The reference grouping: the aggregated values of the tuples whose key is
      key, in input order. */
  function ValuesWithKey(tuples: seq<Tuple>, g: Option<nat>, a: nat, key: Field): seq<Field>
    requires Fits(tuples, g, a)
  {
    if tuples == [] then []
    else
      var front := tuples[..|tuples| - 1];
      var last := tuples[|tuples| - 1];
      assert Fits(front, g, a);
      ValuesWithKey(front, g, a, key) + (if KeyOf(last, g) == key then [last[a]] else [])
  }

  /** The keys that occur in the input. */
  ghost function InputKeys(tuples: seq<Tuple>, g: Option<nat>, a: nat): set<Field>
    requires Fits(tuples, g, a)
  {
    set k | 0 <= k < |tuples| :: KeyOf(tuples[k], g)
  }

  /** The grouping loop builds one non-empty group per key of the input, in
      ascending key order, holding that key's values in input order. */
  lemma {:induction false} BuildGroupsSpec(tuples: seq<Tuple>, g: Option<nat>, a: nat)
    requires Fits(tuples, g, a)
    ensures Sorted(BuildGroups(tuples, g, a))
    ensures NonEmpty(BuildGroups(tuples, g, a))
    ensures Keys(BuildGroups(tuples, g, a)) == InputKeys(tuples, g, a)
    ensures forall key :: Lookup(BuildGroups(tuples, g, a), key) == ValuesWithKey(tuples, g, a, key)
  {
    if tuples != [] {
      var front := tuples[..|tuples| - 1];
      var last := tuples[|tuples| - 1];
      assert Fits(front, g, a);
      BuildGroupsSpec(front, g, a);
      var prev := BuildGroups(front, g, a);
      PushBackSorted(prev, KeyOf(last, g), last[a]);
      PushBackKeys(prev, KeyOf(last, g), last[a]);
      PushBackSize(prev, KeyOf(last, g), last[a]);
      forall key ensures Lookup(BuildGroups(tuples, g, a), key) == ValuesWithKey(tuples, g, a, key) {
        PushBackLookup(prev, KeyOf(last, g), last[a], key);
      }
      InputKeysStep(tuples, g, a);
    }
  }

  lemma InputKeysStep(tuples: seq<Tuple>, g: Option<nat>, a: nat)
    requires Fits(tuples, g, a) && tuples != []
    requires Fits(tuples[..|tuples| - 1], g, a)
    ensures InputKeys(tuples, g, a) ==
      InputKeys(tuples[..|tuples| - 1], g, a) + {KeyOf(tuples[|tuples| - 1], g)}
  {
    var front := tuples[..|tuples| - 1];
    forall key | key in InputKeys(tuples, g, a)
      ensures key in InputKeys(front, g, a) + {KeyOf(tuples[|tuples| - 1], g)}
    {
      var k :| 0 <= k < |tuples| && KeyOf(tuples[k], g) == key;
      if k < |front| {
        assert front[k] == tuples[k];
      }
    }
    forall key | key in InputKeys(front, g, a) ensures key in InputKeys(tuples, g, a) {
      var k :| 0 <= k < |front| && KeyOf(front[k], g) == key;
      assert front[k] == tuples[k];
    }
  }

  // ---- emission ----

  /** The output tuple of a group: its key when grouping, then its result. */
  function OutputRow(grouped: bool, key: Field, result: Field): Tuple
  {
    if grouped then [key, result] else [result]
  }

  /** The emission loop: one output tuple per group in map order, stopping at
      the first group whose aggregate throws. */
  function EmitRun(groups: seq<Group>, op: AggregateOp, grouped: bool): Run
    requires NonEmpty(groups)
  {
    if groups == [] then Run([], Done)
    else
      var front := groups[..|groups| - 1];
      var last := groups[|groups| - 1];
      var prev := EmitRun(front, op, grouped);
      if prev.status.Failed? then prev
      else match GroupResult(op, last.values)
        case Err(e) => Run(prev.rows, Failed(e))
        case Ok(x) => Run(prev.rows + [OutputRow(grouped, last.key, x)], Done)
  }

  /** Emission writes the rows of a prefix of the groups: all of them when it
      completes, and otherwise those before the first group whose aggregate
      throws, failing with that group's error. */
  lemma {:induction false} EmitRunSpec(groups: seq<Group>, op: AggregateOp, grouped: bool)
    requires NonEmpty(groups)
    ensures var run := EmitRun(groups, op, grouped);
      |run.rows| <= |groups| &&
      (forall j :: 0 <= j < |run.rows| ==>
        GroupResult(op, groups[j].values).Ok? &&
        run.rows[j] == OutputRow(grouped, groups[j].key, GroupResult(op, groups[j].values).value)) &&
      (run.status.Done? <==> |run.rows| == |groups|) &&
      (run.status.Failed? ==> GroupResult(op, groups[|run.rows|].values) == Err(run.status.error))
  {
    if groups != [] {
      var front := groups[..|groups| - 1];
      EmitRunSpec(front, op, grouped);
      assert forall j :: 0 <= j < |front| ==> front[j] == groups[j];
    }
  }

  /** Once a prefix of the groups fails, emission stops there. */
  lemma {:induction false} EmitFailureIsFinal(groups: seq<Group>, op: AggregateOp, grouped: bool, k: nat)
    requires NonEmpty(groups) && k <= |groups|
    requires EmitRun(groups[..k], op, grouped).status.Failed?
    ensures EmitRun(groups, op, grouped) == EmitRun(groups[..k], op, grouped)
  {
    if k < |groups| {
      var front := groups[..|groups| - 1];
      assert front[..k] == groups[..k];
      EmitFailureIsFinal(front, op, grouped, k);
    } else {
      assert groups[..k] == groups;
    }
  }

  // ---- the operator ----

  /** index_of of the group field, when there is one. */
  function GroupIndex(td: TupleDesc, group: Option<string>): (r: Result<Option<nat>>)
    ensures r.Err? <==> group.Some? && group.value !in td
    ensures r.Err? ==> r.error == UnknownField(group.value)
    ensures r.Ok? ==> r.value.Some? == group.Some?
    ensures r.Ok? && r.value.Some? ==> IndexOf(td, group.value) == Ok(r.value.value)
  {
    if group.None? then Ok(None)
    else match IndexOf(td, group.value)
      case Err(e) => Err(e)
      case Ok(i) => Ok(Some(i))
  }

  lemma AlignedFits(td: TupleDesc, tuples: seq<Tuple>, g: Option<nat>, a: nat)
    requires Aligned(td, tuples) && a < |td| && (g.Some? ==> g.value < |td|)
    ensures Fits(tuples, g, a)
  {
  }

  /** What aggregate appends: it resolves the aggregated field, then the group
      field, before reading any tuple, then emits the groups. */
  function AggregateRun(td: TupleDesc, tuples: seq<Tuple>, agg: AggregateRequest): Run
    requires Aligned(td, tuples)
  {
    match IndexOf(td, agg.field)
    case Err(e) => Run([], Failed(e))
    case Ok(a) =>
      match GroupIndex(td, agg.group)
      case Err(e) => Run([], Failed(e))
      case Ok(g) =>
        AlignedFits(td, tuples, g, a);
        BuildGroupsSpec(tuples, g, a);
        EmitRun(BuildGroups(tuples, g, a), agg.op, g.Some?)
  }

  /** The aggregated values of every tuple, in input order. */
  function Column(tuples: seq<Tuple>, a: nat): (r: seq<Field>)
    requires forall k :: 0 <= k < |tuples| ==> a < |tuples[k]|
    ensures |r| == |tuples| && forall k :: 0 <= k < |tuples| ==> r[k] == tuples[k][a]
  {
    seq(|tuples|, k requires 0 <= k < |tuples| => tuples[k][a])
  }

  /** Without a group field every tuple falls into the one group of field_t{}. */
  lemma {:induction false} UngroupedIsOneGroup(tuples: seq<Tuple>, a: nat)
    requires Fits(tuples, None, a) && tuples != []
    ensures BuildGroups(tuples, None, a) == [Group(DefaultField, Column(tuples, a))]
  {
    var front := tuples[..|tuples| - 1];
    assert Fits(front, None, a);
    if front != [] {
      UngroupedIsOneGroup(front, a);
      assert Column(front, a) + [tuples[|tuples| - 1][a]] == Column(tuples, a);
    } else {
      assert BuildGroups(front, None, a) == [];
      assert Column(tuples, a) == [tuples[0][a]];
    }
  }

  /** An unknown aggregated or group field fails before any tuple is read,
      even on an empty input; the aggregated field is checked first. */
  lemma AggregateChecksNamesFirst(td: TupleDesc, tuples: seq<Tuple>, agg: AggregateRequest)
    requires Aligned(td, tuples)
    ensures agg.field !in td ==> AggregateRun(td, tuples, agg) == Run([], Failed(UnknownField(agg.field)))
    ensures agg.field in td && agg.group.Some? && agg.group.value !in td ==>
      AggregateRun(td, tuples, agg) == Run([], Failed(UnknownField(agg.group.value)))
  {
  }

  /** An empty input yields no tuple at all, even for COUNT. */
  lemma AggregateEmptyInput(td: TupleDesc, agg: AggregateRequest)
    requires agg.field in td && (agg.group.Some? ==> agg.group.value in td)
    ensures AggregateRun(td, [], agg) == Run([], Done)
  {
  }

  /** With the names known, aggregate fails only when a group's AVG, MIN or
      MAX meets a string, with to_double's error. */
  lemma AggregateFailsOnlyOnNonNumeric(td: TupleDesc, tuples: seq<Tuple>, agg: AggregateRequest)
    requires Aligned(td, tuples) && agg.field in td && (agg.group.Some? ==> agg.group.value in td)
    ensures AggregateRun(td, tuples, agg).status.Failed? ==>
      AggregateRun(td, tuples, agg).status.error == NonNumeric && agg.op in {AVG, MIN, MAX}
  {
    var a := IndexOf(td, agg.field).value;
    var g := GroupIndex(td, agg.group).value;
    AlignedFits(td, tuples, g, a);
    BuildGroupsSpec(tuples, g, a);
    var groups := BuildGroups(tuples, g, a);
    EmitRunSpec(groups, agg.op, g.Some?);
    var run := EmitRun(groups, agg.op, g.Some?);
    if run.status.Failed? {
      GroupResultFails(agg.op, groups[|run.rows|].values);
    }
  }

  /** Grouped: one tuple [key, result] per distinct key of the input, keys
      strictly ascending, each result the aggregate of that key's values in
      input order; all keys are written when aggregate completes. */
  lemma AggregateGrouped(td: TupleDesc, tuples: seq<Tuple>, agg: AggregateRequest)
    requires Aligned(td, tuples) && agg.field in td && agg.group.Some? && agg.group.value in td
    ensures var run := AggregateRun(td, tuples, agg);
      var a := IndexOf(td, agg.field).value;
      var g := Some(IndexOf(td, agg.group.value).value);
      Fits(tuples, g, a) &&
      |run.rows| <= |InputKeys(tuples, g, a)| &&
      (run.status.Done? ==> |run.rows| == |InputKeys(tuples, g, a)|) &&
      (forall j :: 0 <= j < |run.rows| ==>
        |run.rows[j]| == 2 && run.rows[j][0] in InputKeys(tuples, g, a) &&
        |ValuesWithKey(tuples, g, a, run.rows[j][0])| > 0 &&
        GroupResult(agg.op, ValuesWithKey(tuples, g, a, run.rows[j][0])) == Ok(run.rows[j][1])) &&
      (forall i, j :: 0 <= i < j < |run.rows| ==> Less(run.rows[i][0], run.rows[j][0]))
  {
    var a := IndexOf(td, agg.field).value;
    var g := Some(IndexOf(td, agg.group.value).value);
    AlignedFits(td, tuples, g, a);
    BuildGroupsSpec(tuples, g, a);
    var groups := BuildGroups(tuples, g, a);
    SortedKeysCount(groups);
    EmitRunSpec(groups, agg.op, true);
    var run := EmitRun(groups, agg.op, true);
    assert run == AggregateRun(td, tuples, agg);
    forall j | 0 <= j < |run.rows|
      ensures run.rows[j][0] in InputKeys(tuples, g, a)
      ensures ValuesWithKey(tuples, g, a, run.rows[j][0]) == groups[j].values
    {
      LookupAt(groups, j);
      assert groups[j].key in Keys(groups);
    }
  }

  /** Ungrouped: a non-empty input yields the single tuple [result] over the
      whole column, or fails writing nothing. */
  lemma AggregateUngrouped(td: TupleDesc, tuples: seq<Tuple>, agg: AggregateRequest)
    requires Aligned(td, tuples) && tuples != [] && agg.field in td && agg.group.None?
    ensures var column := Column(tuples, IndexOf(td, agg.field).value);
      AggregateRun(td, tuples, agg) ==
        match GroupResult(agg.op, column)
        case Ok(x) => Run([[x]], Done)
        case Err(e) => Run([], Failed(e))
  {
    var a := IndexOf(td, agg.field).value;
    AlignedFits(td, tuples, None, a);
    UngroupedIsOneGroup(tuples, a);
    var groups := [Group(DefaultField, Column(tuples, a))];
    assert groups[..0] == [];
    assert AggregateRun(td, tuples, agg) == EmitRun(groups, agg.op, false);
  }

  /** COUNT without a group field counts the input tuples. */
  lemma CountWithoutGroup(td: TupleDesc, tuples: seq<Tuple>, field: string)
    requires Aligned(td, tuples) && tuples != [] && field in td
    ensures AggregateRun(td, tuples, AggregateRequest(field, COUNT, None)) == Run([[IntField(|tuples|)]], Done)
  {
    AggregateUngrouped(td, tuples, AggregateRequest(field, COUNT, None));
  }

  /** The grouping loop of aggregate. */
  method GroupTuples(tuples: seq<Tuple>, g: Option<nat>, a: nat) returns (groups: seq<Group>)
    requires Fits(tuples, g, a)
    ensures groups == BuildGroups(tuples, g, a)
  {
    groups := [];
    for k := 0 to |tuples|
      invariant Fits(tuples[..k], g, a)
      invariant groups == BuildGroups(tuples[..k], g, a)
    {
      assert tuples[..k + 1][..k] == tuples[..k];
      var tuple := tuples[k];
      var key := if g.Some? then tuple[g.value] else DefaultField;
      var value := tuple[a];
      groups := PushBack(groups, key, value);
    }
    assert tuples[..|tuples|] == tuples;
  }

  /** The emission loop of aggregate: one output tuple per group, in order,
      until a group's aggregate throws. */
  method EmitGroups(groups: seq<Group>, op: AggregateOp, grouped: bool, out: DbFile) returns (status: Status)
    requires NonEmpty(groups)
    modifies out
    ensures status == EmitRun(groups, op, grouped).status
    ensures out.tuples == old(out.tuples) + EmitRun(groups, op, grouped).rows
  {
    status := Done;
    ghost var start := out.tuples;
    for i := 0 to |groups|
      invariant NonEmpty(groups[..i])
      invariant EmitRun(groups[..i], op, grouped).status == Done
      invariant out.tuples == start + EmitRun(groups[..i], op, grouped).rows
    {
      assert groups[..i + 1][..i] == groups[..i];
      assert NonEmpty(groups[..i + 1]);
      var result := AggregateGroup(op, groups[i].values);
      if result.Err? {
        EmitFailureIsFinal(groups, op, grouped, i + 1);
        return Failed(result.error);
      }
      var outputFields: Tuple := [];
      if grouped {
        outputFields := outputFields + [groups[i].key];
      }
      outputFields := outputFields + [result.value];
      assert outputFields == OutputRow(grouped, groups[i].key, result.value);
      out.InsertTuple(outputFields);
    }
    assert groups[..|groups|] == groups;
  }

  /** aggregate: a grouping loop that pushes each tuple's value onto its key's
      group, then an emission loop over the groups in key order. */
  method Aggregate(input: DbFile, out: DbFile, agg: AggregateRequest) returns (status: Status)
    requires input != out && input.Valid()
    modifies out
    ensures var run := AggregateRun(input.td, input.tuples, agg);
      status == run.status && out.tuples == old(out.tuples) + run.rows
  {
    var td, tuples := input.td, input.tuples;
    var aggFieldIndex := IndexOf(td, agg.field);
    if aggFieldIndex.Err? {
      return Failed(aggFieldIndex.error);
    }
    var a := aggFieldIndex.value;
    var groupFieldIndex := GroupIndex(td, agg.group);
    if groupFieldIndex.Err? {
      return Failed(groupFieldIndex.error);
    }
    var g := groupFieldIndex.value;
    AlignedFits(td, tuples, g, a);

    var groups := GroupTuples(tuples, g, a);
    BuildGroupsSpec(tuples, g, a);

    status := EmitGroups(groups, agg.op, g.Some?, out);
  }
}
