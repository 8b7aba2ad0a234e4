/** The relational operators of src/db/Query.cpp other than aggregation:
    evaluatePredicate, projection, filter and join. */
module Query {
  import opened Common
  import opened Fields
  import opened Tuples

  /** evaluatePredicate: the comparison op on field values. */
  predicate EvaluatePredicate(field: Field, op: PredicateOp, value: Field)
  {
    match op
    case EQ => field == value
    case NE => field != value
    case LT => Less(field, value)
    case LE => LessEq(field, value)
    case GT => Less(value, field)
    case GE => LessEq(value, field)
  }

  /** The six comparisons are the complements and unions the operators name. */
  lemma PredicateRelations(a: Field, b: Field)
    ensures EvaluatePredicate(a, NE, b) <==> !EvaluatePredicate(a, EQ, b)
    ensures EvaluatePredicate(a, LE, b) <==> EvaluatePredicate(a, LT, b) || EvaluatePredicate(a, EQ, b)
    ensures EvaluatePredicate(a, GE, b) <==> !EvaluatePredicate(a, LT, b)
    ensures EvaluatePredicate(a, GT, b) <==> !EvaluatePredicate(a, LE, b)
  {
    LessEqIsLessOrEqual(a, b);
    LessEqIsLessOrEqual(b, a);
    Trichotomy(a, b);
  }

  // ---- projection ----

  /** What projection appends: nothing for an empty input; otherwise, when every
      name resolves, the fields at those names of each tuple, in input order;
      the first unknown name otherwise, before any tuple is written. */
  function ProjectionRun(td: TupleDesc, tuples: seq<Tuple>, names: seq<string>): Run
    requires Aligned(td, tuples)
  {
    if tuples == [] then Run([], Done)
    else match Resolve(td, names)
      case Err(e) => Run([], Failed(e))
      case Ok(idx) => Run(PickAll(td, tuples, idx), Done)
  }

  /** The fields at positions idx of every tuple, in order. */
  function PickAll(td: TupleDesc, tuples: seq<Tuple>, idx: seq<nat>): (r: seq<Tuple>)
    requires Aligned(td, tuples) && forall j :: 0 <= j < |idx| ==> idx[j] < |td|
    ensures |r| == |tuples| && forall k :: 0 <= k < |tuples| ==> r[k] == Pick(tuples[k], idx)
  {
    seq(|tuples|, k requires 0 <= k < |tuples| => Pick(tuples[k], idx))
  }

  /** One output tuple per input tuple, in order, holding the fields the names
      select; it fails exactly when the input is non-empty and a name is
      unknown, and then it writes nothing. */
  lemma ProjectionContract(td: TupleDesc, tuples: seq<Tuple>, names: seq<string>)
    requires Aligned(td, tuples)
    ensures var run := ProjectionRun(td, tuples, names);
      (run.status.Failed? <==> tuples != [] && exists j :: 0 <= j < |names| && names[j] !in td) &&
      (run.status.Failed? ==> run.rows == [] && run.status.error == UnknownField(names[FirstUnknown(td, names)])) &&
      (run.status.Done? ==> |run.rows| == |tuples|) &&
      (run.status.Done? ==> forall k :: 0 <= k < |tuples| ==> |run.rows[k]| == |names|) &&
      (run.status.Done? ==> forall k, j :: 0 <= k < |tuples| && 0 <= j < |names| ==>
         |run.rows[k]| == |names| && names[j] in td && run.rows[k][j] == tuples[k][IndexOf(td, names[j]).value])
  {
  }

  /** The inner loop of projection: looks each name up and collects the field
      of the tuple at that position. */
  method ProjectTuple(td: TupleDesc, tuple: Tuple, fieldNames: seq<string>) returns (r: Result<Tuple>)
    requires |tuple| == |td|
    ensures r.Ok? <==> Resolve(td, fieldNames).Ok?
    ensures r.Ok? ==> r.value == Pick(tuple, Resolve(td, fieldNames).value)
    ensures r.Err? ==> r.error == Resolve(td, fieldNames).error
  {
    var fields: Tuple := [];
    for j := 0 to |fieldNames|
      invariant Resolve(td, fieldNames[..j]).Ok?
      invariant fields == Pick(tuple, Resolve(td, fieldNames[..j]).value)
    {
      var fieldIndex := IndexOf(td, fieldNames[j]);
      if fieldIndex.Err? {
        ResolveFailsAt(td, fieldNames, j);
        return Err(fieldIndex.error);
      }
      ResolveStep(td, fieldNames, j);
      PickStep(tuple, Resolve(td, fieldNames[..j]).value, fieldIndex.value);
      fields := fields + [tuple[fieldIndex.value]];
    }
    assert fieldNames[..|fieldNames|] == fieldNames;
    return Ok(fields);
  }

  /** projection: for each input tuple, resolves each name and appends the
      selected fields as a new tuple. */
  method Projection(input: DbFile, out: DbFile, fieldNames: seq<string>) returns (status: Status)
    requires input != out && input.Valid()
    modifies out
    ensures var run := ProjectionRun(input.td, input.tuples, fieldNames);
      status == run.status && out.tuples == old(out.tuples) + run.rows
  {
    status := Done;
    var td, tuples := input.td, input.tuples;
    ghost var start := out.tuples;
    for k := 0 to |tuples|
      invariant k == 0 ==> out.tuples == start
      invariant k > 0 ==> Resolve(td, fieldNames).Ok?
      invariant k > 0 ==> out.tuples == start + PickAll(td, tuples[..k], Resolve(td, fieldNames).value)
    {
      var tuple := tuples[k];
      var projected := ProjectTuple(td, tuple, fieldNames);
      if projected.Err? {
        return Failed(projected.error);
      }
      assert tuples[..k + 1] == tuples[..k] + [tuple];
      out.InsertTuple(projected.value);
    }
    assert tuples[..|tuples|] == tuples;
  }

  // ---- filter ----

  /** A selection predicate: field name, operator, literal. */
  datatype FilterPredicate = FilterPredicate(fieldName: string, op: PredicateOp, value: Field)

  /** The predicate loop for one tuple: resolves each name in turn and stops at
      the first predicate that is false. */
  function Matches(td: TupleDesc, t: Tuple, preds: seq<FilterPredicate>): Result<bool>
    requires |t| == |td|
  {
    if preds == [] then Ok(true)
    else match IndexOf(td, preds[0].fieldName)
      case Err(e) => Err(e)
      case Ok(i) =>
        if !EvaluatePredicate(t[i], preds[0].op, preds[0].value) then Ok(false)
        else Matches(td, t, preds[1..])
  }

  /** A tuple satisfies the conjunction of the predicates. */
  ghost predicate Satisfies(td: TupleDesc, t: Tuple, preds: seq<FilterPredicate>)
    requires |t| == |td|
  {
    forall j :: 0 <= j < |preds| ==>
      preds[j].fieldName in td &&
      EvaluatePredicate(t[IndexOf(td, preds[j].fieldName).value], preds[j].op, preds[j].value)
  }

  ghost predicate NamesKnown(td: TupleDesc, preds: seq<FilterPredicate>)
  {
    forall j :: 0 <= j < |preds| ==> preds[j].fieldName in td
  }

  /** The short-circuit loop decides the conjunction: it accepts exactly the
      tuples that satisfy every predicate, cannot fail once every name is known,
      and fails only with the name of a predicate the schema does not know. */
  lemma {:induction false} MatchesDecidesConjunction(td: TupleDesc, t: Tuple, preds: seq<FilterPredicate>)
    requires |t| == |td|
    ensures Matches(td, t, preds) == Ok(true) <==> Satisfies(td, t, preds)
    ensures NamesKnown(td, preds) ==> Matches(td, t, preds).Ok?
    ensures Matches(td, t, preds) == Ok(true) ==> NamesKnown(td, preds)
    ensures Matches(td, t, preds).Err? ==>
      exists j :: 0 <= j < |preds| && preds[j].fieldName !in td &&
        Matches(td, t, preds).error == UnknownField(preds[j].fieldName)
  {
    if preds != [] {
      MatchesDecidesConjunction(td, t, preds[1..]);
      assert forall j :: 1 <= j < |preds| ==> preds[1..][j - 1] == preds[j];
      if Matches(td, t, preds).Err? && preds[0].fieldName in td {
        var j :| 0 <= j < |preds[1..]| && preds[1..][j].fieldName !in td &&
          Matches(td, t, preds[1..]).error == UnknownField(preds[1..][j].fieldName);
        assert preds[j + 1].fieldName !in td;
      }
    }
  }

  /** The loop reaches predicate j with an unknown name: every earlier predicate
      was looked up and held, so no break came before it. */
  ghost predicate ReachesUnknown(td: TupleDesc, t: Tuple, preds: seq<FilterPredicate>, j: int)
    requires |t| == |td|
  {
    0 <= j < |preds| && preds[j].fieldName !in td &&
    forall i :: 0 <= i < j ==>
      preds[i].fieldName in td &&
      EvaluatePredicate(t[IndexOf(td, preds[i].fieldName).value], preds[i].op, preds[i].value)
  }

  /** The predicate loop fails exactly when it reaches an unknown name before
      any false predicate, and then with that name: a name after a false
      predicate is never looked up. */
  lemma {:induction false} MatchesFailsExactly(td: TupleDesc, t: Tuple, preds: seq<FilterPredicate>)
    requires |t| == |td|
    ensures Matches(td, t, preds).Err? <==> exists j :: ReachesUnknown(td, t, preds, j)
    ensures forall j :: ReachesUnknown(td, t, preds, j) ==>
      Matches(td, t, preds) == Err(UnknownField(preds[j].fieldName))
  {
    if preds != [] {
      var p := preds[0];
      var rest := preds[1..];
      assert forall j :: 1 <= j < |preds| ==> rest[j - 1] == preds[j];
      if p.fieldName !in td {
        assert ReachesUnknown(td, t, preds, 0);
        assert forall j :: ReachesUnknown(td, t, preds, j) ==> j == 0;
      } else if !EvaluatePredicate(t[IndexOf(td, p.fieldName).value], p.op, p.value) {
        assert forall j :: !ReachesUnknown(td, t, preds, j);
      } else {
        MatchesFailsExactly(td, t, rest);
        forall j | ReachesUnknown(td, t, preds, j)
          ensures j > 0 && ReachesUnknown(td, t, rest, j - 1)
        {
          assert j != 0;
          assert forall i :: 0 <= i < j - 1 ==> rest[i] == preds[i + 1];
        }
        forall j | ReachesUnknown(td, t, rest, j)
          ensures ReachesUnknown(td, t, preds, j + 1)
        {
          assert forall i :: 1 <= i < j + 1 ==> preds[i] == rest[i - 1];
        }
        if Matches(td, t, rest).Err? {
          var j :| ReachesUnknown(td, t, rest, j);
          assert ReachesUnknown(td, t, preds, j + 1);
        }
      }
    }
  }

  /** What filter appends, tuple by tuple. */
  function FilterRun(td: TupleDesc, tuples: seq<Tuple>, preds: seq<FilterPredicate>): Run
    requires Aligned(td, tuples)
  {
    if tuples == [] then Run([], Done)
    else
      var front := tuples[..|tuples| - 1];
      var last := tuples[|tuples| - 1];
      assert Aligned(td, front);
      var prev := FilterRun(td, front, preds);
      if prev.status.Failed? then prev
      else match Matches(td, last, preds)
        case Err(e) => Run(prev.rows, Failed(e))
        case Ok(b) => Run(if b then prev.rows + [last] else prev.rows, Done)
  }

  /** xs is an order-preserving subsequence of ys. */
  ghost predicate IsSubsequence<T>(xs: seq<T>, ys: seq<T>)
  {
    if xs == [] then true
    else if ys == [] then false
    else
      IsSubsequence(xs, ys[..|ys| - 1]) ||
      (xs[|xs| - 1] == ys[|ys| - 1] && IsSubsequence(xs[..|xs| - 1], ys[..|ys| - 1]))
  }

  lemma SubsequenceExtend<T>(xs: seq<T>, ys: seq<T>, y: T)
    requires IsSubsequence(xs, ys)
    ensures IsSubsequence(xs, ys + [y])
    ensures IsSubsequence(xs + [y], ys + [y])
  {
    assert (ys + [y])[..|ys|] == ys;
    assert (xs + [y])[..|xs|] == xs;
  }

  /** filter keeps tuples of its input, unchanged and in input order. */
  lemma {:induction false} FilterKeepsOrder(td: TupleDesc, tuples: seq<Tuple>, preds: seq<FilterPredicate>)
    requires Aligned(td, tuples)
    ensures IsSubsequence(FilterRun(td, tuples, preds).rows, tuples)
  {
    if tuples != [] {
      var front := tuples[..|tuples| - 1];
      var last := tuples[|tuples| - 1];
      assert Aligned(td, front);
      FilterKeepsOrder(td, front, preds);
      assert tuples == front + [last];
      SubsequenceExtend(FilterRun(td, front, preds).rows, front, last);
    }
  }

  /** Every tuple filter writes satisfies every predicate. */
  lemma {:induction false} FilterRowsSatisfy(td: TupleDesc, tuples: seq<Tuple>, preds: seq<FilterPredicate>)
    requires Aligned(td, tuples)
    ensures forall t :: t in FilterRun(td, tuples, preds).rows ==> |t| == |td| && Satisfies(td, t, preds)
  {
    if tuples != [] {
      var front := tuples[..|tuples| - 1];
      var last := tuples[|tuples| - 1];
      assert Aligned(td, front);
      FilterRowsSatisfy(td, front, preds);
      MatchesDecidesConjunction(td, last, preds);
    }
  }

  /** When filter completes it has written every input tuple that satisfies
      every predicate. */
  lemma {:induction false} FilterKeepsSatisfying(td: TupleDesc, tuples: seq<Tuple>, preds: seq<FilterPredicate>)
    requires Aligned(td, tuples)
    ensures var run := FilterRun(td, tuples, preds);
      run.status.Done? ==> forall k :: 0 <= k < |tuples| && Satisfies(td, tuples[k], preds) ==> tuples[k] in run.rows
  {
    if tuples != [] {
      var front := tuples[..|tuples| - 1];
      var last := tuples[|tuples| - 1];
      assert Aligned(td, front);
      FilterKeepsSatisfying(td, front, preds);
      MatchesDecidesConjunction(td, last, preds);
      assert forall k :: 0 <= k < |front| ==> front[k] == tuples[k];
    }
  }

  /** filter fails exactly when it meets a predicate whose name the schema does
      not know, and then it has written nothing; an empty input never fails. */
  lemma {:induction false} FilterFailsOnlyOnUnknownName(td: TupleDesc, tuples: seq<Tuple>, preds: seq<FilterPredicate>)
    requires Aligned(td, tuples)
    ensures NamesKnown(td, preds) ==> FilterRun(td, tuples, preds).status.Done?
    ensures FilterRun(td, tuples, preds).status.Failed? ==>
      FilterRun(td, tuples, preds).rows == [] && !NamesKnown(td, preds)
    ensures tuples == [] ==> FilterRun(td, tuples, preds) == Run([], Done)
  {
    if tuples != [] {
      var front := tuples[..|tuples| - 1];
      var last := tuples[|tuples| - 1];
      assert Aligned(td, front);
      FilterFailsOnlyOnUnknownName(td, front, preds);
      MatchesDecidesConjunction(td, last, preds);
      var prev := FilterRun(td, front, preds);
      FilterRowsSatisfy(td, front, preds);
      if prev.rows != [] {
        assert Satisfies(td, prev.rows[0], preds);
      }
    }
  }

  /** filter fails exactly when the predicate loop fails on some input tuple. */
  lemma {:induction false} FilterFailsExactly(td: TupleDesc, tuples: seq<Tuple>, preds: seq<FilterPredicate>)
    requires Aligned(td, tuples)
    ensures FilterRun(td, tuples, preds).status.Failed? <==>
      exists k :: 0 <= k < |tuples| && Matches(td, tuples[k], preds).Err?
  {
    if tuples != [] {
      var front := tuples[..|tuples| - 1];
      assert Aligned(td, front);
      FilterFailsExactly(td, front, preds);
      assert forall k :: 0 <= k < |front| ==> front[k] == tuples[k];
    }
  }

  /** When the first failing tuple is tuples[k], filter ends with its error,
      having written the selection of the tuples before it. */
  lemma FilterFailsAtFirst(td: TupleDesc, tuples: seq<Tuple>, preds: seq<FilterPredicate>, k: nat)
    requires Aligned(td, tuples) && k < |tuples|
    requires Matches(td, tuples[k], preds).Err?
    requires forall i :: 0 <= i < k ==> Matches(td, tuples[i], preds).Ok?
    ensures FilterRun(td, tuples, preds).status == Failed(Matches(td, tuples[k], preds).error)
    ensures Aligned(td, tuples[..k]) && FilterRun(td, tuples, preds).rows == Select(td, tuples[..k], preds)
  {
    var before := tuples[..k];
    var upTo := tuples[..k + 1];
    assert Aligned(td, before) && Aligned(td, upTo);
    FilterFailsExactly(td, before, preds);
    FilterIsSelection(td, before, preds);
    assert upTo[..k] == before && upTo[k] == tuples[k];
    FilterFailureIsFinal(td, tuples, preds, k + 1);
  }

  /** A false predicate stops the loop before a later unknown name is looked up:
      with schema (a), the tuple (10) and the predicates a < 5, z == 0, filter
      completes and writes nothing. */
  lemma ShortCircuitExample()
    ensures var td := ["a"];
      var preds := [FilterPredicate("a", LT, IntField(5)), FilterPredicate("z", EQ, IntField(0))];
      Aligned(td, [[IntField(10)]]) && FilterRun(td, [[IntField(10)]], preds) == Run([], Done)
  {
    var td := ["a"];
    var t := [IntField(10)];
    var preds := [FilterPredicate("a", LT, IntField(5)), FilterPredicate("z", EQ, IntField(0))];
    assert IndexOf(td, "a") == Ok(0);
    assert Matches(td, t, preds) == Ok(false);
    assert [t][..0] == [];
  }

  /** The reference selection: the input tuples that satisfy every predicate,
      each copy kept, in input order. */
  ghost function Select(td: TupleDesc, tuples: seq<Tuple>, preds: seq<FilterPredicate>): seq<Tuple>
    requires Aligned(td, tuples)
  {
    if tuples == [] then []
    else
      var last := tuples[|tuples| - 1];
      assert Aligned(td, tuples[..|tuples| - 1]);
      Select(td, tuples[..|tuples| - 1], preds) + (if Satisfies(td, last, preds) then [last] else [])
  }

  /** When filter completes, it has written exactly the selection of its input. */
  lemma {:induction false} FilterIsSelection(td: TupleDesc, tuples: seq<Tuple>, preds: seq<FilterPredicate>)
    requires Aligned(td, tuples)
    ensures FilterRun(td, tuples, preds).status.Done? ==> FilterRun(td, tuples, preds).rows == Select(td, tuples, preds)
  {
    if tuples != [] {
      var front := tuples[..|tuples| - 1];
      assert Aligned(td, front);
      FilterIsSelection(td, front, preds);
      MatchesDecidesConjunction(td, tuples[|tuples| - 1], preds);
    }
  }

  /** With no predicate every tuple is selected. */
  lemma {:induction false} SelectWithoutPredicates(td: TupleDesc, tuples: seq<Tuple>)
    requires Aligned(td, tuples)
    ensures Select(td, tuples, []) == tuples
  {
    if tuples != [] {
      var front := tuples[..|tuples| - 1];
      assert Aligned(td, front);
      SelectWithoutPredicates(td, front);
      assert Satisfies(td, tuples[|tuples| - 1], []);
      assert tuples == front + [tuples[|tuples| - 1]];
    }
  }

  /** An empty predicate list copies the whole input. */
  lemma FilterWithoutPredicates(td: TupleDesc, tuples: seq<Tuple>)
    requires Aligned(td, tuples)
    ensures FilterRun(td, tuples, []).status == Done
    ensures FilterRun(td, tuples, []).rows == tuples
  {
    FilterFailsOnlyOnUnknownName(td, tuples, []);
    FilterIsSelection(td, tuples, []);
    SelectWithoutPredicates(td, tuples);
  }

  /** The inner loop of filter: evaluates the predicates in turn and breaks at
      the first false one. */
  method EvaluatePredicates(td: TupleDesc, tuple: Tuple, pred: seq<FilterPredicate>) returns (r: Result<bool>)
    requires |tuple| == |td|
    ensures r == Matches(td, tuple, pred)
  {
    var matches := true;
    var j := 0;
    while j < |pred|
      invariant 0 <= j <= |pred|
      invariant matches ==> Matches(td, tuple, pred) == Matches(td, tuple, pred[j..])
      invariant !matches ==> Matches(td, tuple, pred) == Ok(false)
      decreases if matches then |pred| - j else 0
    {
      var index := IndexOf(td, pred[j].fieldName);
      if index.Err? {
        return Err(index.error);
      }
      var field := tuple[index.value];
      if !EvaluatePredicate(field, pred[j].op, pred[j].value) {
        matches := false;
        break;
      }
      assert pred[j..][1..] == pred[j + 1..];
      j := j + 1;
    }
    return Ok(matches);
  }

  /** filter: for each input tuple, evaluates the predicates until one is false
      and inserts the tuple if none was. */
  method Filter(input: DbFile, out: DbFile, pred: seq<FilterPredicate>) returns (status: Status)
    requires input != out && input.Valid()
    modifies out
    ensures var run := FilterRun(input.td, input.tuples, pred);
      status == run.status && out.tuples == old(out.tuples) + run.rows
  {
    status := Done;
    var td, tuples := input.td, input.tuples;
    ghost var start := out.tuples;
    for k := 0 to |tuples|
      invariant Aligned(td, tuples[..k])
      invariant FilterRun(td, tuples[..k], pred).status == Done
      invariant out.tuples == start + FilterRun(td, tuples[..k], pred).rows
    {
      var tuple := tuples[k];
      assert tuples[..k + 1][..k] == tuples[..k];
      assert Aligned(td, tuples[..k + 1]);
      var matches := EvaluatePredicates(td, tuple, pred);
      if matches.Err? {
        FilterFailureIsFinal(td, tuples, pred, k + 1);
        return Failed(matches.error);
      }
      if matches.value {
        out.InsertTuple(tuple);
      }
    }
    assert tuples[..|tuples|] == tuples;
  }

  /** Once a prefix of the input fails, filter stops there. */
  lemma {:induction false} FilterFailureIsFinal(td: TupleDesc, tuples: seq<Tuple>, preds: seq<FilterPredicate>, k: nat)
    requires Aligned(td, tuples) && k <= |tuples|
    requires Aligned(td, tuples[..k]) && FilterRun(td, tuples[..k], preds).status.Failed?
    ensures FilterRun(td, tuples, preds) == FilterRun(td, tuples[..k], preds)
  {
    if k < |tuples| {
      var front := tuples[..|tuples| - 1];
      assert front[..k] == tuples[..k];
      assert Aligned(td, front);
      FilterFailureIsFinal(td, front, preds, k);
    } else {
      assert tuples[..k] == tuples;
    }
  }

  // ---- join ----

  /** A join predicate: left field name, operator, right field name. */
  datatype JoinPredicate = JoinPredicate(left: string, op: PredicateOp, right: string)

  /** A joined tuple: every left field, then every right field except position
      r when skipDup holds. */
  function Joined(lt: Tuple, rt: Tuple, r: nat, skipDup: bool): Tuple
    requires r < |rt|
  {
    lt + (if skipDup then rt[..r] + rt[r + 1..] else rt)
  }

  /** The joined tuples one left tuple contributes, right tuples in order. */
  function MatchRow(lt: Tuple, rts: seq<Tuple>, l: nat, r: nat, op: PredicateOp): seq<Tuple>
    requires l < |lt| && forall k :: 0 <= k < |rts| ==> r < |rts[k]|
  {
    if rts == [] then []
    else
      var last := rts[|rts| - 1];
      MatchRow(lt, rts[..|rts| - 1], l, r, op) +
      (if EvaluatePredicate(lt[l], op, last[r]) then [Joined(lt, last, r, op == EQ)] else [])
  }

  /** The nested loops: left tuples in order, and for each the right tuples in order. */
  function CrossMatches(lts: seq<Tuple>, rts: seq<Tuple>, l: nat, r: nat, op: PredicateOp): seq<Tuple>
    requires forall k :: 0 <= k < |lts| ==> l < |lts[k]|
    requires forall k :: 0 <= k < |rts| ==> r < |rts[k]|
  {
    if lts == [] then []
    else CrossMatches(lts[..|lts| - 1], rts, l, r, op) + MatchRow(lts[|lts| - 1], rts, l, r, op)
  }

  /** What join appends: both names are resolved first, so an unknown one fails
      even on empty inputs; the join itself cannot fail. */
  function JoinRun(ltd: TupleDesc, lts: seq<Tuple>, rtd: TupleDesc, rts: seq<Tuple>, pred: JoinPredicate): Run
    requires Aligned(ltd, lts) && Aligned(rtd, rts)
  {
    match IndexOf(ltd, pred.left)
    case Err(e) => Run([], Failed(e))
    case Ok(l) =>
      match IndexOf(rtd, pred.right)
      case Err(e) => Run([], Failed(e))
      case Ok(r) => Run(CrossMatches(lts, rts, l, r, pred.op), Done)
  }

  /** Every tuple one left tuple contributes is that tuple joined with a
      matching right tuple, and every matching right tuple contributes one. */
  lemma {:induction false} MatchRowMembers(lt: Tuple, rts: seq<Tuple>, l: nat, r: nat, op: PredicateOp)
    requires l < |lt| && forall k :: 0 <= k < |rts| ==> r < |rts[k]|
    ensures forall t :: t in MatchRow(lt, rts, l, r, op) <==>
      exists j :: 0 <= j < |rts| && EvaluatePredicate(lt[l], op, rts[j][r]) && t == Joined(lt, rts[j], r, op == EQ)
  {
    if rts != [] {
      var front := rts[..|rts| - 1];
      MatchRowMembers(lt, front, l, r, op);
      assert forall j :: 0 <= j < |front| ==> front[j] == rts[j];
    }
  }

  /** The join output holds exactly the joined tuples of the matching pairs. */
  lemma {:induction false} CrossMatchesMembers(lts: seq<Tuple>, rts: seq<Tuple>, l: nat, r: nat, op: PredicateOp)
    requires forall k :: 0 <= k < |lts| ==> l < |lts[k]|
    requires forall k :: 0 <= k < |rts| ==> r < |rts[k]|
    ensures forall t :: t in CrossMatches(lts, rts, l, r, op) <==>
      exists i, j :: 0 <= i < |lts| && 0 <= j < |rts| &&
        EvaluatePredicate(lts[i][l], op, rts[j][r]) && t == Joined(lts[i], rts[j], r, op == EQ)
  {
    if lts != [] {
      var front := lts[..|lts| - 1];
      var last := lts[|lts| - 1];
      CrossMatchesMembers(front, rts, l, r, op);
      MatchRowMembers(last, rts, l, r, op);
      assert forall i :: 0 <= i < |front| ==> front[i] == lts[i];
      forall t | t in CrossMatches(lts, rts, l, r, op)
        ensures exists i, j ::
          0 <= i < |lts| && 0 <= j < |rts| &&
          EvaluatePredicate(lts[i][l], op, rts[j][r]) && t == Joined(lts[i], rts[j], r, op == EQ)
      {
        if t !in CrossMatches(front, rts, l, r, op) {
          var j :| 0 <= j < |rts| && EvaluatePredicate(last[l], op, rts[j][r]) && t == Joined(last, rts[j], r, op == EQ);
          assert lts[|lts| - 1] == last;
        }
      }
      forall i, j | 0 <= i < |lts| && 0 <= j < |rts| && EvaluatePredicate(lts[i][l], op, rts[j][r])
        ensures Joined(lts[i], rts[j], r, op == EQ) in CrossMatches(lts, rts, l, r, op)
      {
        if i < |front| {
          assert front[i] == lts[i];
        }
      }
    }
  }

  lemma MatchRowStep(lt: Tuple, rts: seq<Tuple>, l: nat, r: nat, op: PredicateOp, b: nat)
    requires l < |lt| && forall k :: 0 <= k < |rts| ==> r < |rts[k]|
    requires b < |rts|
    ensures MatchRow(lt, rts[..b + 1], l, r, op) == MatchRow(lt, rts[..b], l, r, op) +
      (if EvaluatePredicate(lt[l], op, rts[b][r]) then [Joined(lt, rts[b], r, op == EQ)] else [])
  {
    assert rts[..b + 1][..b] == rts[..b];
  }

  lemma CrossMatchesStep(lts: seq<Tuple>, rts: seq<Tuple>, l: nat, r: nat, op: PredicateOp, a: nat)
    requires forall k :: 0 <= k < |lts| ==> l < |lts[k]|
    requires forall k :: 0 <= k < |rts| ==> r < |rts[k]|
    requires a < |lts|
    ensures CrossMatches(lts[..a + 1], rts, l, r, op) == CrossMatches(lts[..a], rts, l, r, op) + MatchRow(lts[a], rts, l, r, op)
  {
    assert lts[..a + 1][..a] == lts[..a];
  }

  /** The nested loops distribute over the left input: the tuples contributed
      by an earlier stretch of left tuples all come before those of a later one. */
  lemma {:induction false} CrossMatchesAppend(front: seq<Tuple>, back: seq<Tuple>, rts: seq<Tuple>, l: nat, r: nat, op: PredicateOp)
    requires forall k :: 0 <= k < |front| ==> l < |front[k]|
    requires forall k :: 0 <= k < |back| ==> l < |back[k]|
    requires forall k :: 0 <= k < |rts| ==> r < |rts[k]|
    ensures CrossMatches(front + back, rts, l, r, op) ==
      CrossMatches(front, rts, l, r, op) + CrossMatches(back, rts, l, r, op)
  {
    if back == [] {
      assert front + back == front;
    } else {
      var init := back[..|back| - 1];
      assert (front + back)[..|front + back| - 1] == front + init;
      assert (front + back)[|front + back| - 1] == back[|back| - 1];
      CrossMatchesAppend(front, init, rts, l, r, op);
    }
  }

  /** Every joined tuple has all left fields followed by all right fields, less
      the right join field under EQ. Under EQ that dropped field equals the left
      join field, so the right tuple can be read back from the joined one. */
  lemma JoinedShape(lt: Tuple, rt: Tuple, l: nat, r: nat, op: PredicateOp)
    requires l < |lt| && r < |rt| && EvaluatePredicate(lt[l], op, rt[r])
    ensures var t := Joined(lt, rt, r, op == EQ);
      |t| == |lt| + |rt| - (if op == EQ then 1 else 0) && t[..|lt|] == lt &&
      (op != EQ ==> t[|lt|..] == rt) &&
      (op == EQ ==> t[|lt|..|lt| + r] + [t[l]] + t[|lt| + r..] == rt)
  {
    var t := Joined(lt, rt, r, op == EQ);
    if op == EQ {
      assert t[|lt|..|lt| + r] == rt[..r];
      assert t[|lt| + r..] == rt[r + 1..];
      assert rt[..r] + [rt[r]] + rt[r + 1..] == rt;
    }
  }

  /** With both names known, join cannot fail, and it writes nothing when no
      pair satisfies the predicate. */
  lemma JoinWithoutMatches(ltd: TupleDesc, lts: seq<Tuple>, rtd: TupleDesc, rts: seq<Tuple>, pred: JoinPredicate)
    requires Aligned(ltd, lts) && Aligned(rtd, rts) && pred.left in ltd && pred.right in rtd
    requires var l, r := IndexOf(ltd, pred.left).value, IndexOf(rtd, pred.right).value;
      forall i, j :: 0 <= i < |lts| && 0 <= j < |rts| ==> !EvaluatePredicate(lts[i][l], pred.op, rts[j][r])
    ensures JoinRun(ltd, lts, rtd, rts, pred) == Run([], Done)
  {
    var l, r := IndexOf(ltd, pred.left).value, IndexOf(rtd, pred.right).value;
    CrossMatchesMembers(lts, rts, l, r, pred.op);
    NoMemberIsEmpty(CrossMatches(lts, rts, l, r, pred.op));
  }

  lemma NoMemberIsEmpty<T>(s: seq<T>)
    ensures (forall t :: t !in s) ==> s == []
  {
    if s != [] {
      assert s[0] in s;
    }
  }

  /** An equi-join of [(1, "a"), (2, "b")] with [(1, "x"), (3, "y")] on the
      first fields writes the one tuple (1, "a", "x"). */
  lemma EquiJoinExample()
    ensures JoinRun(["id", "name"], [[IntField(1), StringField("a")], [IntField(2), StringField("b")]],
                    ["id", "tag"], [[IntField(1), StringField("x")], [IntField(3), StringField("y")]],
                    JoinPredicate("id", EQ, "id"))
      == Run([[IntField(1), StringField("a"), StringField("x")]], Done)
  {
    var lts := [[IntField(1), StringField("a")], [IntField(2), StringField("b")]];
    var rts := [[IntField(1), StringField("x")], [IntField(3), StringField("y")]];
    assert lts[..1] == [lts[0]] && rts[..1] == [rts[0]];
    assert Joined(lts[0], rts[0], 0, true) == [IntField(1), StringField("a"), StringField("x")];
    assert MatchRow(lts[0], rts[..1], 0, 0, EQ) == [Joined(lts[0], rts[0], 0, true)];
    assert MatchRow(lts[1], rts[..1], 0, 0, EQ) == [];
    assert MatchRow(lts[0], rts, 0, 0, EQ) == [[IntField(1), StringField("a"), StringField("x")]];
    assert MatchRow(lts[1], rts, 0, 0, EQ) == [];
    assert CrossMatches(lts[..1], rts, 0, 0, EQ) == MatchRow(lts[0], rts, 0, 0, EQ);
  }

  /** The field loops of join: every left field, then every right field but
      position r when duplicates are skipped. */
  method JoinFields(lTup: Tuple, rTup: Tuple, lSize: nat, rSize: nat, r: nat, skipDups: bool)
    returns (joinedFields: Tuple)
    requires |lTup| == lSize && |rTup| == rSize && r < rSize
    ensures joinedFields == Joined(lTup, rTup, r, skipDups)
  {
    joinedFields := [];
    for i := 0 to lSize
      invariant joinedFields == lTup[..i]
    {
      joinedFields := joinedFields + [lTup[i]];
    }
    assert lTup[..|lTup|] == lTup;
    for i := 0 to rSize
      invariant joinedFields == lTup + (if skipDups && r < i then rTup[..r] + rTup[r + 1..i] else rTup[..i])
    {
      if i == r && skipDups {
        continue;
      }
      if skipDups && r < i {
        assert rTup[r + 1..i + 1] == rTup[r + 1..i] + [rTup[i]];
      } else {
        assert rTup[..i + 1] == rTup[..i] + [rTup[i]];
      }
      joinedFields := joinedFields + [rTup[i]];
    }
    assert rTup[..|rTup|] == rTup;
  }

  /** The inner loop of join: the right tuples in order, appending the joined
      tuple of each one the predicate holds for. */
  method JoinRow(lTup: Tuple, lField: Field, rts: seq<Tuple>, lSize: nat, rSize: nat, l: nat, r: nat,
                 op: PredicateOp, out: DbFile)
    requires |lTup| == lSize && l < lSize && lField == lTup[l]
    requires r < rSize && forall k :: 0 <= k < |rts| ==> |rts[k]| == rSize
    modifies out
    ensures out.tuples == old(out.tuples) + MatchRow(lTup, rts, l, r, op)
  {
    var skipDups := op == EQ;
    ghost var start := out.tuples;
    for b := 0 to |rts|
      invariant out.tuples == start + MatchRow(lTup, rts[..b], l, r, op)
    {
      var rTup := rts[b];
      var rField := rTup[r];
      MatchRowStep(lTup, rts, l, r, op, b);
      if EvaluatePredicate(lField, op, rField) {
        var joinedFields := JoinFields(lTup, rTup, lSize, rSize, r, skipDups);
        out.InsertTuple(joinedFields);
      }
    }
    assert rts[..|rts|] == rts;
  }

  /** join: the nested loops over the left and right tuples, inserting the
      joined tuple of every pair the predicate holds for. */
  method Join(left: DbFile, right: DbFile, out: DbFile, pred: JoinPredicate) returns (status: Status)
    requires left != out && right != out && left.Valid() && right.Valid()
    modifies out
    ensures var run := JoinRun(left.td, left.tuples, right.td, right.tuples, pred);
      status == run.status && out.tuples == old(out.tuples) + run.rows
  {
    var lTd, rTd := left.td, right.td;
    var lIndex := IndexOf(lTd, pred.left);
    if lIndex.Err? {
      return Failed(lIndex.error);
    }
    var rIndex := IndexOf(rTd, pred.right);
    if rIndex.Err? {
      return Failed(rIndex.error);
    }
    status := Done;
    var l, r := lIndex.value, rIndex.value;
    var lts, rts := left.tuples, right.tuples;
    ghost var start := out.tuples;
    for a := 0 to |lts|
      invariant out.tuples == start + CrossMatches(lts[..a], rts, l, r, pred.op)
    {
      var lTup := lts[a];
      var lField := lTup[l];
      assert |lTup| == |lTd|;
      CrossMatchesStep(lts, rts, l, r, pred.op, a);
      JoinRow(lTup, lField, rts, |lTd|, |rTd|, l, r, pred.op, out);
    }
    assert lts[..|lts|] == lts;
  }
}
