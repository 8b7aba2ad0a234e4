/** Tuples, schemas and the tuple files the operators read and write. Only
    their interface is modelled: a schema is its list of field names, a file is
    its list of tuples, insertion appends. */
module Tuples {
  import opened Common
  import opened Fields

  type Tuple = seq<Field>

  /** A tuple descriptor: the field names, by position. */
  type TupleDesc = seq<string>

  /** index_of: the position of a name in the schema, or UnknownField. */
  function IndexOf(td: TupleDesc, name: string): (r: Result<nat>)
    ensures r.Ok? <==> name in td
    ensures r.Ok? ==> r.value < |td| && td[r.value] == name
    ensures r.Ok? ==> forall j :: 0 <= j < r.value ==> td[j] != name
    ensures r.Err? ==> r.error == UnknownField(name)
  {
    if td == [] then Err(UnknownField(name))
    else if td[0] == name then Ok(0)
    else match IndexOf(td[1..], name)
      case Ok(i) => Ok(i + 1)
      case Err(e) => Err(e)
  }

  /** The first name of the list that the schema does not know. */
  function FirstUnknown(td: TupleDesc, names: seq<string>): (i: nat)
    requires exists j :: 0 <= j < |names| && names[j] !in td
    ensures i < |names| && names[i] !in td
    ensures forall j :: 0 <= j < i ==> names[j] in td
  {
    if names[0] !in td then 0 else 1 + FirstUnknown(td, names[1..])
  }

  /** Looks every name up in turn, stopping at the first unknown one: the
      indices projection resolves for each tuple. */
  function Resolve(td: TupleDesc, names: seq<string>): (r: Result<seq<nat>>)
    ensures r.Ok? <==> forall j :: 0 <= j < |names| ==> names[j] in td
    ensures r.Ok? ==> |r.value| == |names|
    ensures r.Ok? ==> forall j :: 0 <= j < |names| ==> IndexOf(td, names[j]) == Ok(r.value[j])
    ensures r.Err? ==> r.error == UnknownField(names[FirstUnknown(td, names)])
  {
    if names == [] then Ok([])
    else
      var front := names[..|names| - 1];
      assert forall j :: 0 <= j < |front| ==> front[j] == names[j];
      match Resolve(td, front)
      case Err(e) => Err(e)
      case Ok(idx) =>
        match IndexOf(td, names[|names| - 1])
        case Err(e) => Err(e)
        case Ok(i) => Ok(idx + [i])
  }

  /** Resolving one more name extends the indices by its position. */
  lemma ResolveStep(td: TupleDesc, names: seq<string>, j: nat)
    requires j < |names| && Resolve(td, names[..j]).Ok? && names[j] in td
    ensures Resolve(td, names[..j + 1]) == Ok(Resolve(td, names[..j]).value + [IndexOf(td, names[j]).value])
  {
    assert names[..j + 1][..j] == names[..j];
  }

  /** The first unknown name is the one resolution reports. */
  lemma ResolveFailsAt(td: TupleDesc, names: seq<string>, j: nat)
    requires j < |names| && Resolve(td, names[..j]).Ok? && names[j] !in td
    ensures Resolve(td, names) == Err(UnknownField(names[j]))
  {
    assert forall i :: 0 <= i < j ==> names[..j][i] == names[i];
  }

  /** The fields of a tuple at the given positions, in the given order. */
  function Pick(t: Tuple, idx: seq<nat>): (r: Tuple)
    requires forall j :: 0 <= j < |idx| ==> idx[j] < |t|
    ensures |r| == |idx| && forall j :: 0 <= j < |idx| ==> r[j] == t[idx[j]]
  {
    seq(|idx|, j requires 0 <= j < |idx| => t[idx[j]])
  }

  /** Picking one more position appends that field. */
  lemma PickStep(t: Tuple, idx: seq<nat>, i: nat)
    requires forall j :: 0 <= j < |idx| ==> idx[j] < |t|
    requires i < |t|
    ensures Pick(t, idx + [i]) == Pick(t, idx) + [t[i]]
  {
  }

  /** Every tuple has one field per schema position. */
  ghost predicate Aligned(td: TupleDesc, tuples: seq<Tuple>)
  {
    forall k :: 0 <= k < |tuples| ==> |tuples[k]| == |td|
  }

  /** A tuple file: read by iteration, written by insertTuple. */
  class DbFile {
    const td: TupleDesc
    var tuples: seq<Tuple>

    ghost predicate Valid()
      reads this
    {
      Aligned(td, tuples)
    }

    constructor (td: TupleDesc, tuples: seq<Tuple>)
      ensures this.td == td && this.tuples == tuples
    {
      this.td := td;
      this.tuples := tuples;
    }

    /** insertTuple: appends, and always succeeds. */
    method InsertTuple(t: Tuple)
      modifies this
      ensures tuples == old(tuples) + [t]
    {
      tuples := tuples + [t];
    }
  }

  /** How an operator call ended. */
  datatype Status = Done | Failed(error: Error)

  /** What an operator call does to its output file: the tuples it appends
      before it completes or throws, and how it ends. */
  datatype Run = Run(rows: seq<Tuple>, status: Status)
}
