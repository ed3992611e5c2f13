/** The default merge strategy of src/helpers/default-merge.ts. */
module Merging {
  import opened Values

  /** `{ ...a, ...b }`: every key of either side, and b's value wherever both have one. */
  function DefaultMerge(a: Value, b: Value): (r: Value)
    ensures r.Obj?
    ensures r.fields.Keys == Spread(a).Keys + Spread(b).Keys
    ensures forall k | k in Spread(b) :: r.fields[k] == Spread(b)[k]
    ensures forall k | k in Spread(a) && k !in Spread(b) :: r.fields[k] == Spread(a)[k]
  {
    Obj(Spread(a) + Spread(b))
  }

  /** Merging an object into `{}` gives an object with exactly its entries. */
  lemma MergeIntoEmpty(b: Value)
    requires b.Obj?
    ensures DefaultMerge(Obj(map[]), b) == b
  {
    assert Spread(Obj(map[])) + b.fields == b.fields;
  }

  /** Merging an object with itself gives an object with exactly its entries. */
  lemma MergeSelf(a: Value)
    requires a.Obj?
    ensures DefaultMerge(a, a) == a
  {
    assert a.fields + a.fields == a.fields;
  }
}
