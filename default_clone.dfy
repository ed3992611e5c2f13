/** The default cloner of src/defaultClone.ts: a shallow copy made by spreading. */
module Cloning {
  import opened Values

  /** `{ ...item }`: a new object holding the item's own properties. Nested values
      are shared, not copied; spreading null, undefined, a boolean or a number
      gives `{}`, spreading an array or string gives its indices. */
  function DefaultClone(item: Value): (r: Value)
    ensures r.Obj?
    ensures item.Obj? ==> r.fields.Keys == item.fields.Keys
    ensures item.Obj? ==> forall k | k in item.fields :: r.fields[k] == item.fields[k]
    ensures !IsObject(item) && !item.Str? ==> r.fields == map[]
  {
    Obj(Spread(item))
  }
}
