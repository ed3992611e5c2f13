/** The extractor of the current generation, src/helpers/extractorFor.ts: a key
    function is checked first, then any other object (a nested schema), and
    anything else is a property name. Values that are not objects pass through. */
module ExtractorFor {
  import opened Outcome
  import opened Values
  import opened Keys
  import Accessor
  import Facade

  /** `extractor(key)` behind `thru`, applied to one value. An array key object
      has no `normalize`, so calling it throws. */
  function ExtractOne(key: Part, v: Value): (r: Result<Value>)
    ensures !IsObject(v) ==> r == Ok(v)
  {
    if !IsObject(v) then Ok(v)
    else
      match key
      case Func(f) => Ok(f.call(v, Undefined))
      case Nested(sc) => Facade.Normalize(sc, v)
      case Tuple(_) => TypeError
      case Name(k) => GetProp(v, k)
      case Absent => GetProp(v, "undefined")
  }

  /** `extractorFor(prop, key, isArrayKey)` applied to an item: reading the
      property of null or undefined throws; in array mode a missing or falsy
      property extracts as `[]` and an array extracts element by element; a
      property that is not an object (a reference already) passes through. */
  function Extract(e: Entity, item: Value): (r: Result<Value>)
    ensures Nullish(item) ==> r == TypeError
    ensures e.isArray && r.Ok? ==> r.value.Arr?
    ensures e.isArray && item.Obj? && (e.prop !in item.fields || !Truthy(item.fields[e.prop])) ==> r == Ok(Arr([]))
    ensures e.isArray && item.Obj? && e.prop in item.fields && item.fields[e.prop].Arr? && r.Ok? ==>
              |r.value.elems| == |item.fields[e.prop].elems|
    ensures !e.isArray && item.Obj? && e.prop in item.fields && !IsObject(item.fields[e.prop]) ==>
              r == Ok(item.fields[e.prop])
  {
    Accessor.Access(item, e.prop, e.isArray, v => ExtractOne(e.key, v))
  }

  /** On every key a descriptor can hold, both generations extract alike. */
  lemma ExtractAgrees(key: Part, v: Value)
    requires !key.Absent?
    ensures ExtractOne(key, v) == Facade.ExtractOne(key, v)
  {
  }

  lemma ExtractAgreesOnEntity(e: Entity, item: Value)
    requires !e.key.Absent?
    ensures Extract(e, item) == Facade.Extract(e, item)
  {
    forall v ensures ExtractOne(e.key, v) == Facade.ExtractOne(e.key, v) {
      ExtractAgrees(e.key, v);
    }
    var r1, r2 := Extract(e, item), Facade.Extract(e, item);
    if !Nullish(item) && e.isArray && Accessor.Read(item, e.prop).value.Arr? {
      var xs := Accessor.Read(item, e.prop).value.elems;
      if r1.Ok? && r2.Ok? {
        assert r1.value.elems == r2.value.elems;
      }
    }
  }

  /** What a normalized property holds: a reference that is not an object, or
      for array keys an array of such references. */
  predicate IsReference(isArray: bool, v: Value) {
    if isArray then v.Arr? && forall i | 0 <= i < |v.elems| :: !IsObject(v.elems[i])
    else !IsObject(v)
  }

  /** Extracting from a property that already holds references gives them back
      unchanged, whatever the key: this is what makes normalizing twice a no-op. */
  lemma ExtractReference(e: Entity, m: map<string, Value>)
    requires e.prop in m && IsReference(e.isArray, m[e.prop])
    ensures Extract(e, Obj(m)) == Ok(m[e.prop])
  {
    if e.isArray {
      var xs := m[e.prop].elems;
      var r := Extract(e, Obj(m));
      assert r.value.elems == xs;
    }
  }

  /** The legacy extractor gives references back unchanged too. */
  lemma LegacyExtractReference(e: Entity, m: map<string, Value>)
    requires e.prop in m && IsReference(e.isArray, m[e.prop])
    ensures Facade.Extract(e, Obj(m)) == Ok(m[e.prop])
  {
    if e.isArray {
      var xs := m[e.prop].elems;
      var r := Facade.Extract(e, Obj(m));
      assert r.value.elems == xs;
    }
  }

  /** `movies: ['id']` and `movies: [m => m.id]` both turn two movies into the
      references `[1, 2]`. */
  lemma MovieIds(id: Fn, name: string, m1: Value, m2: Value)
    requires m1 == Obj(map["id" := Num(1)]) && m2 == Obj(map["id" := Num(2)])
    requires id.call(m1, Undefined) == Num(1) && id.call(m2, Undefined) == Num(2)
    ensures Extract(Entity(name, "movies", DefaultMerge, Name("id"), true), Obj(map["movies" := Arr([m1, m2])])) ==
            Ok(Arr([Num(1), Num(2)]))
    ensures Extract(Entity(name, "movies", DefaultMerge, Func(id), true), Obj(map["movies" := Arr([m1, m2])])) ==
            Ok(Arr([Num(1), Num(2)]))
  {
    var byName := Extract(Entity(name, "movies", DefaultMerge, Name("id"), true), Obj(map["movies" := Arr([m1, m2])]));
    assert byName.value.elems == [Num(1), Num(2)];
    var byFn := Extract(Entity(name, "movies", DefaultMerge, Func(id), true), Obj(map["movies" := Arr([m1, m2])]));
    assert byFn.value.elems == [Num(1), Num(2)];
  }
}
