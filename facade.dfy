/** The schema facade of src/schema.ts together with everything that calls back
    into it: the legacy extractor (src/helpers/extractor.ts) and retriever
    (src/helpers/retriever.ts), whose nested-schema keys delegate to that
    schema's `normalize` and `denormalize`; the cloners (src/defaultClone.ts,
    src/helpers/linear.ts), whose linked properties are normalized by their own
    schemas; and clone-then-overwrite normalize and denormalize (src/normalize.ts,
    src/denormalize.ts over src/process.ts). The definitions recurse into one
    another and descend on the size of the schema they work for. */
module Facade {
  import opened Outcome
  import opened Values
  import opened Keys
  import Accessor
  import Cloning
  import Overwriting
  import LegacyEntity

  // ---------------------------------------------------------------- the extractor

  /** The per-value function of the legacy extractor behind `thru`: a string key
      projects, a function key is called, anything else is called as
      `key.normalize`, which only a nested schema has. Values that are not
      objects pass through. A string or function key never throws; on a plain
      object a string key reads that property, `undefined` when it is missing. */
  function ExtractOne(key: Part, v: Value): (r: Result<Value>)
    ensures !IsObject(v) ==> r == Ok(v)
    ensures key.Name? || key.Func? ==> r.Ok?
    ensures v.Obj? && key.Name? ==> r.value == if key.name in v.fields then v.fields[key.name] else Undefined
    ensures r.TypeError? ==> IsObject(v) && !key.Name? && !key.Func?
    ensures IsObject(v) && key.Name? ==> r == GetProp(v, key.name)
    ensures IsObject(v) && key.Func? ==> r == Ok(key.fn.call(v, Undefined))
    ensures IsObject(v) && key.Nested? ==> r == Normalize(key.schema, v)
    ensures IsObject(v) && (key.Tuple? || key.Absent?) ==> r == TypeError
    decreases PartSize(key), 0, 0
  {
    if !IsObject(v) then Ok(v)
    else
      match key
      case Name(k) => GetProp(v, k)
      case Func(f) => Ok(f.call(v, Undefined))
      case Nested(sc) => Normalize(sc, v)
      case _ => TypeError
  }

  /** `extractorFor(prop, key, wasArrayKey)` applied to an item: reading the
      property of null or undefined throws; in array mode a missing or falsy
      property extracts as `[]` and an array extracts element by element; a
      property that is not an object (a reference already) passes through. */
  function Extract(e: Entity, item: Value): (r: Result<Value>)
    ensures Nullish(item) ==> r == TypeError
    ensures e.isArray && r.Ok? ==> r.value.Arr?
    ensures e.isArray && item.Obj? && (e.prop !in item.fields || !Truthy(item.fields[e.prop])) ==> r == Ok(Arr([]))
    ensures e.isArray && item.Obj? && e.prop in item.fields && item.fields[e.prop].Arr? && r.Ok? ==>
              |r.value.elems| == |item.fields[e.prop].elems|
    ensures !e.isArray && item.Obj? && e.prop in item.fields && !IsObject(item.fields[e.prop]) ==>
              r == Ok(item.fields[e.prop])
    decreases PartSize(e.key), 1, 0
  {
    Accessor.Access(item, e.prop, e.isArray, v => ExtractOne(e.key, v))
  }

  /** Every descriptor's extract of the same item, in order. */
  function ExtractAll(s: Schema, es: seq<Entity>, item: Value): (r: Result<seq<Value>>)
    requires forall e | e in es :: PartSize(e.key) < SchemaSize(s)
    ensures r.Ok? <==> forall i | 0 <= i < |es| :: Extract(es[i], item).Ok?
    ensures r.Ok? ==> |r.value| == |es| && forall i | 0 <= i < |es| :: r.value[i] == Extract(es[i], item).value
    decreases SchemaSize(s), 1, |es|
  {
    if es == [] then Ok([])
    else
      var first :- Extract(es[0], item);
      var rest :- ExtractAll(s, es[1..], item);
      Ok([first] + rest)
  }

  // ---------------------------------------------------------------- the retriever

  /** `at(entities, name)`: a falsy table, or a falsy table under the name, reads as `{}`. */
  function TableAt(table: Value, name: string): (r: Value)
    ensures Truthy(r)
    ensures !Truthy(table) ==> r == Obj(map[])
  {
    if !Truthy(table) then Obj(map[])
    else
      var t := GetProp(table, name).value;
      if Truthy(t) then t else Obj(map[])
  }

  /** `at(entities, name)[ref] || ref`: the entity stored under the reference's
      key in the named table when that entry is truthy, and otherwise the
      reference itself; a falsy or missing table gives the reference back. */
  function Lookup(table: Value, name: string, ref: Value): (r: Value)
    ensures r == ref || Truthy(r)
    ensures !Truthy(table) ==> r == ref
    ensures table.Obj? && name !in table.fields ==> r == ref
    ensures table.Obj? && name in table.fields && table.fields[name].Obj? ==>
              var es := table.fields[name].fields;
              var k := KeyString(ref);
              r == if k in es && Truthy(es[k]) then es[k] else ref
  {
    var x := GetProp(TableAt(table, name), KeyString(ref)).value;
    if Truthy(x) then x else ref
  }

  /** The per-reference function of the legacy retriever: string and function
      keys look the reference up under the descriptor's name, anything else is
      called as `key.denormalize`, which only a nested schema has. A string or
      function key never throws and answers either the reference or a truthy
      entity. */
  function RetrieveOne(name: string, key: Part, ref: Value, table: Value): (r: Result<Value>)
    ensures key.Name? || key.Func? ==> r.Ok? && (r.value == ref || Truthy(r.value))
    ensures r.TypeError? ==> key.Nested? || key.Tuple? || key.Absent?
    ensures key.Name? || key.Func? ==> r == Ok(Lookup(table, name, ref))
    ensures key.Nested? ==> r == Denormalize(key.schema, ref, table)
    ensures key.Tuple? || key.Absent? ==> r == TypeError
    decreases PartSize(key), 0, 0
  {
    match key
    case Name(_) => Ok(Lookup(table, name, ref))
    case Func(_) => Ok(Lookup(table, name, ref))
    case Nested(sc) => Denormalize(sc, ref, table)
    case _ => TypeError
  }

  /** `retrieverFor(prop, key, name, wasArrayKey)` applied to an item and a table:
      reading the property of null or undefined throws; in array mode a missing
      or falsy property retrieves as `[]` and an array element by element; a
      single string or function key never throws on an object. */
  function Retrieve(e: Entity, item: Value, table: Value): (r: Result<Value>)
    ensures Nullish(item) ==> r == TypeError
    ensures e.isArray && r.Ok? ==> r.value.Arr?
    ensures e.isArray && item.Obj? && (e.prop !in item.fields || !Truthy(item.fields[e.prop])) ==> r == Ok(Arr([]))
    ensures e.isArray && item.Obj? && e.prop in item.fields && item.fields[e.prop].Arr? && r.Ok? ==>
              |r.value.elems| == |item.fields[e.prop].elems|
    ensures !e.isArray && (e.key.Name? || e.key.Func?) && item.Obj? ==> r.Ok?
    decreases PartSize(e.key), 1, 0
  {
    Accessor.Access(item, e.prop, e.isArray, ref => RetrieveOne(e.name, e.key, ref, table))
  }

  /** Every descriptor's retrieve of the same item, in order. */
  function RetrieveAll(s: Schema, es: seq<Entity>, item: Value, table: Value): (r: Result<seq<Value>>)
    requires forall e | e in es :: PartSize(e.key) < SchemaSize(s)
    ensures r.Ok? <==> forall i | 0 <= i < |es| :: Retrieve(es[i], item, table).Ok?
    ensures r.Ok? ==> |r.value| == |es| && forall i | 0 <= i < |es| :: r.value[i] == Retrieve(es[i], item, table).value
    decreases SchemaSize(s), 1, |es|
  {
    if es == [] then Ok([])
    else
      var first :- Retrieve(es[0], item, table);
      var rest :- RetrieveAll(s, es[1..], item, table);
      Ok([first] + rest)
  }

  // ---------------------------------------------------------------- cloners

  /** `cloneWith(item)`: a shallow copy, a linear clone, or the user's cloner.
      Only a linear cloner can throw; the default copy of an object has its
      keys and values, and a linear clone keeps every key of that copy and
      holds every linked property. */
  function Clone(c: Cloner, item: Value): (r: Result<Value>)
    ensures r.TypeError? ==> c.Linear?
    ensures c.DefaultCloner? ==> r.Ok? && r.value.Obj? && (item.Obj? ==> r.value.fields == item.fields)
    ensures c.Linear? && r.Ok? ==>
              r.value.Obj? && Spread(item).Keys <= r.value.fields.Keys &&
              forall i | 0 <= i < |c.links| :: c.links[i].prop in r.value.fields
    ensures c.DefaultCloner? ==> r == Ok(Cloning.DefaultClone(item))
    ensures c.CustomCloner? ==> r == Ok(c.clone(item))
    ensures c.Linear? ==> r == LinearFold(c.links, Cloning.DefaultClone(item))
    decreases ClonerSize(c), 2, 0
  {
    match c
    case DefaultCloner => Ok(Cloning.DefaultClone(item))
    case CustomCloner(f) => Ok(f(item))
    case Linear(links) => LinearFold(links, Cloning.DefaultClone(item))
  }

  /** The loop of the cloner made by `linear(properties)`: each linked property of
      the clone is replaced by its schema's normalize of the clone's value. */
  function LinearFold(links: seq<Linked>, clone: Value): (r: Result<Value>)
    requires clone.Obj?
    ensures r.Ok? ==> r.value.Obj? && clone.fields.Keys <= r.value.fields.Keys
    ensures r.Ok? ==> forall i | 0 <= i < |links| :: links[i].prop in r.value.fields
    decreases LinksSize(links), 1, 0
  {
    if links == [] then Ok(clone)
    else
      LinksSizeBound(links, 0);
      var current := GetProp(clone, links[0].prop).value;
      var normalized :- Normalize(links[0].schema, current);
      LinearFold(links[1..], Obj(clone.fields[links[0].prop := normalized]))
  }

  // ---------------------------------------------------------------- the facade

  /** `schema(keys, cloneWith).normalize(data)`: arrays element by element, any
      other value as one item. */
  function Normalize(s: Schema, data: Value): (r: Result<Value>)
    ensures data.Arr? ==> (r.Ok? <==> forall i | 0 <= i < |data.elems| :: NormalizeItem(s, data.elems[i]).Ok?)
    ensures data.Arr? && r.Ok? ==>
              r.value.Arr? && |r.value.elems| == |data.elems| &&
              forall i | 0 <= i < |data.elems| :: r.value.elems[i] == NormalizeItem(s, data.elems[i]).value
    decreases SchemaSize(s), 3, 0
  {
    if data.Arr? then
      var ys :- Accessor.MapResult(data.elems, x => NormalizeItem(s, x));
      Ok(Arr(ys))
    else NormalizeItem(s, data)
  }

  /** `normalize(item, schemaEntities, cloneWith)`: the clone with every declared
      property overwritten by its descriptor's extract of the original item. */
  function NormalizeItem(s: Schema, item: Value): (r: Result<Value>)
    ensures LegacyEntity.EntitiesFor(s.decls).TypeError? ==> r == TypeError
    ensures s.decls == [] ==> r == Clone(s.cloner, item)
    ensures s.cloner.DefaultCloner? ==>
              (r.Ok? <==> LegacyEntity.EntitiesFor(s.decls).Ok? &&
                          (LegacyEntity.KeysBelowSchema(s);
                           forall i | 0 <= i < |s.decls| :: Extract(LegacyEntity.EntitiesFor(s.decls).value[i], item).Ok?))
    ensures r.Ok? && s.decls != [] ==>
              r.value.Obj? && forall i | 0 <= i < |s.decls| :: s.decls[i].prop in r.value.fields
    ensures r.Ok? && s.cloner.DefaultCloner? && item.Obj? ==> item.fields.Keys <= r.value.fields.Keys
    decreases SchemaSize(s), 2, 0
  {
    var es :- LegacyEntity.EntitiesFor(s.decls);
    LegacyEntity.KeysBelowSchema(s);
    var clone :- Clone(s.cloner, item);
    var values :- ExtractAll(s, es, item);
    Overwriting.Overwrite(clone, Props(es), values)
  }

  /** `schema(keys, cloneWith).denormalize(data, entities)`: arrays element by
      element, any other value as one item. */
  function Denormalize(s: Schema, data: Value, table: Value): (r: Result<Value>)
    ensures data.Arr? ==> (r.Ok? <==> forall i | 0 <= i < |data.elems| :: DenormalizeItem(s, data.elems[i], table).Ok?)
    ensures data.Arr? && r.Ok? ==>
              r.value.Arr? && |r.value.elems| == |data.elems| &&
              forall i | 0 <= i < |data.elems| :: r.value.elems[i] == DenormalizeItem(s, data.elems[i], table).value
    decreases SchemaSize(s), 3, 0
  {
    if data.Arr? then
      var ys :- Accessor.MapResult(data.elems, x => DenormalizeItem(s, x, table));
      Ok(Arr(ys))
    else DenormalizeItem(s, data, table)
  }

  /** `denormalize(item, schemaEntities, entities, cloneWith)`: the clone with every
      declared property overwritten by its descriptor's retrieve of the original item. */
  function DenormalizeItem(s: Schema, item: Value, table: Value): (r: Result<Value>)
    ensures LegacyEntity.EntitiesFor(s.decls).TypeError? ==> r == TypeError
    ensures s.decls == [] ==> r == Clone(s.cloner, item)
    ensures s.cloner.DefaultCloner? ==>
              (r.Ok? <==> LegacyEntity.EntitiesFor(s.decls).Ok? &&
                          (LegacyEntity.KeysBelowSchema(s);
                           forall i | 0 <= i < |s.decls| :: Retrieve(LegacyEntity.EntitiesFor(s.decls).value[i], item, table).Ok?))
    ensures r.Ok? && s.decls != [] ==>
              r.value.Obj? && forall i | 0 <= i < |s.decls| :: s.decls[i].prop in r.value.fields
    ensures r.Ok? && s.cloner.DefaultCloner? && item.Obj? ==> item.fields.Keys <= r.value.fields.Keys
    decreases SchemaSize(s), 2, 0
  {
    var es :- LegacyEntity.EntitiesFor(s.decls);
    LegacyEntity.KeysBelowSchema(s);
    var clone :- Clone(s.cloner, item);
    var values :- RetrieveAll(s, es, item, table);
    Overwriting.Overwrite(clone, Props(es), values)
  }
}
