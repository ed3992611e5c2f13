/** The retriever of the current generation, src/helpers/retrieverFor.ts: a
    nested schema denormalizes the reference, any other key looks it up with
    `entities[type]?.[ref] ?? ref`. */
module RetrieverFor {
  import opened Outcome
  import opened Values
  import opened Keys
  import Accessor
  import Facade

  /** An entity table: entity names to objects of entities by key. */
  predicate IsTable(table: Value) {
    table.Obj? && forall n | n in table.fields :: table.fields[n].Obj?
  }

  /** What a table holds for a reference under an entity name, `undefined` when
      the name or the key is missing. */
  function Entry(table: Value, name: string, ref: Value): Value
    requires IsTable(table)
  {
    if name in table.fields && KeyString(ref) in table.fields[name].fields
    then table.fields[name].fields[KeyString(ref)]
    else Undefined
  }

  /** `entities[type]?.[ref] ?? ref`: only reading the table itself can throw. */
  function Lookup(table: Value, name: string, ref: Value): (r: Result<Value>)
    ensures r.TypeError? <==> Nullish(table)
    ensures IsTable(table) ==>
              var x := Entry(table, name, ref);
              r == Ok(if Nullish(x) then ref else x)
  {
    var t :- GetProp(table, name);
    if Nullish(t) then Ok(ref)
    else
      var x := GetProp(t, KeyString(ref)).value;
      Ok(if Nullish(x) then ref else x)
  }

  /** The per-reference function `retriever(type, key)`. A key is a schema when
      its constructor is `Object`: strings, functions and arrays are not, so an
      array key looks references up like a name. An undefined key has no
      constructor; `entitiesFor` throws on it while building the descriptor. */
  function RetrieveOne(name: string, key: Part, ref: Value, table: Value): (r: Result<Value>)
    ensures key.Nested? ==> r == Facade.Denormalize(key.schema, ref, table)
    ensures key.Absent? ==> r == TypeError
    ensures key.Name? || key.Func? || key.Tuple? ==> r == Lookup(table, name, ref)
    ensures !key.Nested? && !key.Absent? ==> (r.TypeError? <==> Nullish(table))
    ensures !key.Nested? && !key.Absent? && IsTable(table) ==>
              var x := Entry(table, name, ref);
              r == Ok(if Nullish(x) then ref else x)
  {
    match key
    case Nested(sc) => Facade.Denormalize(sc, ref, table)
    case Absent => TypeError
    case _ => Lookup(table, name, ref)
  }

  /** `retrieverFor(prop, key, type, isArrayKey)` applied to an item and a table:
      reading the property of null or undefined throws; in array mode a missing
      or falsy property retrieves as `[]` and an array element by element; with
      a single string or function key on an object, only a nullish table throws. */
  function Retrieve(e: Entity, item: Value, table: Value): (r: Result<Value>)
    ensures Nullish(item) ==> r == TypeError
    ensures e.isArray && r.Ok? ==> r.value.Arr?
    ensures e.isArray && item.Obj? && (e.prop !in item.fields || !Truthy(item.fields[e.prop])) ==> r == Ok(Arr([]))
    ensures e.isArray && item.Obj? && e.prop in item.fields && item.fields[e.prop].Arr? && r.Ok? ==>
              |r.value.elems| == |item.fields[e.prop].elems|
    ensures !e.isArray && (e.key.Name? || e.key.Func?) && item.Obj? ==> (r.Ok? <==> !Nullish(table))
  {
    Accessor.Access(item, e.prop, e.isArray, ref => RetrieveOne(e.name, e.key, ref, table))
  }

  /** The two generations look references up alike except on an entry that is
      present but falsy (`0`, `''`, `false`): `??` returns it, `||` falls back
      to the reference. */
  lemma LookupDiverges(table: Value, name: string, ref: Value)
    requires IsTable(table)
    ensures Lookup(table, name, ref) != Ok(Facade.Lookup(table, name, ref)) <==>
            var x := Entry(table, name, ref);
            !Nullish(x) && !Truthy(x) && x != ref
  {
    var x := Entry(table, name, ref);
    var at := Facade.TableAt(table, name);
    if name in table.fields && Truthy(table.fields[name]) {
      assert at == table.fields[name];
    } else {
      assert at == Obj(map[]);
    }
    assert GetProp(at, KeyString(ref)).value == x;
  }

  /** A falsy entry, concretely: entity `0` stored under key `'1'`. */
  lemma ZeroEntry()
    ensures Lookup(Obj(map["ids" := Obj(map["1" := Num(0)])]), "ids", Num(1)) == Ok(Num(0))
    ensures Facade.Lookup(Obj(map["ids" := Obj(map["1" := Num(0)])]), "ids", Num(1)) == Num(1)
  {
    var t := Obj(map["ids" := Obj(map["1" := Num(0)])]);
    assert KeyString(Num(1)) == "1";
    LookupDiverges(t, "ids", Num(1));
  }

  /** Against a table without the entity, references are left as they are:
      denormalizing with an empty table gives the property back unchanged. */
  lemma RetrieveMissing(e: Entity, m: map<string, Value>, table: Value)
    requires !e.key.Nested? && !e.key.Absent?
    requires IsTable(table) && e.name !in table.fields
    requires e.prop in m && (e.isArray ==> m[e.prop].Arr?)
    ensures Retrieve(e, Obj(m), table) == Ok(m[e.prop])
  {
    if e.isArray {
      var xs := m[e.prop].elems;
      var r := Retrieve(e, Obj(m), table);
      forall i | 0 <= i < |xs|
        ensures RetrieveOne(e.name, e.key, xs[i], table) == Ok(xs[i])
      {
      }
      assert r.value.elems == xs;
    }
  }

  /** With a null table the lookup throws, where the legacy `at` falls back to `{}`. */
  lemma NullTable(name: string, ref: Value)
    ensures Lookup(Null, name, ref) == TypeError
    ensures Facade.Lookup(Null, name, ref) == ref
  {
  }
}
