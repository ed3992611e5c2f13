/** The oldest descriptor builder, src/property.ts: each declared property gets
    an extractor and a retriever, and nothing else: no name, no merge. An array
    declaration is recognised by being an array, and its first element is the
    real key. */
module LegacyProperty {
  import opened Outcome
  import opened Values
  import opened Keys
  import Accessor
  import Facade
  import LegacyEntity
  import LegacyPluralizer
  import DefineKey
  import Pluralizer

  /** What a `{ prop, extract, retrieve }` record is built from: the property,
      the table its retriever looks under, the real key and the array flag. */
  datatype Descriptor = Descriptor(prop: string, table: string, key: Part, isArray: bool)

  /** The descriptor of one `[prop, key]` entry. Building the extractor reads
      `key.normalize` when the real key is neither a string nor a function,
      which throws when there is no key at all (an empty array declaration). */
  function Describe(d: Decl): (r: Result<Descriptor>)
    ensures r.TypeError? <==> (if d.part.Tuple? then At(d.part.parts, 0) else d.part).Absent?
    ensures r.Ok? ==> r.value.prop == d.prop && (r.value.isArray <==> d.part.Tuple?)
    ensures r.Ok? && d.part.Tuple? ==> r.value.key == At(d.part.parts, 0) && r.value.table == d.prop
    ensures r.Ok? && !d.part.Tuple? ==>
              r.value.key == d.part && r.value.table == LegacyPluralizer.Pluralize(Str(d.prop))
  {
    var isArray := d.part.Tuple?;
    var key := if isArray then At(d.part.parts, 0) else d.part;
    if key.Absent? then TypeError
    else Ok(Descriptor(d.prop, if isArray then d.prop else LegacyPluralizer.Pluralize(Str(d.prop)), key, isArray))
  }

  /** `entitiesFor(keys)`: one descriptor per entry, in order. */
  function EntitiesFor(decls: seq<Decl>): (r: Result<seq<Descriptor>>)
    ensures r.Ok? <==> forall i | 0 <= i < |decls| :: Describe(decls[i]).Ok?
    ensures r.Ok? ==> |r.value| == |decls| &&
                      forall i | 0 <= i < |decls| :: r.value[i] == Describe(decls[i]).value
  {
    if decls == [] then Ok([])
    else
      var first :- Describe(decls[0]);
      var rest :- EntitiesFor(decls[1..]);
      Ok([first] + rest)
  }

  /** `extractorFor(prop, key)` applied to an item: a string key projects, a
      function key is called, anything else is normalized; values that are not
      objects pass through. Reading the property of null or undefined throws,
      and in array mode a missing or falsy property extracts as `[]`. */
  function Extract(p: Descriptor, item: Value): (r: Result<Value>)
    ensures Nullish(item) ==> r == TypeError
    ensures p.isArray && r.Ok? ==> r.value.Arr?
    ensures p.isArray && item.Obj? && (p.prop !in item.fields || !Truthy(item.fields[p.prop])) ==> r == Ok(Arr([]))
    ensures p.isArray && item.Obj? && p.prop in item.fields && item.fields[p.prop].Arr? && r.Ok? ==>
              |r.value.elems| == |item.fields[p.prop].elems|
    ensures !p.isArray && item.Obj? && p.prop in item.fields && !IsObject(item.fields[p.prop]) ==>
              r == Ok(item.fields[p.prop])
  {
    Accessor.Access(item, p.prop, p.isArray, v => Facade.ExtractOne(p.key, v))
  }

  /** `retrieverFor(prop, key)` applied to an item and a table: string and
      function keys look the reference up with `at(entities, table)[ref] || ref`,
      anything else is denormalized. Reading the property of null or undefined
      throws, in array mode a missing or falsy property retrieves as `[]`, and a
      single string or function key never throws on an object. */
  function Retrieve(p: Descriptor, item: Value, table: Value): (r: Result<Value>)
    ensures Nullish(item) ==> r == TypeError
    ensures p.isArray && r.Ok? ==> r.value.Arr?
    ensures p.isArray && item.Obj? && (p.prop !in item.fields || !Truthy(item.fields[p.prop])) ==> r == Ok(Arr([]))
    ensures p.isArray && item.Obj? && p.prop in item.fields && item.fields[p.prop].Arr? && r.Ok? ==>
              |r.value.elems| == |item.fields[p.prop].elems|
    ensures !p.isArray && (p.key.Name? || p.key.Func?) && item.Obj? ==> r.Ok?
  {
    Accessor.Access(item, p.prop, p.isArray, ref => Facade.RetrieveOne(p.table, p.key, ref, table))
  }

  /** The descriptor as the later `entity.ts` record it behaves like: named by
      its table, with the default merge. */
  function AsEntity(p: Descriptor): Entity {
    Entity(p.table, p.prop, DefaultMerge, p.key, p.isArray)
  }

  /** A descriptor extracts and retrieves exactly as the legacy entity record
      of the same table, key and array flag. */
  lemma BehavesAsEntity(p: Descriptor, item: Value, table: Value)
    ensures Extract(p, item) == Facade.Extract(AsEntity(p), item)
    ensures Retrieve(p, item, table) == Facade.Retrieve(AsEntity(p), item, table)
  {
    var e := AsEntity(p);
    if !Nullish(item) && p.isArray && Accessor.Read(item, p.prop).value.Arr? {
      var r1, r2 := Extract(p, item), Facade.Extract(e, item);
      if r1.Ok? && r2.Ok? {
        assert r1.value.elems == r2.value.elems;
      }
      var s1, s2 := Retrieve(p, item, table), Facade.Retrieve(e, item, table);
      if s1.Ok? && s2.Ok? {
        assert s1.value.elems == s2.value.elems;
      }
    }
  }

  /** For a one-element array declaration `[k]` the oldest builder and
      `entity.ts` build the same record: table and name are the property, the
      key is `k`, and both map over the property. */
  lemma OneElementAgrees(d: Decl, k: Part)
    requires d.part == Tuple([k]) && !k.Absent?
    ensures Describe(d).Ok? && LegacyEntity.EntityFor(d).Ok?
    ensures AsEntity(Describe(d).value) == LegacyEntity.EntityFor(d).value
  {
    assert DefineKey.Resolved(d.part).key == k;
  }

  /** For a single key the two builders differ only in the pluralizer that
      names the table. */
  lemma SingleKeyTables(d: Decl)
    requires d.part.Name? || d.part.Func? || d.part.Nested?
    ensures Describe(d).Ok? && LegacyEntity.EntityFor(d).Ok?
    ensures var p := Describe(d).value;
            var e := LegacyEntity.EntityFor(d).value;
            p.key == e.key && p.isArray == e.isArray == false &&
            p.table == LegacyPluralizer.Pluralize(Str(d.prop)) &&
            e.name == Pluralizer.Pluralize(Str(d.prop))
  {
  }

  /** A `company` property looks its entities up under 'compies', where the
      entity builder of src/entity.ts names the same table 'companies'. */
  lemma CompanyTable(key: string)
    ensures Describe(Decl("company", Name(key))).Ok?
    ensures Describe(Decl("company", Name(key))).value.table == "compies"
    ensures LegacyEntity.EntityFor(Decl("company", Name(key))).value.name == "companies"
  {
    var s := "company";
    LegacyPluralizer.CompanySteps(s);
    LegacyPluralizer.LegacyLift(s, LegacyPluralizer.ReplacementLength, "compies");
    Pluralizer.PluralizeLowerWord(s);
    SingleKeyTables(Decl(s, Name(key)));
  }
}
