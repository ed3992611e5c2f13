/** What the legacy schema facade, src/schema.ts, promises of its `normalize`
    and `denormalize` as a pair: array dispatch, which properties change,
    idempotence on references and the round trip through the entity table. */
module SchemaLaws {
  import opened Outcome
  import opened Values
  import opened Keys
  import Accessor
  import Cloning
  import Overwriting
  import LegacyEntity
  import Facade
  import ExtractorFor
  import LegacyProcess

  // ---------------------------------------------------------------- array dispatch

  /** An array is normalized element by element into an array of the same
      length; anything else is normalized as one item. */
  lemma NormalizeDispatch(s: Schema, data: Value)
    ensures !data.Arr? ==> Facade.Normalize(s, data) == Facade.NormalizeItem(s, data)
    ensures data.Arr? ==>
              var r := Facade.Normalize(s, data);
              (r.Ok? <==> forall i | 0 <= i < |data.elems| :: Facade.NormalizeItem(s, data.elems[i]).Ok?) &&
              (r.Ok? ==> r.value.Arr? && |r.value.elems| == |data.elems| &&
                         forall i | 0 <= i < |data.elems| :: r.value.elems[i] == Facade.NormalizeItem(s, data.elems[i]).value)
  {
  }

  /** An array is denormalized element by element against the same table. */
  lemma DenormalizeDispatch(s: Schema, data: Value, table: Value)
    ensures !data.Arr? ==> Facade.Denormalize(s, data, table) == Facade.DenormalizeItem(s, data, table)
    ensures data.Arr? ==>
              var r := Facade.Denormalize(s, data, table);
              (r.Ok? <==> forall i | 0 <= i < |data.elems| :: Facade.DenormalizeItem(s, data.elems[i], table).Ok?) &&
              (r.Ok? ==> r.value.Arr? && |r.value.elems| == |data.elems| &&
                         forall i | 0 <= i < |data.elems| ::
                           r.value.elems[i] == Facade.DenormalizeItem(s, data.elems[i], table).value)
  {
  }

  // ---------------------------------------------------------------- normalize on an object

  /** A schema whose descriptors can be built, with distinct properties and the
      default cloner. */
  predicate Plain(s: Schema) {
    s.cloner.DefaultCloner? && DistinctDecls(s.decls) && LegacyEntity.EntitiesFor(s.decls).Ok?
  }

  function Descriptors(s: Schema): seq<Entity>
    requires LegacyEntity.EntitiesFor(s.decls).Ok?
  {
    LegacyEntity.EntitiesFor(s.decls).value
  }

  /** The values a normalize of `Obj(m)` writes, and the object it writes them to. */
  lemma NormalizeOverwrites(s: Schema, m: map<string, Value>)
    requires Plain(s)
    ensures var es := Descriptors(s);
            Facade.NormalizeItem(s, Obj(m)) ==
            (var vs :- Overwriting.AllOk(LegacyProcess.Calls(LegacyProcess.Extracting, es, Obj(m)));
             Ok(Obj(Overwriting.OverwriteFields(m, Props(es), vs))))
  {
    var es := Descriptors(s);
    LegacyProcess.NormalizeIsProcess(s, Obj(m));
    assert Cloning.DefaultClone(Obj(m)) == Obj(m);
    Overwriting.InterleavedIsOverwrite(Obj(m), Props(es), LegacyProcess.Calls(LegacyProcess.Extracting, es, Obj(m)));
  }

  /** Normalizing an object replaces each declared property by its descriptor's
      extract of the original and keeps every other property; it fails exactly
      when some extract fails. */
  lemma NormalizeReplaces(s: Schema, m: map<string, Value>)
    requires Plain(s)
    ensures var es := Descriptors(s);
            var r := Facade.NormalizeItem(s, Obj(m));
            (r.Ok? <==> forall i | 0 <= i < |es| :: Facade.Extract(es[i], Obj(m)).Ok?) &&
            (r.Ok? ==> r.value.Obj? && r.value.fields.Keys == m.Keys + set i | 0 <= i < |es| :: es[i].prop) &&
            (r.Ok? ==> forall i | 0 <= i < |es| :: r.value.fields[es[i].prop] == Facade.Extract(es[i], Obj(m)).value) &&
            (r.Ok? ==> forall k | k in m && k !in Props(es) :: r.value.fields[k] == m[k])
  {
    var es := Descriptors(s);
    LegacyEntity.LegacyEntitiesDistinct(s.decls);
    NormalizeOverwrites(s, m);
    var values := Overwriting.AllOk(LegacyProcess.Calls(LegacyProcess.Extracting, es, Obj(m)));
    if values.Ok? {
      PropsSet(es);
      Overwriting.OverwriteShape(m, Props(es), values.value);
    }
  }

  lemma PropsSet(es: seq<Entity>)
    ensures (set k | k in Props(es)) == set i | 0 <= i < |es| :: es[i].prop
  {
    forall k | k in Props(es) ensures k in set i | 0 <= i < |es| :: es[i].prop {
      var i :| 0 <= i < |es| && Props(es)[i] == k;
    }
  }

  /** Declared properties that already hold references: scalars, or arrays of
      scalars for array keys. */
  predicate Referenced(es: seq<Entity>, m: map<string, Value>) {
    forall i | 0 <= i < |es| :: es[i].prop in m && ExtractorFor.IsReference(es[i].isArray, m[es[i].prop])
  }

  /** Normalizing an object whose declared properties hold references gives an
      equal object back. */
  lemma NormalizeFixed(s: Schema, m: map<string, Value>)
    requires Plain(s) && Referenced(Descriptors(s), m)
    ensures Facade.NormalizeItem(s, Obj(m)) == Ok(Obj(m))
  {
    var es := Descriptors(s);
    forall i | 0 <= i < |es|
      ensures Facade.Extract(es[i], Obj(m)) == Ok(m[es[i].prop])
    {
      ExtractorFor.LegacyExtractReference(es[i], m);
    }
    NormalizeOverwrites(s, m);
    var values := Overwriting.AllOk(LegacyProcess.Calls(LegacyProcess.Extracting, es, Obj(m)));
    Overwriting.OverwriteSame(m, Props(es), values.value);
  }

  /** Normalizing twice gives what normalizing once gives, when the first
      normalize leaves references behind (keys that produce scalars). */
  lemma NormalizeTwice(s: Schema, m: map<string, Value>)
    requires Plain(s)
    requires var r := Facade.NormalizeItem(s, Obj(m));
             r.Ok? && r.value.Obj? && Referenced(Descriptors(s), r.value.fields)
    ensures var once := Facade.NormalizeItem(s, Obj(m)).value;
            Facade.NormalizeItem(s, once) == Ok(once)
  {
    NormalizeFixed(s, Facade.NormalizeItem(s, Obj(m)).value.fields);
  }

  // ---------------------------------------------------------------- the round trip

  /** Keys that look references up: property names and key functions. */
  predicate Flat(es: seq<Entity>) {
    forall i | 0 <= i < |es| :: es[i].key.Name? || es[i].key.Func?
  }

  /** Looking the reference of `x` up in the table gives `x` back. */
  predicate Found(e: Entity, x: Value, table: Value) {
    var r := Facade.ExtractOne(e.key, x);
    r.Ok? && Facade.Lookup(table, e.name, r.value) == x
  }

  /** The table gives back a declared value: the value itself, or each element
      of it for array keys. */
  predicate Recovers(e: Entity, v: Value, table: Value) {
    if e.isArray then v.Arr? && forall j | 0 <= j < |v.elems| :: Found(e, v.elems[j], table)
    else Found(e, v, table)
  }

  /** An object every declared property of which the table gives back. */
  predicate RoundTrips(es: seq<Entity>, x: Value, table: Value) {
    x.Obj? && forall i | 0 <= i < |es| :: es[i].prop in x.fields && Recovers(es[i], x.fields[es[i].prop], table)
  }

  /** One property: retrieving from where its extract was written gives the
      original value back. */
  lemma PropertyRoundTrip(e: Entity, m: map<string, Value>, n: map<string, Value>, table: Value)
    requires e.key.Name? || e.key.Func?
    requires e.prop in m && Recovers(e, m[e.prop], table)
    requires Facade.Extract(e, Obj(m)).Ok? && e.prop in n && n[e.prop] == Facade.Extract(e, Obj(m)).value
    ensures Facade.Retrieve(e, Obj(n), table) == Ok(m[e.prop])
  {
    if e.isArray {
      var xs := m[e.prop].elems;
      var refs := n[e.prop].elems;
      var r := Facade.Retrieve(e, Obj(n), table);
      forall j | 0 <= j < |xs|
        ensures Facade.RetrieveOne(e.name, e.key, refs[j], table) == Ok(xs[j])
      {
        assert Found(e, xs[j], table);
      }
      assert r.value.elems == xs;
    }
  }

  /** The values a denormalize of `Obj(n)` writes, and the object it writes them to. */
  lemma DenormalizeOverwrites(s: Schema, n: map<string, Value>, table: Value)
    requires Plain(s)
    ensures var es := Descriptors(s);
            Facade.DenormalizeItem(s, Obj(n), table) ==
            (var vs :- Overwriting.AllOk(LegacyProcess.Calls(LegacyProcess.Retrieving(table), es, Obj(n)));
             Ok(Obj(Overwriting.OverwriteFields(n, Props(es), vs))))
  {
    var es := Descriptors(s);
    LegacyProcess.DenormalizeIsProcess(s, Obj(n), table);
    assert Cloning.DefaultClone(Obj(n)) == Obj(n);
    Overwriting.InterleavedIsOverwrite(Obj(n), Props(es), LegacyProcess.Calls(LegacyProcess.Retrieving(table), es, Obj(n)));
  }

  /** Every extract succeeds on an object the table can give back. */
  lemma ExtractsOk(es: seq<Entity>, x: Value, table: Value)
    requires Flat(es) && RoundTrips(es, x, table)
    ensures forall i | 0 <= i < |es| :: Facade.Extract(es[i], x).Ok?
  {
    forall i | 0 <= i < |es|
      ensures Facade.Extract(es[i], x).Ok?
    {
      var e := es[i];
      var v := x.fields[e.prop];
      if e.isArray {
        assert Recovers(e, v, table);
        forall j | 0 <= j < |v.elems| ensures Facade.ExtractOne(e.key, v.elems[j]).Ok? {
          assert Found(e, v.elems[j], table);
        }
      } else {
        assert Found(e, v, table);
      }
    }
  }

  lemma RetrievesBack(es: seq<Entity>, m: map<string, Value>, n: map<string, Value>, table: Value)
    requires Flat(es) && RoundTrips(es, Obj(m), table)
    requires forall i | 0 <= i < |es| ::
               Facade.Extract(es[i], Obj(m)).Ok? && es[i].prop in n && n[es[i].prop] == Facade.Extract(es[i], Obj(m)).value
    ensures forall i | 0 <= i < |es| ::
              LegacyProcess.Calls(LegacyProcess.Retrieving(table), es, Obj(n))[i] == Ok(m[es[i].prop])
  {
    forall i | 0 <= i < |es|
      ensures Facade.Retrieve(es[i], Obj(n), table) == Ok(m[es[i].prop])
    {
      PropertyRoundTrip(es[i], m, n, table);
    }
  }

  /** `denormalize(normalize(x), entities)` is `x` when the table gives back
      every declared value of `x`. */
  lemma RoundTrip(s: Schema, x: Value, table: Value)
    requires Plain(s) && Flat(Descriptors(s)) && RoundTrips(Descriptors(s), x, table)
    ensures Facade.NormalizeItem(s, x).Ok?
    ensures Facade.DenormalizeItem(s, Facade.NormalizeItem(s, x).value, table) == Ok(x)
  {
    var es := Descriptors(s);
    var m := x.fields;
    ExtractsOk(es, x, table);
    NormalizeReplaces(s, m);
    var n := Facade.NormalizeItem(s, x).value.fields;
    assert n.Keys == m.Keys;
    DenormalizeOverwrites(s, n, table);
    var calls := LegacyProcess.Calls(LegacyProcess.Retrieving(table), es, Obj(n));
    RetrievesBack(es, m, n, table);
    var vs := Overwriting.AllOk(calls);
    LegacyEntity.LegacyEntitiesDistinct(s.decls);
    Overwriting.OverwriteRestores(n, m, Props(es), vs.value);
  }

  /** The round trip through the facade, for one object or an array of them. */
  lemma RoundTripData(s: Schema, data: Value, table: Value)
    requires Plain(s) && Flat(Descriptors(s))
    requires !data.Arr? ==> RoundTrips(Descriptors(s), data, table)
    requires data.Arr? ==> forall j | 0 <= j < |data.elems| :: RoundTrips(Descriptors(s), data.elems[j], table)
    ensures Facade.Normalize(s, data).Ok?
    ensures Facade.Denormalize(s, Facade.Normalize(s, data).value, table) == Ok(data)
  {
    if data.Arr? {
      var xs := data.elems;
      var f := x => Facade.NormalizeItem(s, x);
      var g := y => Facade.DenormalizeItem(s, y, table);
      forall j | 0 <= j < |xs| ensures f(xs[j]).Ok? && g(f(xs[j]).value) == Ok(xs[j]) {
        RoundTrip(s, xs[j], table);
      }
      Accessor.MapBack(xs, f, g);
    } else {
      RoundTrip(s, data, table);
      assert !Facade.Normalize(s, data).value.Arr?;
    }
  }
}
