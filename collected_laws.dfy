/** The table the legacy `entities` collects gives back every declared value of
    the data it was collected from, so `denormalize(normalize(data),
    entities(data))` is `data` again, for one object and for an array of them
    (src/specs/schema.spec.ts:76-94). */
module CollectedLaws {
  import opened Outcome
  import opened Values
  import opened Keys
  import opened Tables
  import Merging
  import Cloning
  import Facade
  import LegacyEntitiesIn
  import SchemaLaws

  /** Every store of a scan uses the default merge. */
  predicate DefaultStores(steps: seq<Step>) {
    forall a | 0 <= a < |steps| && steps[a].Put? :: steps[a].merge.DefaultMerge?
  }

  /** Stores to the same entry carry the same object. */
  predicate Agree(steps: seq<Step>) {
    forall a, b | 0 <= a < b < |steps| && steps[a].Put? && steps[b].Put? &&
                  steps[a].name == steps[b].name && steps[a].key == steps[b].key ::
      steps[a].value == steps[b].value
  }

  // ---------------------------------------------------------------- one entry

  /** Merging the same object, by default, any positive number of times into
      an entry that is empty or already holds it leaves exactly that object. */
  lemma {:induction false} FoldSame(acc: Value, puts: seq<Step>, v: Value)
    requires v.Obj? && (acc == v || acc == Undefined)
    requires forall i | 0 <= i < |puts| :: puts[i].Put? && puts[i].merge.DefaultMerge? && puts[i].value == v
    ensures Fold(acc, puts) == Ok(if puts == [] then acc else v)
    decreases |puts|
  {
    if puts != [] {
      if acc == v {
        Merging.MergeSelf(v);
      } else {
        Merging.MergeIntoEmpty(v);
      }
      FoldSame(v, puts[1..], v);
    }
  }

  /** The stores to an entry all carry the value and merge every store of the
      scan to that entry carries. */
  lemma {:induction false} MatchingAll(steps: seq<Step>, name: string, key: string, v: Value)
    requires forall a | 0 <= a < |steps| && steps[a].Put? && steps[a].name == name && steps[a].key == key ::
               steps[a].value == v && steps[a].merge.DefaultMerge?
    ensures forall i | 0 <= i < |Matching(steps, name, key)| ::
              Matching(steps, name, key)[i].value == v && Matching(steps, name, key)[i].merge.DefaultMerge?
    decreases |steps|
  {
    if steps != [] {
      MatchingAll(steps[1..], name, key, v);
      var s := steps[0];
      var r := Matching(steps, name, key);
      var rest := Matching(steps[1..], name, key);
      var head := if s.Put? && s.name == name && s.key == key then [s] else [];
      assert r == head + rest;
      forall i | 0 <= i < |r| ensures r[i].value == v && r[i].merge.DefaultMerge? {
        if i < |head| {
          assert r[i] == steps[0];
        } else {
          assert r[i] == rest[i - |head|];
        }
      }
    }
  }

  /** An entry some store writes to has at least one store. */
  lemma {:induction false} MatchingSome(steps: seq<Step>, a: nat)
    requires a < |steps| && steps[a].Put?
    ensures Matching(steps, steps[a].name, steps[a].key) != []
    decreases a
  {
    if a > 0 {
      assert steps[1..][a - 1] == steps[a];
      MatchingSome(steps[1..], a - 1);
    }
  }

  /** In a scan from the empty table whose stores agree and use the default
      merge, every stored object is the entry it was stored to. */
  lemma StoredValue(steps: seq<Step>, a: nat)
    requires Run(map[], steps).Ok? && DefaultStores(steps) && Agree(steps) && a < |steps|
    requires steps[a].Put? && steps[a].value.Obj?
    ensures Entry(Run(map[], steps).value, steps[a].name, steps[a].key) == steps[a].value
  {
    var s := steps[a];
    MatchingAll(steps, s.name, s.key, s.value);
    MatchingSome(steps, a);
    RunEntry(map[], steps, s.name, s.key);
    FoldSame(Undefined, Matching(steps, s.name, s.key), s.value);
  }

  /** The legacy lookup of a reference whose entry is truthy finds the entry. */
  lemma LookupEntry(t: Table, name: string, ref: Value)
    requires Truthy(Entry(t, name, KeyString(ref)))
    ensures Facade.Lookup(AsValue(t), name, ref) == Entry(t, name, KeyString(ref))
  {
    assert AsValue(t).fields[name] == Obj(t[name]);
  }

  // ---------------------------------------------------------------- what a scan holds

  /** A scan contains a step. */
  ghost predicate Has(steps: seq<Step>, p: Step) {
    exists a | 0 <= a < |steps| :: steps[a] == p
  }

  lemma ThenHas(a: Result<seq<Step>>, b: Result<seq<Step>>, p: Step)
    requires Then(a, b).Ok? && (Has(a.value, p) || Has(b.value, p))
    ensures Has(Then(a, b).value, p)
  {
    var s := Then(a, b).value;
    if Has(a.value, p) {
      var c :| 0 <= c < |a.value| && a.value[c] == p;
      assert s[c] == p;
    } else {
      var c :| 0 <= c < |b.value| && b.value[c] == p;
      assert s[|a.value| + c] == p;
    }
  }

  lemma ThenDefault(a: Result<seq<Step>>, b: Result<seq<Step>>)
    requires Then(a, b).Ok? && DefaultStores(a.value) && DefaultStores(b.value)
    ensures DefaultStores(Then(a, b).value)
  {
    var s := Then(a, b).value;
    forall i | 0 <= i < |s| && s[i].Put? ensures s[i].merge.DefaultMerge? {
      if i >= |a.value| {
        assert s[i] == b.value[i - |a.value|];
      }
    }
  }

  /** The stores of one declared object, or of each object of a declared array,
      under the keys its extract gives. */
  lemma EntityHas(item: Value, e: Entity, j: nat)
    requires item.Obj? && e.prop in item.fields && LegacyEntitiesIn.EntitySteps(item, e).Ok?
    requires var v := item.fields[e.prop]; if e.isArray then v.Arr? && j < |v.elems| else v.Obj?
    ensures var v := item.fields[e.prop];
            var x := if e.isArray then v.elems[j] else v;
            Facade.ExtractOne(e.key, x).Ok? &&
            Has(LegacyEntitiesIn.EntitySteps(item, e).value,
                Put(e.name, KeyString(Facade.ExtractOne(e.key, x).value), x, e.merge))
  {
    var v := item.fields[e.prop];
    var keys := Facade.Extract(e, item);
    var s := LegacyEntitiesIn.EntitySteps(item, e).value;
    if e.isArray {
      var puts := Puts(e.name, e.merge, v.elems, keys.value, 0).value;
      assert s == [Touch(e.name)] + puts;
      IndexArr(keys.value.elems, j);
      assert s[1 + j] == puts[j];
    } else {
      assert s == [Touch(e.name), Put(e.name, KeyString(keys.value), v, e.merge)];
      assert s[1] == Put(e.name, KeyString(keys.value), v, e.merge);
    }
  }

  /** A descriptor with the default merge stores with the default merge. */
  lemma EntityDefault(item: Value, e: Entity)
    requires e.merge.DefaultMerge? && LegacyEntitiesIn.EntitySteps(item, e).Ok?
    ensures DefaultStores(LegacyEntitiesIn.EntitySteps(item, e).value)
  {
    var b := GetProp(item, e.prop).value;
    if Truthy(b) && b.Arr? {
      var keys := Facade.Extract(e, item).value;
      var puts := Puts(e.name, e.merge, b.elems, keys, 0).value;
      var s := LegacyEntitiesIn.EntitySteps(item, e).value;
      assert s == [Touch(e.name)] + puts;
      forall i | 0 <= i < |s| && s[i].Put? ensures s[i].merge.DefaultMerge? {
        assert s[i] == puts[i - 1];
        assert b.elems[i - 1] == b.elems[i - 1];
        assert puts[i - 1] == Put(e.name, KeyString(Index(keys, i - 1).value), b.elems[i - 1], e.merge);
      }
    }
  }

  /** The scan of an item holds every store of every descriptor, and uses the
      default merge when every descriptor does. */
  lemma {:induction false} ItemHas(item: Value, es: seq<Entity>, i: nat, p: Step)
    requires i < |es| && LegacyEntitiesIn.ItemSteps(item, es).Ok?
    requires LegacyEntitiesIn.EntitySteps(item, es[i]).Ok? && Has(LegacyEntitiesIn.EntitySteps(item, es[i]).value, p)
    ensures Has(LegacyEntitiesIn.ItemSteps(item, es).value, p)
    decreases i
  {
    if i > 0 {
      ItemHas(item, es[1..], i - 1, p);
    }
    ThenHas(LegacyEntitiesIn.EntitySteps(item, es[0]), LegacyEntitiesIn.ItemSteps(item, es[1..]), p);
  }

  lemma {:induction false} ItemDefault(item: Value, es: seq<Entity>)
    requires forall i | 0 <= i < |es| :: es[i].merge.DefaultMerge?
    requires LegacyEntitiesIn.ItemSteps(item, es).Ok?
    ensures DefaultStores(LegacyEntitiesIn.ItemSteps(item, es).value)
    decreases |es|
  {
    if es != [] {
      EntityDefault(item, es[0]);
      ItemDefault(item, es[1..]);
      ThenDefault(LegacyEntitiesIn.EntitySteps(item, es[0]), LegacyEntitiesIn.ItemSteps(item, es[1..]));
    }
  }

  /** An item's scan succeeds only if every descriptor's does. */
  lemma {:induction false} EntityOk(x: Value, es: seq<Entity>, i: nat)
    requires i < |es| && LegacyEntitiesIn.ItemSteps(x, es).Ok?
    ensures LegacyEntitiesIn.EntitySteps(x, es[i]).Ok?
    decreases i
  {
    if i > 0 {
      EntityOk(x, es[1..], i - 1);
    }
  }

  /** The scan of the items holds the scan of each one (a plain object's default
      clone is the object itself), and uses the default merge when every
      descriptor does. */
  lemma {:induction false} ItemsHas(items: seq<Value>, es: seq<Entity>, k: nat)
    requires k < |items| && items[k].Obj?
    requires LegacyEntitiesIn.ItemsSteps(items, es, DefaultCloner).Ok?
    ensures LegacyEntitiesIn.ItemSteps(items[k], es).Ok?
    ensures forall p | Has(LegacyEntitiesIn.ItemSteps(items[k], es).value, p) ::
              Has(LegacyEntitiesIn.ItemsSteps(items, es, DefaultCloner).value, p)
    decreases k
  {
    var first := LegacyEntitiesIn.ClonedSteps(items[0], es, DefaultCloner);
    var rest := LegacyEntitiesIn.ItemsSteps(items[1..], es, DefaultCloner);
    if k == 0 {
      assert Cloning.DefaultClone(items[0]).fields == items[0].fields;
    } else {
      ItemsHas(items[1..], es, k - 1);
    }
    forall p | Has(LegacyEntitiesIn.ItemSteps(items[k], es).value, p)
      ensures Has(LegacyEntitiesIn.ItemsSteps(items, es, DefaultCloner).value, p)
    {
      ThenHas(first, rest, p);
    }
  }

  lemma {:induction false} ItemsDefault(items: seq<Value>, es: seq<Entity>)
    requires forall i | 0 <= i < |es| :: es[i].merge.DefaultMerge?
    requires LegacyEntitiesIn.ItemsSteps(items, es, DefaultCloner).Ok?
    ensures DefaultStores(LegacyEntitiesIn.ItemsSteps(items, es, DefaultCloner).value)
    decreases |items|
  {
    if items != [] {
      ItemDefault(Cloning.DefaultClone(items[0]), es);
      ItemsDefault(items[1..], es);
      ThenDefault(LegacyEntitiesIn.ClonedSteps(items[0], es, DefaultCloner),
                  LegacyEntitiesIn.ItemsSteps(items[1..], es, DefaultCloner));
    }
  }

  // ---------------------------------------------------------------- the round trip

  /** An object whose declared properties hold objects, or arrays of objects
      for array keys. */
  predicate Entities(es: seq<Entity>, x: Value) {
    x.Obj? &&
    forall i | 0 <= i < |es| ::
      es[i].prop in x.fields &&
      var v := x.fields[es[i].prop];
      if es[i].isArray then v.Arr? && forall j | 0 <= j < |v.elems| :: v.elems[j].Obj?
      else v.Obj?
  }

  /** The writes `entities(data)` makes, with the default cloner. */
  function Scan(data: Value, es: seq<Entity>): Result<seq<Step>> {
    LegacyEntitiesIn.ItemsSteps(LegacyEntitiesIn.Items(data), es, DefaultCloner)
  }

  /** One declared object, or one element of a declared array, of item `k` is
      found in the collected table under the key its extract gives. */
  lemma Recover(es: seq<Entity>, items: seq<Value>, k: nat, i: nat, j: nat, t: Table)
    requires SchemaLaws.Flat(es) && k < |items| && Entities(es, items[k]) && i < |es|
    requires forall i | 0 <= i < |es| :: es[i].merge.DefaultMerge?
    requires var steps := LegacyEntitiesIn.ItemsSteps(items, es, DefaultCloner);
             steps.Ok? && Run(map[], steps.value) == Ok(t) && Agree(steps.value)
    requires var v := items[k].fields[es[i].prop]; es[i].isArray ==> j < |v.elems|
    ensures var v := items[k].fields[es[i].prop];
            SchemaLaws.Found(es[i], if es[i].isArray then v.elems[j] else v, AsValue(t))
  {
    var x := items[k];
    var steps := LegacyEntitiesIn.ItemsSteps(items, es, DefaultCloner).value;
    var e := es[i];
    var v := x.fields[e.prop];
    var y := if e.isArray then v.elems[j] else v;
    ItemsHas(items, es, k);
    ItemsDefault(items, es);
    EntityOk(x, es, i);
    EntityHas(x, e, j);
    var ref := Facade.ExtractOne(e.key, y).value;
    var p := Put(e.name, KeyString(ref), y, e.merge);
    ItemHas(x, es, i, p);
    var a :| 0 <= a < |steps| && steps[a] == p;
    StoredValue(steps, a);
    LookupEntry(t, e.name, ref);
  }

  /** The table collected from plain objects, with the default merges, gives
      back every declared value of each of them, provided the stores to any
      one entry carry the same object. */
  lemma CollectedRecovers(es: seq<Entity>, data: Value)
    requires SchemaLaws.Flat(es)
    requires forall k | 0 <= k < |LegacyEntitiesIn.Items(data)| :: Entities(es, LegacyEntitiesIn.Items(data)[k])
    requires forall i | 0 <= i < |es| :: es[i].merge.DefaultMerge?
    requires LegacyEntitiesIn.Collected(data, es, DefaultCloner).Ok? && Agree(Scan(data, es).value)
    ensures var items := LegacyEntitiesIn.Items(data);
            var table := AsValue(LegacyEntitiesIn.Collected(data, es, DefaultCloner).value);
            forall k | 0 <= k < |items| :: SchemaLaws.RoundTrips(es, items[k], table)
  {
    var items := LegacyEntitiesIn.Items(data);
    var t := LegacyEntitiesIn.Collected(data, es, DefaultCloner).value;
    forall k, i | 0 <= k < |items| && 0 <= i < |es|
      ensures SchemaLaws.Recovers(es[i], items[k].fields[es[i].prop], AsValue(t))
    {
      var v := items[k].fields[es[i].prop];
      if es[i].isArray {
        forall j | 0 <= j < |v.elems|
          ensures SchemaLaws.Found(es[i], v.elems[j], AsValue(t))
        {
          Recover(es, items, k, i, j, t);
        }
      } else {
        Recover(es, items, k, i, 0, t);
      }
    }
  }

  /** `schema.denormalize(schema.normalize(data), schema.entities(data))` gives
      `data` back, for one plain object or an array of them. */
  lemma SchemaRoundTrip(s: Schema, data: Value)
    requires SchemaLaws.Plain(s) && SchemaLaws.Flat(SchemaLaws.Descriptors(s))
    requires var es := SchemaLaws.Descriptors(s);
             (forall i | 0 <= i < |es| :: es[i].merge.DefaultMerge?) &&
             forall k | 0 <= k < |LegacyEntitiesIn.Items(data)| :: Entities(es, LegacyEntitiesIn.Items(data)[k])
    requires LegacyEntitiesIn.SchemaEntities(s, data).Ok?
    requires Agree(Scan(data, SchemaLaws.Descriptors(s)).value)
    ensures Facade.Normalize(s, data).Ok?
    ensures var table := AsValue(LegacyEntitiesIn.SchemaEntities(s, data).value);
            Facade.Denormalize(s, Facade.Normalize(s, data).value, table) == Ok(data)
  {
    var es := SchemaLaws.Descriptors(s);
    CollectedRecovers(es, data);
    SchemaLaws.RoundTripData(s, data, AsValue(LegacyEntitiesIn.SchemaEntities(s, data).value));
  }
}
