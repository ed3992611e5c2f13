/** The legacy entity collector, src/entities.ts, and the `entities` method of
    the schema facade, src/schema.ts: one item or an array of them, each passed
    through the schema's cloner before it is scanned. */
module LegacyEntitiesIn {
  import opened Outcome
  import opened Values
  import opened Keys
  import opened Tables
  import LegacyEntity
  import Facade

  /** The writes `setEntities` makes for one descriptor on one (cloned) item. */
  function EntitySteps(item: Value, e: Entity): Result<seq<Step>> {
    var b :- GetProp(item, e.prop);
    Occurrence(e.name, e.merge, b, Facade.Extract(e, item))
  }

  function ItemSteps(item: Value, es: seq<Entity>): Result<seq<Step>>
    decreases |es|
  {
    if es == [] then Ok([]) else Then(EntitySteps(item, es[0]), ItemSteps(item, es[1..]))
  }

  /** The writes for one item: it is cloned first, and the clone is scanned. */
  function ClonedSteps(item: Value, es: seq<Entity>, cloner: Cloner): Result<seq<Step>> {
    var clone :- Facade.Clone(cloner, item);
    ItemSteps(clone, es)
  }

  function ItemsSteps(items: seq<Value>, es: seq<Entity>, cloner: Cloner): Result<seq<Step>>
    decreases |items|
  {
    if items == [] then Ok([])
    else Then(ClonedSteps(items[0], es, cloner), ItemsSteps(items[1..], es, cloner))
  }

  /** The items `entitiesIn` scans: the elements of an array, or the one item. */
  function Items(data: Value): (r: seq<Value>)
    ensures data.Arr? ==> r == data.elems
    ensures !data.Arr? ==> r == [data]
  {
    if data.Arr? then data.elems else [data]
  }

  /** The table `entitiesIn(data, schemaEntities, cloner)` returns. It starts
      empty, and its top-level keys are only descriptor names. */
  function Collected(data: Value, es: seq<Entity>, cloner: Cloner): (r: Result<Table>)
    ensures data == Arr([]) ==> r == Ok(map[])
    ensures r.Ok? ==> r.value.Keys <= Names(es)
  {
    var r := After(map[], ItemsSteps(Items(data), es, cloner));
    if r.Ok? then
      ItemsNamed(Items(data), es, cloner);
      RunNamed(map[], ItemsSteps(Items(data), es, cloner).value, Names(es));
      r
    else r
  }

  /** `schema(keys, cloneWith).entities(data)`: a declaration with no key
      throws; otherwise every table is named after a declaration. */
  function SchemaEntities(s: Schema, data: Value): (r: Result<Table>)
    ensures LegacyEntity.EntitiesFor(s.decls).TypeError? ==> r == TypeError
    ensures r.Ok? ==> forall n | n in r.value ::
                        exists i | 0 <= i < |s.decls| :: n == LegacyEntity.EntityFor(s.decls[i]).value.name
  {
    var es :- LegacyEntity.EntitiesFor(s.decls);
    Collected(data, es, s.cloner)
  }

  /** `setEntities(entities, item, schemaEntities)`. */
  method SetEntities(t: EntityTable, item: Value, es: seq<Entity>) returns (ok: bool)
    modifies t
    ensures var goal := After(old(t.tables), ItemSteps(item, es));
            (ok <==> goal.Ok?) && (ok ==> t.tables == goal.value)
  {
    ghost var goal := After(t.tables, ItemSteps(item, es));
    for i := 0 to |es|
      invariant goal == After(t.tables, ItemSteps(item, es[i..]))
    {
      ok := SetEntity(t, item, es, i);
      if !ok {
        return;
      }
    }
    ok := true;
  }

  /** The callback `setEntities` runs for one descriptor: the property's value,
      when truthy, is stored under the keys extracted from the item. */
  method SetEntity(t: EntityTable, item: Value, es: seq<Entity>, i: nat) returns (ok: bool)
    requires i < |es|
    modifies t
    ensures var goal := After(old(t.tables), ItemSteps(item, es[i..]));
            if ok then goal == After(t.tables, ItemSteps(item, es[i + 1..])) else goal.TypeError?
  {
    assert es[i..][0] == es[i] && es[i..][1..] == es[i + 1..];
    ghost var before := t.tables;
    ok := SetOccurrence(t, item, es[i]);
    if ok {
      AfterOk(before, EntitySteps(item, es[i]), ItemSteps(item, es[i + 1..]), t.tables);
    } else {
      AfterFails(before, EntitySteps(item, es[i]), ItemSteps(item, es[i + 1..]));
    }
  }

  /** The writes of one descriptor's callback. */
  method SetOccurrence(t: EntityTable, item: Value, e: Entity) returns (ok: bool)
    modifies t
    ensures var goal := After(old(t.tables), EntitySteps(item, e));
            if ok then goal == Ok(t.tables) else goal.TypeError?
  {
    var b := GetProp(item, e.prop);
    if b.TypeError? {
      return false;
    }
    OccurrenceSteps(t.tables, e.name, e.merge, b.value, Facade.Extract(e, item));
    if !Truthy(b.value) {
      return true;
    }
    t.Touch(e.name);
    var keys := Facade.Extract(e, item);
    if keys.TypeError? {
      return false;
    }
    ok := t.SetAll(e.name, e.merge, b.value, keys.value);
  }

  /** `setEntities(entities, cloner(item), schemaEntities)`. */
  method SetCloned(t: EntityTable, item: Value, es: seq<Entity>, cloner: Cloner) returns (ok: bool)
    modifies t
    ensures var goal := After(old(t.tables), ClonedSteps(item, es, cloner));
            (ok <==> goal.Ok?) && (ok ==> t.tables == goal.value)
  {
    var clone := Facade.Clone(cloner, item);
    if clone.TypeError? {
      return false;
    }
    ok := SetEntities(t, clone.value, es);
  }

  /** `entitiesIn(data, schemaEntities, cloner)`. */
  method EntitiesIn(data: Value, es: seq<Entity>, cloner: Cloner) returns (r: Result<Table>)
    ensures r == Collected(data, es, cloner)
  {
    var t := new EntityTable();
    var items := Items(data);
    for i := 0 to |items|
      invariant Collected(data, es, cloner) == After(t.tables, ItemsSteps(items[i..], es, cloner))
    {
      assert items[i..][0] == items[i] && items[i..][1..] == items[i + 1..];
      AfterThen(t.tables, ClonedSteps(items[i], es, cloner), ItemsSteps(items[i + 1..], es, cloner));
      var ok := SetCloned(t, items[i], es, cloner);
      if !ok {
        return TypeError;
      }
    }
    return Ok(t.tables);
  }

  // ---------------------------------------------------------------- what the table holds

  function Names(es: seq<Entity>): set<string> {
    set i | 0 <= i < |es| :: es[i].name
  }

  lemma {:induction false} ItemNamed(item: Value, es: seq<Entity>)
    requires ItemSteps(item, es).Ok?
    ensures Named(ItemSteps(item, es).value, Names(es))
    decreases |es|
  {
    if es != [] {
      var b := GetProp(item, es[0].prop).value;
      OccurrenceNamed(es[0].name, es[0].merge, b, Facade.Extract(es[0], item));
      ItemNamed(item, es[1..]);
      ThenNamed(EntitySteps(item, es[0]), ItemSteps(item, es[1..]), Names(es));
    }
  }

  lemma {:induction false} ItemsNamed(items: seq<Value>, es: seq<Entity>, cloner: Cloner)
    requires ItemsSteps(items, es, cloner).Ok?
    ensures Named(ItemsSteps(items, es, cloner).value, Names(es))
    decreases |items|
  {
    if items != [] {
      ItemNamed(Facade.Clone(cloner, items[0]).value, es);
      ItemsNamed(items[1..], es, cloner);
      ThenNamed(ClonedSteps(items[0], es, cloner), ItemsSteps(items[1..], es, cloner), Names(es));
    }
  }

  /** The table is a left fold of merges: each entry is the fold, from
      `undefined`, of the merges of the values stored under its name and key. */
  lemma CollectedIsFold(data: Value, es: seq<Entity>, cloner: Cloner, name: string, key: string)
    requires Collected(data, es, cloner).Ok?
    ensures Fold(Undefined, Matching(ItemsSteps(Items(data), es, cloner).value, name, key)) ==
            Ok(Entry(Collected(data, es, cloner).value, name, key))
  {
    RunEntry(map[], ItemsSteps(Items(data), es, cloner).value, name, key);
  }

  /** An item with no truthy declared property adds nothing, not even a name.
      Stated again for this collector because its writes come from the legacy
      extractor (`Facade.Extract`), not from `ExtractorFor.Extract` as in
      CoreEntitiesIn.FalsyItem. */
  lemma {:induction false} FalsyItem(item: Value, es: seq<Entity>)
    requires item.Obj? && forall i | 0 <= i < |es| :: !Truthy(GetProp(item, es[i].prop).value)
    ensures ItemSteps(item, es) == Ok([])
    decreases |es|
  {
    if es != [] {
      assert EntitySteps(item, es[0]) == Ok([]);
      FalsyItem(item, es[1..]);
      ghost var none: seq<Step> := [];
      assert none + none == none;
    }
  }
}
