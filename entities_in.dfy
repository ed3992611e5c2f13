/** The entity collector of the current generation, src/core/entitiesIn.ts:
    every item of an array is scanned descriptor by descriptor, and each truthy
    property value is stored in the table under the name and the key extracted
    from the item. */
module CoreEntitiesIn {
  import opened Outcome
  import opened Values
  import opened Keys
  import opened Tables
  import ExtractorFor

  /** The writes `setEntities` makes for one descriptor on one item. */
  function EntitySteps(item: Value, e: Entity): Result<seq<Step>> {
    var b :- GetProp(item, e.prop);
    Occurrence(e.name, e.merge, b, ExtractorFor.Extract(e, item))
  }

  /** The writes `setEntities` makes for one item. */
  function ItemSteps(item: Value, es: seq<Entity>): Result<seq<Step>>
    decreases |es|
  {
    if es == [] then Ok([]) else Then(EntitySteps(item, es[0]), ItemSteps(item, es[1..]))
  }

  /** The writes `entitiesIn` makes for the whole array. */
  function DataSteps(data: seq<Value>, es: seq<Entity>): Result<seq<Step>>
    decreases |data|
  {
    if data == [] then Ok([]) else Then(ItemSteps(data[0], es), DataSteps(data[1..], es))
  }

  /** The table `entitiesIn(data, schemaEntities)` returns. It starts empty,
      and its top-level keys are only descriptor names. */
  function Collected(data: seq<Value>, es: seq<Entity>): (r: Result<Table>)
    ensures data == [] ==> r == Ok(map[])
    ensures r.Ok? ==> r.value.Keys <= Names(es)
  {
    var r := After(map[], DataSteps(data, es));
    if r.Ok? then
      DataNamed(data, es);
      RunNamed(map[], DataSteps(data, es).value, Names(es));
      r
    else r
  }

  /** `setEntities(entities, item, schemaEntities)`. */
  method SetEntities(t: EntityTable, item: Value, es: seq<Entity>) returns (ok: bool)
    modifies t
    ensures var goal := After(old(t.tables), ItemSteps(item, es));
            (ok <==> goal.Ok?) && (ok ==> t.tables == goal.value)
  {
    ghost var goal := After(t.tables, ItemSteps(item, es));
    for i := 0 to |es|
      invariant goal == After(t.tables, ItemSteps(item, es[i..]))
    {
      ok := SetEntity(t, item, es, i);
      if !ok {
        return;
      }
    }
    ok := true;
  }

  /** The callback `setEntities` runs for one descriptor: the property's value,
      when truthy, is stored under the keys extracted from the item. */
  method SetEntity(t: EntityTable, item: Value, es: seq<Entity>, i: nat) returns (ok: bool)
    requires i < |es|
    modifies t
    ensures var goal := After(old(t.tables), ItemSteps(item, es[i..]));
            if ok then goal == After(t.tables, ItemSteps(item, es[i + 1..])) else goal.TypeError?
  {
    assert es[i..][0] == es[i] && es[i..][1..] == es[i + 1..];
    ghost var before := t.tables;
    ok := SetOccurrence(t, item, es[i]);
    if ok {
      AfterOk(before, EntitySteps(item, es[i]), ItemSteps(item, es[i + 1..]), t.tables);
    } else {
      AfterFails(before, EntitySteps(item, es[i]), ItemSteps(item, es[i + 1..]));
    }
  }

  /** The writes of one descriptor's callback. */
  method SetOccurrence(t: EntityTable, item: Value, e: Entity) returns (ok: bool)
    modifies t
    ensures var goal := After(old(t.tables), EntitySteps(item, e));
            if ok then goal == Ok(t.tables) else goal.TypeError?
  {
    var b := GetProp(item, e.prop);
    if b.TypeError? {
      return false;
    }
    OccurrenceSteps(t.tables, e.name, e.merge, b.value, ExtractorFor.Extract(e, item));
    if !Truthy(b.value) {
      return true;
    }
    t.Touch(e.name);
    var keys := ExtractorFor.Extract(e, item);
    if keys.TypeError? {
      return false;
    }
    ok := t.SetAll(e.name, e.merge, b.value, keys.value);
  }

  /** `entitiesIn(data, schemaEntities)`: a fresh table, filled item by item. */
  method EntitiesIn(data: seq<Value>, es: seq<Entity>) returns (r: Result<Table>)
    ensures r == Collected(data, es)
  {
    var t := new EntityTable();
    for i := 0 to |data|
      invariant Collected(data, es) == After(t.tables, DataSteps(data[i..], es))
    {
      assert data[i..][0] == data[i] && data[i..][1..] == data[i + 1..];
      AfterThen(t.tables, ItemSteps(data[i], es), DataSteps(data[i + 1..], es));
      var ok := SetEntities(t, data[i], es);
      if !ok {
        return TypeError;
      }
    }
    return Ok(t.tables);
  }

  // ---------------------------------------------------------------- what the table holds

  function Names(es: seq<Entity>): set<string> {
    set i | 0 <= i < |es| :: es[i].name
  }

  lemma {:induction false} ItemNamed(item: Value, es: seq<Entity>)
    requires ItemSteps(item, es).Ok?
    ensures Named(ItemSteps(item, es).value, Names(es))
    decreases |es|
  {
    if es != [] {
      var b := GetProp(item, es[0].prop).value;
      OccurrenceNamed(es[0].name, es[0].merge, b, ExtractorFor.Extract(es[0], item));
      ItemNamed(item, es[1..]);
      ThenNamed(EntitySteps(item, es[0]), ItemSteps(item, es[1..]), Names(es));
    }
  }

  lemma {:induction false} DataNamed(data: seq<Value>, es: seq<Entity>)
    requires DataSteps(data, es).Ok?
    ensures Named(DataSteps(data, es).value, Names(es))
    decreases |data|
  {
    if data != [] {
      ItemNamed(data[0], es);
      DataNamed(data[1..], es);
      ThenNamed(ItemSteps(data[0], es), DataSteps(data[1..], es), Names(es));
    }
  }

  /** The table is a left fold of merges: each entry is the fold, from
      `undefined`, of the merges of the values stored under its name and key,
      in item order and, within an item, in declaration and element order. */
  lemma CollectedIsFold(data: seq<Value>, es: seq<Entity>, name: string, key: string)
    requires Collected(data, es).Ok?
    ensures Fold(Undefined, Matching(DataSteps(data, es).value, name, key)) ==
            Ok(Entry(Collected(data, es).value, name, key))
  {
    RunEntry(map[], DataSteps(data, es).value, name, key);
  }

  /** An item with no truthy declared property adds nothing, not even a name. */
  lemma {:induction false} FalsyItem(item: Value, es: seq<Entity>)
    requires item.Obj? && forall i | 0 <= i < |es| :: !Truthy(GetProp(item, es[i].prop).value)
    ensures ItemSteps(item, es) == Ok([])
    decreases |es|
  {
    if es != [] {
      assert EntitySteps(item, es[0]) == Ok([]);
      FalsyItem(item, es[1..]);
      ghost var none: seq<Step> := [];
      assert none + none == none;
    }
  }
}
