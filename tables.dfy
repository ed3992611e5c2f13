/** The entity table both collectors fill (src/core/entitiesIn.ts and
    src/entities.ts): entity names to objects of entities by key. Both
    generations write it the same way, `setEntity` for one store and the
    `forEach` over an entity's occurrences; they differ only in how an item's
    keys are extracted. A scan is described as the list of writes it makes. */
module Tables {
  import opened Outcome
  import opened Values
  import opened Keys

  type Table = map<string, map<string, Value>>

  /** One write: `if (!entities[name]) entities[name] = {}`, or a `setEntity`. */
  datatype Step = Touch(name: string) | Put(name: string, key: string, value: Value, merge: Merge)

  /** The table as a value, the way `toStrictEqual` compares it. */
  function AsValue(t: Table): Value {
    Obj(map n | n in t :: Obj(t[n]))
  }

  /** What `entities[name][key]` holds: `undefined` when it is missing. */
  function Entry(t: Table, name: string, key: string): Value {
    if name in t && key in t[name] then t[name][key] else Undefined
  }

  /** `entities[name][key] || {}`: the left side of the merge. */
  function Base(acc: Value): (r: Value)
    ensures Truthy(r)
  {
    if Truthy(acc) then acc else Obj(map[])
  }

  /** `setEntity`: the name's table must exist, since `entities[name][key]`
      reads a property of it; the entry becomes the merge of what was there (or
      `{}`) with the new value. */
  function Store(t: Table, name: string, key: string, b: Value, merge: Merge): (r: Result<Table>)
    ensures r.TypeError? <==> name !in t || (merge.Merger? && !merge.merger.Func?)
    ensures r.Ok? ==> r.value.Keys == t.Keys && r.value[name].Keys == t[name].Keys + {key}
    ensures r.Ok? ==> Entry(r.value, name, key) == ApplyMerge(merge, Base(Entry(t, name, key)), b).value
  {
    if name !in t then TypeError
    else
      var merged :- ApplyMerge(merge, Base(Entry(t, name, key)), b);
      Ok(t[name := t[name][key := merged]])
  }

  /** A store changes that one entry and nothing else. */
  lemma StoreFrame(t: Table, name: string, key: string, b: Value, merge: Merge, n: string, k: string)
    requires Store(t, name, key, b, merge).Ok? && (n != name || k != key)
    ensures var u := Store(t, name, key, b, merge).value;
            (n in u <==> n in t) && (n in t ==> (k in u[n] <==> k in t[n])) && Entry(u, n, k) == Entry(t, n, k)
  {
  }

  function Do(t: Table, s: Step): Result<Table> {
    match s
    case Touch(n) => Ok(if n in t then t else t[n := map[]])
    case Put(n, k, b, m) => Store(t, n, k, b, m)
  }

  /** The writes made one after another; the first that throws ends the scan. */
  function Run(t: Table, steps: seq<Step>): Result<Table>
    decreases |steps|
  {
    if steps == [] then Ok(t)
    else
      var next :- Do(t, steps[0]);
      Run(next, steps[1..])
  }

  /** Writes whose list may itself have failed to come about. */
  function After(t: Table, steps: Result<seq<Step>>): Result<Table> {
    var s :- steps;
    Run(t, s)
  }

  /** One list of writes, then another. */
  function Then(a: Result<seq<Step>>, b: Result<seq<Step>>): (r: Result<seq<Step>>)
    ensures r.Ok? <==> a.Ok? && b.Ok?
  {
    var x :- a;
    var y :- b;
    Ok(x + y)
  }

  lemma {:induction false} RunAppend(t: Table, s1: seq<Step>, s2: seq<Step>)
    ensures Run(t, s1 + s2) == (var u :- Run(t, s1); Run(u, s2))
    decreases |s1|
  {
    if s1 == [] {
      assert s1 + s2 == s2;
    } else {
      assert (s1 + s2)[0] == s1[0] && (s1 + s2)[1..] == s1[1..] + s2;
      var next := Do(t, s1[0]);
      if next.Ok? {
        RunAppend(next.value, s1[1..], s2);
      }
    }
  }

  /** Running two lists of writes is running the first, then the second on what
      it left; every failure is the same TypeError. */
  lemma AfterThen(t: Table, a: Result<seq<Step>>, b: Result<seq<Step>>)
    ensures After(t, Then(a, b)) == (var u :- After(t, a); After(u, b))
  {
    if a.Ok? && b.Ok? {
      RunAppend(t, a.value, b.value);
    }
  }

  /** A scan whose first part succeeds goes on from the table that part leaves. */
  lemma AfterOk(t: Table, a: Result<seq<Step>>, b: Result<seq<Step>>, u: Table)
    requires After(t, a) == Ok(u)
    ensures After(t, Then(a, b)) == After(u, b)
  {
    AfterThen(t, a, b);
  }

  /** A scan whose first part fails fails. */
  lemma AfterFails(t: Table, a: Result<seq<Step>>, b: Result<seq<Step>>)
    requires After(t, a).TypeError?
    ensures After(t, Then(a, b)).TypeError?
  {
    AfterThen(t, a, b);
  }

  // ---------------------------------------------------------------- the writes of a scan

  /** The stores of an array property from element `j` on: element `i` under
      `${keys[i]}`. */
  function Puts(name: string, merge: Merge, xs: seq<Value>, keys: Value, j: nat): (r: Result<seq<Step>>)
    requires j <= |xs|
    ensures r.TypeError? <==> j < |xs| && Nullish(keys)
    ensures r.Ok? ==> |r.value| == |xs| - j
    ensures r.Ok? ==> forall i | j <= i < |xs| ::
                        Index(keys, i).Ok? &&
                        r.value[i - j] == Put(name, KeyString(Index(keys, i).value), xs[i], merge)
    decreases |xs| - j
  {
    if j == |xs| then Ok([])
    else
      var k :- Index(keys, j);
      var rest := Puts(name, merge, xs, keys, j + 1).value;
      var steps := [Put(name, KeyString(k), xs[j], merge)] + rest;
      assert forall i | j < i < |xs| ::
               steps[i - j] == rest[i - (j + 1)] == Put(name, KeyString(Index(keys, i).value), xs[i], merge);
      Ok(steps)
  }

  /** The stores of one truthy property value: each element under its key when
      it is an array, the value itself under `${keys}` otherwise. Only reading
      keys of null or undefined throws. */
  function Stores(name: string, merge: Merge, b: Value, keys: Value): (r: Result<seq<Step>>)
    ensures r.TypeError? <==> b.Arr? && b.elems != [] && Nullish(keys)
    ensures r.Ok? ==> |r.value| == (if b.Arr? then |b.elems| else 1)
    ensures r.Ok? ==> forall i | 0 <= i < |r.value| :: r.value[i].Put? && r.value[i].name == name
    ensures r.Ok? && !b.Arr? ==> r.value == [Put(name, KeyString(keys), b, merge)]
  {
    if b.Arr? then
      var puts := Puts(name, merge, b.elems, keys, 0);
      assert puts.Ok? ==> forall i | 0 <= i < |b.elems| ::
                            Index(keys, i).Ok? &&
                            puts.value[i] == Put(name, KeyString(Index(keys, i).value), b.elems[i], merge);
      puts
    else Ok([Put(name, KeyString(keys), b, merge)])
  }

  /** The writes for one descriptor on one item, given the property's value and
      the extracted keys: a falsy value writes nothing, not even the name's table;
      the keys are only looked at when the value is truthy. */
  function Occurrence(name: string, merge: Merge, b: Value, keys: Result<Value>): (r: Result<seq<Step>>)
    ensures !Truthy(b) ==> r == Ok([])
    ensures Truthy(b) ==> (r.Ok? <==> keys.Ok? && Stores(name, merge, b, keys.value).Ok?)
    ensures Truthy(b) && r.Ok? ==>
              r.value == [Touch(name)] + Stores(name, merge, b, keys.value).value
  {
    if !Truthy(b) then Ok([])
    else Then(Ok([Touch(name)]), var ks :- keys; Stores(name, merge, b, ks))
  }

  /** The writes of an occurrence, as the collectors make them: nothing for a
      falsy value; otherwise the name's table, then the keys, then the stores. */
  lemma OccurrenceSteps(t: Table, name: string, merge: Merge, b: Value, keys: Result<Value>)
    ensures !Truthy(b) ==> After(t, Occurrence(name, merge, b, keys)) == Ok(t)
    ensures Truthy(b) ==>
              After(t, Occurrence(name, merge, b, keys)) ==
              (var u :- Run(t, [Touch(name)]); var ks :- keys; After(u, Stores(name, merge, b, ks)))
  {
    if Truthy(b) {
      var rest := (var ks :- keys; Stores(name, merge, b, ks));
      AfterThen(t, Ok([Touch(name)]), rest);
    }
  }

  // ---------------------------------------------------------------- what a scan leaves

  function Touched(steps: seq<Step>): set<string> {
    set i | 0 <= i < |steps| && steps[i].Touch? :: steps[i].name
  }

  /** The top-level names are those already there and those touched. */
  lemma {:induction false} RunNames(t: Table, steps: seq<Step>)
    requires Run(t, steps).Ok?
    ensures Run(t, steps).value.Keys == t.Keys + Touched(steps)
    decreases |steps|
  {
    if steps != [] {
      var next := Do(t, steps[0]).value;
      RunNames(next, steps[1..]);
      assert Touched(steps) == (if steps[0].Touch? then {steps[0].name} else {}) + Touched(steps[1..]) by {
        forall n | n in Touched(steps)
          ensures n in (if steps[0].Touch? then {steps[0].name} else {}) + Touched(steps[1..])
        {
          var i :| 0 <= i < |steps| && steps[i].Touch? && steps[i].name == n;
          if i > 0 { assert steps[1..][i - 1] == steps[i]; }
        }
        forall n | n in Touched(steps[1..]) ensures n in Touched(steps) {
          var i :| 0 <= i < |steps[1..]| && steps[1..][i].Touch? && steps[1..][i].name == n;
          assert steps[i + 1] == steps[1..][i];
        }
      }
    }
  }

  /** Every write is under one of the given names. */
  predicate Named(steps: seq<Step>, names: set<string>) {
    forall i | 0 <= i < |steps| :: steps[i].name in names
  }

  /** An occurrence writes under its descriptor's name only. */
  lemma OccurrenceNamed(name: string, merge: Merge, b: Value, keys: Result<Value>)
    requires Occurrence(name, merge, b, keys).Ok?
    ensures Named(Occurrence(name, merge, b, keys).value, {name})
  {
    if Truthy(b) {
      var s := Occurrence(name, merge, b, keys).value;
      var stores := Stores(name, merge, b, keys.value).value;
      forall i | 0 <= i < |s| ensures s[i].name == name {
        if i > 0 {
          assert s[i] == stores[i - 1];
        }
      }
    }
  }

  lemma ThenNamed(a: Result<seq<Step>>, b: Result<seq<Step>>, names: set<string>)
    requires Then(a, b).Ok? && Named(a.value, names) && Named(b.value, names)
    ensures Named(Then(a, b).value, names)
  {
    var s := Then(a, b).value;
    forall i | 0 <= i < |s| ensures s[i].name in names {
      if i >= |a.value| {
        assert s[i] == b.value[i - |a.value|];
      }
    }
  }

  /** A scan whose writes are all under the given names adds no other name. */
  lemma RunNamed(t: Table, steps: seq<Step>, names: set<string>)
    requires Run(t, steps).Ok? && Named(steps, names)
    ensures Run(t, steps).value.Keys <= t.Keys + names
  {
    RunNames(t, steps);
  }

  /** The stores to one entry, in order. */
  function Matching(steps: seq<Step>, name: string, key: string): (r: seq<Step>)
    ensures forall i | 0 <= i < |r| :: r[i].Put? && r[i].name == name && r[i].key == key
    ensures |r| <= |steps|
  {
    if steps == [] then []
    else
      var s := steps[0];
      (if s.Put? && s.name == name && s.key == key then [s] else []) + Matching(steps[1..], name, key)
  }

  /** The left fold of merges over an entry's stores, each starting from what
      the previous left there (or `{}` when that is falsy). */
  function Fold(acc: Value, puts: seq<Step>): Result<Value>
    requires forall i | 0 <= i < |puts| :: puts[i].Put?
    decreases |puts|
  {
    if puts == [] then Ok(acc)
    else
      var next :- ApplyMerge(puts[0].merge, Base(acc), puts[0].value);
      Fold(next, puts[1..])
  }

  /** The entity table as a left fold: every entry ends up as the fold of the
      merges of its own stores, in scan order, over what it held before. */
  lemma {:induction false} RunEntry(t: Table, steps: seq<Step>, name: string, key: string)
    requires Run(t, steps).Ok?
    ensures Fold(Entry(t, name, key), Matching(steps, name, key)) == Ok(Entry(Run(t, steps).value, name, key))
    decreases |steps|
  {
    if steps != [] {
      var s := steps[0];
      var next := Do(t, s).value;
      RunEntry(next, steps[1..], name, key);
      if s.Put? && s.name == name && s.key == key {
        assert Matching(steps, name, key) == [s] + Matching(steps[1..], name, key);
        assert ([s] + Matching(steps[1..], name, key))[1..] == Matching(steps[1..], name, key);
      } else {
        assert Matching(steps, name, key) == Matching(steps[1..], name, key);
        if s.Put? {
          StoreFrame(t, s.name, s.key, s.value, s.merge, name, key);
        }
      }
    }
  }

  /** With a merger that keeps its second argument, `(_, b) => b`, an entry is
      the value of its last store. */
  lemma {:induction false} FoldKeepsLast(acc: Value, puts: seq<Step>, f: Fn)
    requires forall i | 0 <= i < |puts| :: puts[i].Put? && puts[i].merge == Merger(Func(f))
    requires forall a, b :: f.call(a, b) == b
    ensures Fold(acc, puts) == Ok(if puts == [] then acc else puts[|puts| - 1].value)
    decreases |puts|
  {
    if puts != [] {
      FoldKeepsLast(f.call(Base(acc), puts[0].value), puts[1..], f);
    }
  }

  /** The fields an entry gets from the default merge: every store's own
      properties, a later store's winning over an earlier one's. */
  function Layered(m: map<string, Value>, puts: seq<Step>): map<string, Value>
    requires forall i | 0 <= i < |puts| :: puts[i].Put?
    decreases |puts|
  {
    if puts == [] then m else Layered(m + Spread(puts[0].value), puts[1..])
  }

  /** Under the default merge an entry is an object with every field any of its
      stores had, each from the last store that had it. */
  lemma {:induction false} FoldDefault(acc: Value, puts: seq<Step>)
    requires puts != []
    requires forall i | 0 <= i < |puts| :: puts[i].Put? && puts[i].merge == DefaultMerge
    ensures Fold(acc, puts) == Ok(Obj(Layered(Spread(Base(acc)), puts)))
    decreases |puts|
  {
    var next := Merging.DefaultMerge(Base(acc), puts[0].value);
    if |puts| > 1 {
      FoldDefault(next, puts[1..]);
    }
  }

  /** Layering ends with the last store's own fields. */
  lemma {:induction false} LayeredLast(m: map<string, Value>, puts: seq<Step>, f: string)
    requires puts != [] && forall i | 0 <= i < |puts| :: puts[i].Put?
    requires f in Spread(puts[|puts| - 1].value)
    ensures f in Layered(m, puts) && Layered(m, puts)[f] == Spread(puts[|puts| - 1].value)[f]
    decreases |puts|
  {
    if |puts| > 1 {
      LayeredLast(m + Spread(puts[0].value), puts[1..], f);
    }
  }

  /** A single object stored once under the default merge is stored with
      exactly its own fields. */
  lemma StoredOnce(b: Value)
    requires b.Obj?
    ensures Fold(Undefined, [Put("", "", b, DefaultMerge)]) == Ok(b)
  {
    Merging.MergeIntoEmpty(b);
  }

  // ---------------------------------------------------------------- the table object

  /** The `entities` object a collector fills in place. */
  class EntityTable {
    var tables: Table

    /** `const entities = {}`. */
    constructor ()
      ensures tables == map[]
    {
      tables := map[];
    }

    /** `if (!entities[name]) entities[name] = {}`. */
    method Touch(name: string)
      modifies this
      ensures Run(old(tables), [Step.Touch(name)]) == Ok(tables)
    {
      if name !in tables {
        tables := tables[name := map[]];
      }
    }

    /** `setEntity(entities, entityB, key, name, merge)`. */
    method SetEntity(b: Value, key: string, name: string, merge: Merge) returns (ok: bool)
      modifies this
      ensures var r := Store(old(tables), name, key, b, merge);
              if ok then r == Ok(tables) else r.TypeError?
    {
      if name !in tables {
        return false;
      }
      var merged := ApplyMerge(merge, Base(Entry(tables, name, key)), b);
      if merged.TypeError? {
        return false;
      }
      tables := tables[name := tables[name][key := merged.value]];
      return true;
    }

    /** `entityB instanceof Array ? entityB.forEach(set) : set(entityB)`. */
    method SetAll(name: string, merge: Merge, b: Value, keys: Value) returns (ok: bool)
      modifies this
      ensures var goal := After(old(tables), Stores(name, merge, b, keys));
              (ok <==> goal.Ok?) && (ok ==> tables == goal.value)
    {
      if b.Arr? {
        ok := SetEach(name, merge, b.elems, keys);
      } else {
        RunOne(tables, Put(name, KeyString(keys), b, merge));
        ok := SetEntity(b, KeyString(keys), name, merge);
      }
    }

    /** `entityB.forEach((b, i) => set(b, keys[i]))`: the first throw ends the loop. */
    method SetEach(name: string, merge: Merge, xs: seq<Value>, keys: Value) returns (ok: bool)
      modifies this
      ensures var goal := After(old(tables), Puts(name, merge, xs, keys, 0));
              if ok then goal == Ok(tables) else goal.TypeError?
    {
      ghost var goal := After(tables, Puts(name, merge, xs, keys, 0));
      ok := true;
      var i := 0;
      while i < |xs| && ok
        invariant 0 <= i <= |xs|
        invariant if ok then goal == After(tables, Puts(name, merge, xs, keys, i)) else goal.TypeError?
      {
        ok := StoreAt(name, merge, xs, keys, i);
        i := i + 1;
      }
      if ok {
        PutsDone(name, merge, xs, keys, tables);
      }
    }

    /** The callback `(b, i) => set(b, keys[i])` on element `i`: reading the
        key throws when `keys` is null or undefined. */
    method StoreAt(name: string, merge: Merge, xs: seq<Value>, keys: Value, i: nat) returns (ok: bool)
      requires i < |xs|
      modifies this
      ensures var goal := After(old(tables), Puts(name, merge, xs, keys, i));
              if ok then goal == After(tables, Puts(name, merge, xs, keys, i + 1)) else goal.TypeError?
    {
      var k := Index(keys, i);
      if k.TypeError? {
        return false;
      }
      PutsStep(name, merge, xs, keys, i, tables);
      ok := SetEntity(xs[i], KeyString(k.value), name, merge);
    }
  }

  lemma RunOne(t: Table, s: Step)
    ensures Run(t, [s]) == Do(t, s)
  {
    var next := Do(t, s);
    if next.Ok? {
      assert [s][1..] == [];
    }
  }

  lemma PutsDone(name: string, merge: Merge, xs: seq<Value>, keys: Value, t: Table)
    ensures After(t, Puts(name, merge, xs, keys, |xs|)) == Ok(t)
  {
  }

  lemma PutsStep(name: string, merge: Merge, xs: seq<Value>, keys: Value, i: nat, t: Table)
    requires i < |xs| && Index(keys, i).Ok?
    ensures After(t, Puts(name, merge, xs, keys, i)) ==
            (var u :- Store(t, name, KeyString(Index(keys, i).value), xs[i], merge);
             After(u, Puts(name, merge, xs, keys, i + 1)))
  {
    var head: Result<seq<Step>> := Ok([Put(name, KeyString(Index(keys, i).value), xs[i], merge)]);
    assert Puts(name, merge, xs, keys, i) == Then(head, Puts(name, merge, xs, keys, i + 1));
    AfterThen(t, head, Puts(name, merge, xs, keys, i + 1));
  }
}
