/** The in-place engine of the current generation, src/core/process.ts, and
    the two operations built on it, src/core/normalize.ts and
    src/core/denormalize.ts: the caller's object itself has its declared
    properties overwritten, one descriptor at a time, and is returned. */
module CoreProcess {
  import opened Outcome
  import opened Values
  import opened Keys
  import Overwriting
  import Accessor
  import ExtractorFor
  import RetrieverFor

  /** The plain object handed to `normalize` or `denormalize`: its properties
      are updated where it lives. */
  class Item {
    var fields: map<string, Value>

    constructor (fields: map<string, Value>)
      ensures this.fields == fields
    {
      this.fields := fields;
    }
  }

  /** The two processors: `({ extract }) => extract(item)` and
      `({ retrieve }) => retrieve(item, entities)`. Both read the item as it is
      when they are called, after the writes of the earlier descriptors. */
  datatype Processor = Extracting | Retrieving(table: Value)

  function Apply(p: Processor, e: Entity, m: map<string, Value>): Result<Value> {
    match p
    case Extracting => ExtractorFor.Extract(e, Obj(m))
    case Retrieving(t) => RetrieverFor.Retrieve(e, Obj(m), t)
  }

  /** What a run leaves behind: the object's properties, and whether a
      processor threw part way (the writes before it stay). */
  datatype Run = Run(fields: map<string, Value>, thrown: bool)

  /** `entities.forEach(entity => item[entity.prop] = processor(entity))` from
      the properties `m` on. The object keeps every property it had, and a run
      that does not throw writes every declared property (RunKeys and
      RunUntouched say which keys and values it ends with). */
  function Processed(p: Processor, es: seq<Entity>, m: map<string, Value>): (r: Run)
    ensures m.Keys <= r.fields.Keys
    ensures !r.thrown ==> forall i | 0 <= i < |es| :: es[i].prop in r.fields
    decreases |es|
  {
    if es == [] then Run(m, false)
    else
      var x := Apply(p, es[0], m);
      if x.TypeError? then Run(m, true)
      else Processed(p, es[1..], m[es[0].prop := x.value])
  }

  /** `process(item, entities, processor)`: returns the very object it was given. */
  method Process(item: Item, es: seq<Entity>, p: Processor) returns (r: Result<Item>)
    modifies item
    ensures item.fields == Processed(p, es, old(item.fields)).fields
    ensures r.Ok? <==> !Processed(p, es, old(item.fields)).thrown
    ensures r.Ok? ==> r.value == item
  {
    ghost var run := Processed(p, es, item.fields);
    var i := 0;
    while i < |es|
      invariant 0 <= i <= |es|
      invariant run == Processed(p, es[i..], item.fields)
    {
      var x := Apply(p, es[i], item.fields);
      if x.TypeError? {
        return TypeError;
      }
      assert es[i..][1..] == es[i + 1..];
      item.fields := item.fields[es[i].prop := x.value];
      i := i + 1;
    }
    return Ok(item);
  }

  /** `normalize(item, schemaEntities)`. */
  method Normalize(item: Item, es: seq<Entity>) returns (r: Result<Item>)
    modifies item
    ensures item.fields == Processed(Extracting, es, old(item.fields)).fields
    ensures r.Ok? <==> !Processed(Extracting, es, old(item.fields)).thrown
    ensures r.Ok? ==> r.value == item
  {
    r := Process(item, es, Extracting);
  }

  /** `denormalize(item, schemaEntities, entities)`. */
  method Denormalize(item: Item, es: seq<Entity>, table: Value) returns (r: Result<Item>)
    modifies item
    ensures item.fields == Processed(Retrieving(table), es, old(item.fields)).fields
    ensures r.Ok? <==> !Processed(Retrieving(table), es, old(item.fields)).thrown
    ensures r.Ok? ==> r.value == item
  {
    r := Process(item, es, Retrieving(table));
  }

  // ---------------------------------------------------------------- what a run does

  /** A property no descriptor names is left as it was, present or not. */
  lemma {:induction false} RunUntouched(p: Processor, es: seq<Entity>, m: map<string, Value>, k: string)
    requires k !in Props(es)
    ensures var f := Processed(p, es, m).fields;
            (k in f <==> k in m) && (k in m ==> f[k] == m[k])
    decreases |es|
  {
    if es != [] {
      var x := Apply(p, es[0], m);
      if x.Ok? {
        assert Props(es)[1..] == Props(es[1..]);
        RunUntouched(p, es[1..], m[es[0].prop := x.value], k);
      }
    }
  }

  /** A run that gets through writes every declared property and no other. */
  lemma {:induction false} RunKeys(p: Processor, es: seq<Entity>, m: map<string, Value>)
    requires !Processed(p, es, m).thrown
    ensures Processed(p, es, m).fields.Keys == m.Keys + set e | e in es :: e.prop
    decreases |es|
  {
    if es != [] {
      var x := Apply(p, es[0], m);
      RunKeys(p, es[1..], m[es[0].prop := x.value]);
      assert forall e :: e in es <==> e == es[0] || e in es[1..];
    }
  }

  /** A run is its first `j` descriptors, then the rest on what they left. */
  lemma {:induction false} RunSplit(p: Processor, es: seq<Entity>, m: map<string, Value>, j: nat)
    requires j <= |es| && !Processed(p, es[..j], m).thrown
    ensures Processed(p, es, m) == Processed(p, es[j..], Processed(p, es[..j], m).fields)
    decreases j
  {
    if j > 0 {
      var x := Apply(p, es[0], m);
      assert es[..j][0] == es[0] && es[..j][1..] == es[1..][..j - 1];
      RunSplit(p, es[1..], m[es[0].prop := x.value], j - 1);
      assert es[1..][j - 1..] == es[j..];
    }
  }

  /** When two descriptors name the same property, the later write wins: the
      property ends up holding what the last of them computed. */
  lemma RunLast(p: Processor, es: seq<Entity>, m: map<string, Value>, j: nat)
    requires Overwriting.LastWrite(Props(es), j) && !Processed(p, es, m).thrown
    ensures var after := Processed(p, es, m).fields;
            es[j].prop in after && Apply(p, es[j], Processed(p, es[..j], m).fields) == Ok(after[es[j].prop])
  {
    var prefix := Processed(p, es[..j], m);
    if prefix.thrown {
      PrefixThrows(p, es, m, j);
    } else {
      RunSplit(p, es, m, j);
      var x := Apply(p, es[j], prefix.fields);
      assert es[j..][1..] == es[j + 1..];
      assert Props(es)[j + 1..] == Props(es[j + 1..]);
      assert es[j].prop !in Props(es[j + 1..]);
      RunUntouched(p, es[j + 1..], prefix.fields[es[j].prop := x.value], es[j].prop);
    }
  }

  /** A throw in the first `j` descriptors ends the whole run with a throw. */
  lemma {:induction false} PrefixThrows(p: Processor, es: seq<Entity>, m: map<string, Value>, j: nat)
    requires j <= |es| && Processed(p, es[..j], m).thrown
    ensures Processed(p, es, m).thrown
    decreases j
  {
    var x := Apply(p, es[0], m);
    if x.Ok? {
      assert es[..j][0] == es[0] && es[..j][1..] == es[1..][..j - 1];
      PrefixThrows(p, es[1..], m[es[0].prop := x.value], j - 1);
    }
  }

  // ---------------------------------------------------------------- distinct properties

  /** The processor called on each descriptor against the same properties. */
  function Calls(p: Processor, es: seq<Entity>, m: map<string, Value>): (r: seq<Result<Value>>)
    ensures |r| == |es| && forall i | 0 <= i < |es| :: r[i] == Apply(p, es[i], m)
  {
    seq(|es|, i requires 0 <= i < |es| => Apply(p, es[i], m))
  }

  /** A processor reads only its descriptor's property. */
  lemma ApplyReadsOnlyProp(p: Processor, e: Entity, m: map<string, Value>, k: string, v: Value)
    requires k != e.prop
    ensures Apply(p, e, m[k := v]) == Apply(p, e, m)
  {
    match p
    case Extracting =>
      Accessor.AccessReadsOnlyProp(m[k := v], m, e.prop, e.isArray, x => ExtractorFor.ExtractOne(e.key, x));
    case Retrieving(t) =>
      Accessor.AccessReadsOnlyProp(m[k := v], m, e.prop, e.isArray, x => RetrieverFor.RetrieveOne(e.name, e.key, x, t));
  }

  /** Declaration keys are distinct, so no write is seen by a later descriptor:
      the in-place run computes every value from the object as it was given,
      and then writes them all. */
  lemma {:induction false} RunDistinct(p: Processor, es: seq<Entity>, m: map<string, Value>)
    requires Overwriting.Distinct(Props(es))
    ensures var all := Overwriting.AllOk(Calls(p, es, m));
            var run := Processed(p, es, m);
            (run.thrown <==> all.TypeError?) &&
            (all.Ok? ==> run.fields == Overwriting.OverwriteFields(m, Props(es), all.value))
    decreases |es|
  {
    if es != [] {
      var x := Apply(p, es[0], m);
      assert Props(es)[1..] == Props(es[1..]);
      if x.Ok? {
        var m' := m[es[0].prop := x.value];
        forall i | 0 <= i < |es| - 1
          ensures Calls(p, es[1..], m')[i] == Calls(p, es[1..], m)[i]
        {
          assert Props(es)[0] != Props(es)[i + 1];
          ApplyReadsOnlyProp(p, es[1..][i], m, es[0].prop, x.value);
        }
        assert Calls(p, es[1..], m') == Calls(p, es[1..], m);
        assert Calls(p, es, m)[1..] == Calls(p, es[1..], m);
        RunDistinct(p, es[1..], m');
        var rest := Overwriting.AllOk(Calls(p, es[1..], m));
        if rest.Ok? {
          assert Overwriting.AllOk(Calls(p, es, m)).value == [x.value] + rest.value;
        }
      }
    }
  }

  /** With distinct properties each declared property ends up holding its
      descriptor's value computed from the object as it was given. */
  lemma RunReadsOriginal(p: Processor, es: seq<Entity>, m: map<string, Value>, i: nat)
    requires Overwriting.Distinct(Props(es)) && i < |es| && !Processed(p, es, m).thrown
    ensures var after := Processed(p, es, m).fields;
            es[i].prop in after && Apply(p, es[i], m) == Ok(after[es[i].prop])
  {
    RunDistinct(p, es, m);
    var all := Overwriting.AllOk(Calls(p, es, m));
    Overwriting.OverwriteDistinct(m, Props(es), all.value, i);
  }

  // ---------------------------------------------------------------- normalize, denormalize

  /** Normalizing an item whose declared properties already hold references
      leaves it as it is: normalizing a normalized item changes nothing. */
  lemma {:induction false} NormalizeReferences(es: seq<Entity>, m: map<string, Value>)
    requires forall e | e in es :: e.prop in m && ExtractorFor.IsReference(e.isArray, m[e.prop])
    ensures Processed(Extracting, es, m) == Run(m, false)
    decreases |es|
  {
    if es != [] {
      ExtractorFor.ExtractReference(es[0], m);
      assert m[es[0].prop := m[es[0].prop]] == m;
      NormalizeReferences(es[1..], m);
    }
  }

  /** Against a table holding none of the entities, denormalizing leaves every
      reference where it is. */
  lemma {:induction false} DenormalizeMissing(es: seq<Entity>, m: map<string, Value>, table: Value)
    requires RetrieverFor.IsTable(table)
    requires forall e | e in es ::
               !e.key.Nested? && !e.key.Absent? && e.name !in table.fields &&
               e.prop in m && (e.isArray ==> m[e.prop].Arr?)
    ensures Processed(Retrieving(table), es, m) == Run(m, false)
    decreases |es|
  {
    if es != [] {
      RetrieverFor.RetrieveMissing(es[0], m, table);
      assert m[es[0].prop := m[es[0].prop]] == m;
      DenormalizeMissing(es[1..], m, table);
    }
  }

  /** A null or undefined array property comes back as `[]`, in either direction. */
  lemma NullArray(p: Processor, e: Entity, m: map<string, Value>)
    requires e.isArray && (e.prop !in m || Nullish(m[e.prop]))
    ensures Apply(p, e, m) == Ok(Arr([]))
  {
  }
}
