/** The legacy process engine, src/process.ts, and the two operations built on
    it, src/normalize.ts and src/denormalize.ts: clone the item, then overwrite
    the clone's declared properties one descriptor at a time with what the
    processor computes from the ORIGINAL item. */
module LegacyProcess {
  import opened Outcome
  import opened Values
  import opened Keys
  import Overwriting
  import LegacyEntity
  import Facade

  /** The two processors: `({ extract }) => extract(item)` and
      `({ retrieve }) => retrieve(item, entities)`. */
  datatype Processor = Extracting | Retrieving(table: Value)

  function Apply(p: Processor, e: Entity, item: Value): Result<Value> {
    match p
    case Extracting => Facade.Extract(e, item)
    case Retrieving(t) => Facade.Retrieve(e, item, t)
  }

  /** The processor called on each descriptor, in order. Unlike CoreProcess.Calls
      it reads the original item, a whole value, and its processors are the
      legacy extractor and retriever. */
  function Calls(p: Processor, es: seq<Entity>, item: Value): (r: seq<Result<Value>>)
    ensures |r| == |es| && forall i | 0 <= i < |es| :: r[i] == Apply(p, es[i], item)
  {
    seq(|es|, i requires 0 <= i < |es| => Apply(p, es[i], item))
  }

  /** The loop of `process` from a given clone on: the processor's value for each
      descriptor is written to the clone before the next descriptor runs. */
  function Steps(p: Processor, es: seq<Entity>, item: Value, clone: Value): Result<Value>
  {
    Overwriting.Interleaved(clone, Props(es), Calls(p, es, item))
  }

  /** What `process(item, entities, processor, cloner)` gives: the clone with
      every descriptor's value written over it. It throws exactly when the
      cloner or a processor throws, or when there is a property to write and
      the clone is not a plain object; what it returns holds every declared
      property. */
  function Processed(p: Processor, es: seq<Entity>, item: Value, cloner: Cloner): (r: Result<Value>)
    ensures r.Ok? <==> Facade.Clone(cloner, item).Ok? &&
                       (es != [] ==> Facade.Clone(cloner, item).value.Obj?) &&
                       forall i | 0 <= i < |es| :: Apply(p, es[i], item).Ok?
    ensures r.Ok? && es != [] ==> r.value.Obj? && forall i | 0 <= i < |es| :: es[i].prop in r.value.fields
  {
    var clone :- Facade.Clone(cloner, item);
    Overwriting.InterleavedIsOverwrite(clone, Props(es), Calls(p, es, item));
    Steps(p, es, item, clone)
  }

  /** `process(item, entities, processor, cloner)`. */
  method Process(item: Value, es: seq<Entity>, p: Processor, cloner: Cloner) returns (r: Result<Value>)
    ensures r == Processed(p, es, item, cloner)
  {
    var cloned := Facade.Clone(cloner, item);
    if cloned.TypeError? {
      return TypeError;
    }
    var clone := cloned.value;
    var i := 0;
    while i < |es|
      invariant 0 <= i <= |es|
      invariant Processed(p, es, item, cloner) == Steps(p, es[i..], item, clone)
    {
      var x := Apply(p, es[i], item);
      if x.TypeError? {
        return TypeError;
      }
      var next := SetProp(clone, es[i].prop, x.value);
      if next.TypeError? {
        return TypeError;
      }
      assert Props(es[i..])[1..] == Props(es[i + 1..]);
      assert Calls(p, es[i..], item)[1..] == Calls(p, es[i + 1..], item);
      clone := next.value;
      i := i + 1;
    }
    return Ok(clone);
  }

  /** `normalize(item, schemaEntities, cloner)`. */
  method Normalize(item: Value, es: seq<Entity>, cloner: Cloner) returns (r: Result<Value>)
    ensures r == Processed(Extracting, es, item, cloner)
  {
    r := Process(item, es, Extracting, cloner);
  }

  /** `denormalize(item, schemaEntities, entities, cloner)`. */
  method Denormalize(item: Value, es: seq<Entity>, table: Value, cloner: Cloner) returns (r: Result<Value>)
    ensures r == Processed(Retrieving(table), es, item, cloner)
  {
    r := Process(item, es, Retrieving(table), cloner);
  }

  // ---------------------------------------------------------------- the facade's view

  /** The facade's normalize of one item is this process with the schema's
      descriptors and cloner. */
  lemma NormalizeIsProcess(s: Schema, item: Value)
    requires LegacyEntity.EntitiesFor(s.decls).Ok?
    ensures Facade.NormalizeItem(s, item) == Processed(Extracting, LegacyEntity.EntitiesFor(s.decls).value, item, s.cloner)
  {
    var es := LegacyEntity.EntitiesFor(s.decls).value;
    LegacyEntity.KeysBelowSchema(s);
    var clone := Facade.Clone(s.cloner, item);
    if clone.Ok? {
      Overwriting.InterleavedIsOverwrite(clone.value, Props(es), Calls(Extracting, es, item));
      var a := Facade.ExtractAll(s, es, item);
      var b := Overwriting.AllOk(Calls(Extracting, es, item));
      assert a.Ok? <==> b.Ok?;
      if a.Ok? {
        assert a.value == b.value;
      }
    }
  }

  /** The facade's denormalize of one item is this process with the schema's
      descriptors and cloner. */
  lemma DenormalizeIsProcess(s: Schema, item: Value, table: Value)
    requires LegacyEntity.EntitiesFor(s.decls).Ok?
    ensures Facade.DenormalizeItem(s, item, table) ==
            Processed(Retrieving(table), LegacyEntity.EntitiesFor(s.decls).value, item, s.cloner)
  {
    var es := LegacyEntity.EntitiesFor(s.decls).value;
    LegacyEntity.KeysBelowSchema(s);
    var clone := Facade.Clone(s.cloner, item);
    if clone.Ok? {
      Overwriting.InterleavedIsOverwrite(clone.value, Props(es), Calls(Retrieving(table), es, item));
      var a := Facade.RetrieveAll(s, es, item, table);
      var b := Overwriting.AllOk(Calls(Retrieving(table), es, item));
      assert a.Ok? <==> b.Ok?;
      if a.Ok? {
        assert a.value == b.value;
      }
    }
  }
}
