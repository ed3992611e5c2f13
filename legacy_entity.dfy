/** The legacy descriptor builder of src/entity.ts: it consumes the legacy
    resolver's `[alias, key, wasArrayKey, merger]` and names tables like the
    current builder. */
module LegacyEntity {
  import opened Outcome
  import opened Values
  import opened Keys
  import DefineKey
  import CoreEntitiesFor
  import Pluralizer

  /** The descriptor of one `[prop, declaration]` entry. Building the extractor
      reads `key.normalize`, which throws when the resolver found no key. */
  function EntityFor(d: Decl): (r: Result<Entity>)
    ensures r.TypeError? <==> DefineKey.Resolved(d.part).key.Absent?
    ensures r.Ok? ==> r.value.prop == d.prop && Within(r.value.key, d.part)
  {
    var df := DefineKey.Resolved(d.part);
    if df.key.Absent? then TypeError
    else
      Ok(Entity(CoreEntitiesFor.EntityName(df.alias, d.prop, df.wasArrayKey), d.prop,
                if PartTruthy(df.merger) then Merger(df.merger) else DefaultMerge,
                df.key, df.wasArrayKey))
  }

  /** `Object.entries(keys).map(...)`: one descriptor per entry, in order. The
      fold is the one of CoreEntitiesFor.EntitiesFor, but over this module's
      EntityFor, which resolves declarations with the legacy resolver of
      src/helpers/define-key.ts rather than src/helpers/define.ts. */
  function EntitiesFor(decls: seq<Decl>): (r: Result<seq<Entity>>)
    ensures r.Ok? <==> forall i | 0 <= i < |decls| :: EntityFor(decls[i]).Ok?
    ensures r.Ok? ==> |r.value| == |decls| &&
                      forall i | 0 <= i < |decls| :: r.value[i] == EntityFor(decls[i]).value
  {
    if decls == [] then Ok([])
    else
      var first :- EntityFor(decls[0]);
      var rest :- EntitiesFor(decls[1..]);
      Ok([first] + rest)
  }

  /** Every key of a schema's descriptors is smaller than the schema: nested
      schemas are reached by descending. */
  lemma KeysBelowSchema(s: Schema)
    requires EntitiesFor(s.decls).Ok?
    ensures forall e | e in EntitiesFor(s.decls).value :: PartSize(e.key) < SchemaSize(s)
  {
    var es := EntitiesFor(s.decls).value;
    forall e | e in es
      ensures PartSize(e.key) < SchemaSize(s)
    {
      var i :| 0 <= i < |es| && es[i] == e;
      WithinSize(e.key, s.decls[i].part);
      DeclBelowSchema(s, i);
    }
  }

  /** Descriptors of distinct entries name distinct properties. */
  lemma LegacyEntitiesDistinct(decls: seq<Decl>)
    requires DistinctDecls(decls) && EntitiesFor(decls).Ok?
    ensures DistinctProps(EntitiesFor(decls).value)
  {
  }

  /** Every declaration the legacy resolver reads as written gets the descriptor
      its shape means, as in the current generation. */
  lemma LegacyEntityForShape(prop: string, sh: Shape)
    requires !DefineKey.Clash(sh)
    ensures EntityFor(Decl(prop, Encode(sh))) ==
            Ok(Entity(CoreEntitiesFor.ShapeName(sh, prop), prop, CoreEntitiesFor.ShapeMerge(sh), KeyPart(sh.key), sh.isArray))
  {
    DefineKey.ResolvedEncode(sh);
  }

  /** `goose: ['geese', 'id']` fills the table `geese` here, where the current
      builder reads the same declaration as key 'geese' with merger 'id', files
      it under the plural of `goose` and cannot merge with it. */
  lemma GeeseDiverges()
    ensures EntityFor(Decl("goose", Tuple([Name("geese"), Name("id")]))) ==
            Ok(Entity("geese", "goose", DefaultMerge, Name("id"), false))
    ensures CoreEntitiesFor.EntityFor(Decl("goose", Tuple([Name("geese"), Name("id")]))) ==
            Ok(Entity(Pluralizer.Pluralize(Str("goose")), "goose", Merger(Name("id")), Name("geese"), false))
    ensures ApplyMerge(Merger(Name("id")), Obj(map[]), Obj(map[])) == TypeError
  {
  }
}
