/** The descriptor builder of the current generation, src/core/entitiesFor.ts:
    one descriptor per declared property, named after its alias, the property
    itself or the property's plural. */
module CoreEntitiesFor {
  import opened Outcome
  import opened Values
  import opened Keys
  import Define
  import Pluralizer

  /** `alias || (isArrayKey ? prop : pluralize(prop))`; an alias that is not a
      string names its table by its string form. */
  function EntityName(alias: Part, prop: string, isArray: bool): (r: string)
    ensures PartTruthy(alias) ==> r == PartKeyString(alias)
    ensures !PartTruthy(alias) && isArray ==> r == prop
    ensures !PartTruthy(alias) && !isArray ==> r == Pluralizer.Pluralize(Str(prop))
    ensures prop != "" || PartTruthy(alias) ==> (r == "" <==> PartTruthy(alias) && PartKeyString(alias) == "")
  {
    if PartTruthy(alias) then PartKeyString(alias)
    else if isArray then prop
    else Pluralizer.Pluralize(Str(prop))
  }

  /** The descriptor of one `[prop, declaration]` entry. Building the retriever
      reads `key.constructor`, which throws when the resolver found no key. */
  function EntityFor(d: Decl): (r: Result<Entity>)
    ensures r.TypeError? <==> Define.Define(d.part).key.Absent?
    ensures r.Ok? ==> r.value.prop == d.prop && Within(r.value.key, d.part)
  {
    var df := Define.Define(d.part);
    if df.key.Absent? then TypeError
    else
      Ok(Entity(EntityName(df.alias, d.prop, df.isArray), d.prop,
                if df.merger.Absent? then DefaultMerge else Merger(df.merger),
                df.key, df.isArray))
  }

  /** `Object.entries(keys).map(...)`: one descriptor per entry, in order. */
  function EntitiesFor(decls: seq<Decl>): (r: Result<seq<Entity>>)
    ensures r.Ok? <==> forall i | 0 <= i < |decls| :: EntityFor(decls[i]).Ok?
    ensures r.Ok? ==> |r.value| == |decls| &&
                      forall i | 0 <= i < |decls| :: r.value[i] == EntityFor(decls[i]).value
  {
    if decls == [] then Ok([])
    else
      var first :- EntityFor(decls[0]);
      var rest :- EntitiesFor(decls[1..]);
      Ok([first] + rest)
  }

  /** Descriptors of distinct entries name distinct properties. */
  lemma EntitiesForDistinct(decls: seq<Decl>)
    requires DistinctDecls(decls) && EntitiesFor(decls).Ok?
    ensures DistinctProps(EntitiesFor(decls).value)
  {
  }

  // ---------------------------------------------------------------- declared shapes

  /** The table a declared shape means: its alias when one is given and not
      empty, otherwise the property for arrays and the property's plural for
      single values. */
  function ShapeName(sh: Shape, prop: string): string {
    if sh.alias.Some? && sh.alias.value != "" then sh.alias.value
    else if sh.isArray then prop
    else Pluralizer.Pluralize(Str(prop))
  }

  /** The merge a declared shape means: its merger, or `defaultMerge`. */
  function ShapeMerge(sh: Shape): Merge {
    if sh.merger.Some? then Merger(Func(sh.merger.value)) else DefaultMerge
  }

  /** Every declaration the resolver reads as written gets the descriptor its
      shape means: named by alias, property or plural, merged by its merger or
      by default, and keyed and flagged as declared. */
  lemma EntityForShape(prop: string, sh: Shape)
    requires !Define.Clash(sh)
    ensures EntityFor(Decl(prop, Encode(sh))) ==
            Ok(Entity(ShapeName(sh, prop), prop, ShapeMerge(sh), KeyPart(sh.key), sh.isArray))
  {
    Define.DefineEncode(sh);
  }

  /** `director: d => d.id` fills the table `directors`. */
  lemma DirectorTable(id: Fn, prop: string)
    requires Length(id) == 1 && prop == "director"
    ensures EntityFor(Decl(prop, Func(id))).value.name == "directors"
  {
    SingleKeyName(id, prop);
    DirectorPlural(prop);
  }

  lemma SingleKeyName(id: Fn, prop: string)
    ensures EntityFor(Decl(prop, Func(id))).value.name == Pluralizer.Pluralize(Str(prop))
  {
  }

  /** `['producers', d => d.id]` fills `producers` instead, so no `directors`
      table appears; `movies: [m => m.id]` fills `movies`. */
  lemma TestNames(id: Fn)
    requires Length(id) == 1
    ensures EntityFor(Decl("director", Tuple([Name("producers"), Func(id)]))).value.name == "producers"
    ensures EntityFor(Decl("movies", Tuple([Func(id)]))).value.name == "movies"
  {
  }

  lemma DirectorPlural(s: string)
    requires s == "director"
    ensures Pluralizer.Pluralize(Str(s)) == "directors"
  {
    Pluralizer.PluralOfDirector(s);
    Pluralizer.PluralizeLowerWord(s);
  }
}
