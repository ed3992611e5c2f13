/** The key-declaration resolver of the legacy generation, src/helpers/define-key.ts:
    it assigns `alias`, `key`, `wasArrayKey` and `merger` across if/else branches,
    testing for a merger first. */
module DefineKey {
  import opened Outcome
  import opened Keys

  /** `[alias, key, wasArrayKey, merger]`, in this resolver's order. */
  datatype LegacyDefined = LegacyDefined(alias: Part, key: Part, wasArrayKey: bool, merger: Part)

  /** The second element is a function whose parameters count two. */
  predicate WithMerger(parts: seq<Part>) {
    At(parts, 1).Func? && CountArgs(At(parts, 1).fn) == 2
  }

  predicate IsAliasedArrayKey(parts: seq<Part>) {
    At(parts, 1).Tuple?
  }

  predicate NoAlias(parts: seq<Part>) {
    |parts| == 1
  }

  /** What each declaration form resolves to. */
  function Resolved(p: Part): (r: LegacyDefined)
    ensures !p.Tuple? ==> r == LegacyDefined(Absent, p, false, Absent)
    ensures r.wasArrayKey ==> p.Tuple?
    ensures Within(r.key, p)
  {
    if !p.Tuple? then LegacyDefined(Absent, p, false, Absent)
    else
      var parts := p.parts;
      if WithMerger(parts) then
        var first := At(parts, 0);
        LegacyDefined(Absent, if first.Tuple? then At(first.parts, 0) else first, first.Tuple?, At(parts, 1))
      else if NoAlias(parts) then LegacyDefined(Absent, parts[0], true, Absent)
      else if IsAliasedArrayKey(parts) then LegacyDefined(At(parts, 0), At(At(parts, 1).parts, 0), true, At(parts, 2))
      else LegacyDefined(At(parts, 0), At(parts, 1), false, At(parts, 2))
  }

  /** `define(polymorphicKey)`: `wasArrayKey` starts true and only the branches
      that are not array forms clear it. */
  method Define(p: Part) returns (alias: Part, key: Part, wasArrayKey: bool, merger: Part)
    ensures LegacyDefined(alias, key, wasArrayKey, merger) == Resolved(p)
  {
    alias := Absent;
    wasArrayKey := true;
    merger := Absent;
    if p.Tuple? {
      if WithMerger(p.parts) {
        var whichKey := At(p.parts, 0);
        merger := At(p.parts, 1);
        wasArrayKey := whichKey.Tuple?;
        key := if whichKey.Tuple? then At(whichKey.parts, 0) else whichKey;
      } else if NoAlias(p.parts) {
        key := p.parts[0];
      } else if IsAliasedArrayKey(p.parts) {
        var arrayKey;
        alias, arrayKey, merger := At(p.parts, 0), At(p.parts, 1), At(p.parts, 2);
        key := At(arrayKey.parts, 0);
      } else {
        wasArrayKey := false;
        alias, key, merger := At(p.parts, 0), At(p.parts, 1), At(p.parts, 2);
      }
    } else {
      wasArrayKey := false;
      key := p;
    }
  }

  function Intended(sh: Shape): LegacyDefined {
    LegacyDefined(AliasPart(sh.alias), KeyPart(sh.key), sh.isArray, MergerPart(sh.merger))
  }

  /** The shapes this resolver misreads: a merger declared without an alias whose
      parameters do not count two, and an aliased single key that is a function
      whose parameters count two (taken for a merger). */
  predicate Clash(sh: Shape) {
    (sh.alias.None? && sh.merger.Some? && CountArgs(sh.merger.value) != 2) ||
    (sh.alias.Some? && !sh.isArray && sh.key.KeyFn? && CountArgs(sh.key.fn) == 2)
  }

  lemma ResolvedEncode(sh: Shape)
    ensures Resolved(Encode(sh)) == Intended(sh) <==> !Clash(sh)
  {
    var p := Encode(sh);
    if sh.alias.None? && sh.merger.Some? {
      if sh.isArray {
        assert p.parts[0] == Tuple([KeyPart(sh.key)]);
      }
      if Clash(sh) {
        assert Resolved(p).alias != Absent;
      }
    } else if sh.alias.Some? {
      assert p.parts[0] == Name(sh.alias.value);
      if Clash(sh) {
        assert Resolved(p).alias == Absent;
      }
    }
  }
}
