/** The key-declaration resolver of the current generation, src/helpers/define.ts:
    an early-return chain over the tuple shapes of a declaration. */
module Define {
  import opened Outcome
  import opened Keys

  /** `[key, isArray, alias?, merger?]`; a missing alias or merger is `undefined`. */
  datatype Defined = Defined(key: Part, isArray: bool, alias: Part, merger: Part)

  /** `[[key], merger]`: the first element is an array. */
  predicate IsUnaliasedArray(parts: seq<Part>) {
    At(parts, 0).Tuple?
  }

  /** `[alias, [key], merger?]`: the second element is an array. */
  predicate IsAliasedArray(parts: seq<Part>) {
    At(parts, 1).Tuple?
  }

  /** `[alias, keyFn, merger?]`: a string followed by a function of exactly one parameter. */
  predicate IsAliased(parts: seq<Part>) {
    At(parts, 0).Name? && At(parts, 1).Func? && Length(At(parts, 1).fn) == 1
  }

  function Define(p: Part): (r: Defined)
    ensures r.isArray <==> p.Tuple? && (|p.parts| == 1 || IsUnaliasedArray(p.parts) || IsAliasedArray(p.parts))
    ensures r.alias != Absent ==>
              p.Tuple? && |p.parts| > 1 && r.alias == p.parts[0] &&
              !IsUnaliasedArray(p.parts) && (IsAliasedArray(p.parts) || IsAliased(p.parts))
    ensures !p.Tuple? ==> r == Defined(p, false, Absent, Absent)
    ensures Within(r.key, p)
  {
    if !p.Tuple? then Defined(p, false, Absent, Absent)
    else if |p.parts| == 1 then Defined(p.parts[0], true, Absent, Absent)
    else if IsUnaliasedArray(p.parts) then
      Defined(At(At(p.parts, 0).parts, 0), true, Absent, At(p.parts, 1))
    else if IsAliasedArray(p.parts) then
      Defined(At(At(p.parts, 1).parts, 0), true, At(p.parts, 0), At(p.parts, 2))
    else if IsAliased(p.parts) then
      Defined(At(p.parts, 1), false, At(p.parts, 0), At(p.parts, 2))
    else
      Defined(At(p.parts, 0), false, Absent, At(p.parts, 1))
  }

  /** What a declared shape should resolve to. */
  function Intended(sh: Shape): Defined {
    Defined(KeyPart(sh.key), sh.isArray, AliasPart(sh.alias), MergerPart(sh.merger))
  }

  /** The shapes this resolver cannot tell apart from another: `[name, merger]`
      with a one-parameter merger reads as an alias, and `[alias, key]` or
      `[alias, key, merger]` whose key is not a one-parameter function reads as
      key plus merger (so `['geese', 'id']` names no table `geese`). */
  predicate Clash(sh: Shape) {
    !sh.isArray &&
    ((sh.alias.None? && sh.merger.Some? && sh.key.KeyName? && Length(sh.merger.value) == 1) ||
     (sh.alias.Some? && !(sh.key.KeyFn? && Length(sh.key.fn) == 1)))
  }

  /** A declaration resolves to what it means exactly when its shape does not clash. */
  lemma DefineEncode(sh: Shape)
    ensures Define(Encode(sh)) == Intended(sh) <==> !Clash(sh)
  {
    var p := Encode(sh);
    if sh.alias.Some? && !sh.isArray {
      assert p.parts[0] == Name(sh.alias.value);
      if !Clash(sh) {
        assert IsAliased(p.parts);
      } else {
        assert Define(p).alias == Absent;
      }
    } else if sh.alias.None? && sh.merger.Some? && !sh.isArray {
      if Clash(sh) {
        assert IsAliased(p.parts);
        assert Define(p).alias != Absent;
      }
    }
  }

  /** The three tuple shapes exercised by the schema tests: a key function with a
      merger, an alias with a key function, and an aliased array with a merger. */
  lemma DefineTestShapes(id: Fn, pick: Fn)
    requires Length(id) == 1 && Length(pick) == 2
    ensures Define(Tuple([Func(id), Func(pick)])) == Defined(Func(id), false, Absent, Func(pick))
    ensures Define(Tuple([Name("producers"), Func(id)])) == Defined(Func(id), false, Name("producers"), Absent)
    ensures Define(Tuple([Name("films"), Tuple([Func(id)]), Func(pick)])) == Defined(Func(id), true, Name("films"), Func(pick))
  {
  }
}
