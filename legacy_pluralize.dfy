/** The entity-name pluralizer of the legacy generation, src/pluralize.ts. It
    differs from the current one in its rule list and in how `replace` shortens
    the word: as written it drops as many characters as the replacement has,
    where the matched suffix's length is evidently meant. Both readings are
    modelled, chosen by a `Cut`. */
module LegacyPluralizer {
  import opened Outcome
  import opened Values
  import opened Text
  import Pluralizer

  /** Words ending in 'o' that take 'es' (no 'volcano' here). */
  const OExceptions: seq<string> := ["echo", "embargo", "hero", "potato", "tomato", "veto"]

  /** How many characters `replace(repl)` removes before appending repl. */
  datatype Cut =
    | ReplacementLength  // `word.slice(0, -repl.length)`, as written
    | SuffixLength       // the length of the suffix that matched, as intended

  /** `ifEndsWith(suffix).replace(repl)` on a word that ends with suffix
      (`slice(0, -0)` is '', so an empty repl would empty the word). */
  function Replace(w: string, suffix: string, repl: string, cut: Cut): (r: string)
    requires EndsWith(w, suffix)
    ensures EndsWith(r, repl)
    ensures cut == SuffixLength ==> r == w[..|w| - |suffix|] + repl
    ensures cut == ReplacementLength && repl != "" ==> r == DropLast(w, |repl|) + repl
  {
    var kept :=
      if cut == SuffixLength then w[..|w| - |suffix|]
      else if repl == "" then ""
      else DropLast(w, |repl|);
    EndsWithSlice(kept + repl, repl);
    assert (kept + repl)[|kept|..] == repl;
    kept + repl
  }

  /** `/[aeiou]y$/.test(s)`. */
  predicate VowelY(s: string) {
    |s| >= 2 && s[|s| - 1] == 'y' && s[|s| - 2] in "aeiou"
  }

  /** One link of the `||` chain. */
  datatype Step =
    | EndsReplace(suffix: string, repl: string)      // ifEndsWith(suffix).replace(repl)
    | EndsConcat(suffix: string, value: string)      // ifEndsWith(suffix).concat(value)
    | InConcat(words: seq<string>, value: string)    // ifIsIn(...words).concat(value)
    | EndsInY                                        // ifEndsWith('y').then(...)
    | EitherKeep(chars: seq<string>)                 // ifEndsWithEither(...chars).keep()
    | EitherConcat(chars: seq<string>, value: string) // ifEndsWithEither(...chars).concat(value)

  /** What a step answers for the normalized word w; raw is the argument as given. */
  function Answer(step: Step, w: string, raw: string, cut: Cut): Option<string> {
    match step
    case EndsReplace(suffix, repl) =>
      if EndsWith(w, suffix) then Some(Replace(w, suffix, repl, cut)) else None
    case EndsConcat(suffix, value) =>
      if EndsWith(w, suffix) then Some(w + value) else None
    case InConcat(words, value) =>
      if w in words then Some(w + value) else None
    case EndsInY =>
      if !EndsWith(w, "y") then None
      else if VowelY(raw) then Some(w + "s")
      else Some(Replace(w, "y", "ies", cut))
    case EitherKeep(chars) =>
      if Pluralizer.FindSuffix(w, chars).Some? then Some(w) else None
    case EitherConcat(chars, value) =>
      if Pluralizer.FindSuffix(w, chars).Some? then Some(w + value) else None
  }

  /** The steps, in the order the chain asks them. */
  const Steps: seq<Step> := [
    EndsReplace("ex", "ices"),
    EndsReplace("us", "i"),
    EndsConcat("oof", "s"),
    EndsReplace("f", "ves"),
    EndsReplace("fe", "ves"),
    EndsReplace("is", "es"),
    EndsReplace("um", "a"),
    InConcat(OExceptions, "es"),
    EndsConcat("o", "s"),
    EndsInY,
    EitherKeep(["craft", "s"]),
    EitherConcat(["ch", "sh", "x", "z"], "es")
  ]

  /** `steps[0] || steps[1] || ... || fallback`. */
  function Chain(steps: seq<Step>, w: string, raw: string, cut: Cut, fallback: string): (r: string)
    ensures fallback != "" ==> r != ""
  {
    if steps == [] then fallback
    else Pluralizer.Or(Answer(steps[0], w, raw, cut), Chain(steps[1..], w, raw, cut, fallback))
  }

  /** `pluralize(word)` with the given reading of `replace`: '' for anything but
      a non-empty string; the steps see the trimmed, lower-cased word, except the
      vowel-before-y test, which reads the argument as given; the final
      `concat('s')` appends to the trimmed, lower-cased word. */
  function PluralizeWith(word: Value, cut: Cut): (r: string)
    ensures !word.Str? || word.s == "" ==> r == ""
    ensures word.Str? && word.s != "" ==> r != ""
  {
    if !word.Str? || word.s == "" then ""
    else
      var w := Lower(Trim(word.s));
      Chain(Steps, w, word.s, cut, w + "s")
  }

  /** src/pluralize.ts as written. */
  function Pluralize(word: Value): (r: string)
    ensures !word.Str? || word.s == "" ==> r == ""
    ensures word.Str? && word.s != "" ==> r != ""
  {
    PluralizeWith(word, ReplacementLength)
  }

  /** src/pluralize.ts with `replace` dropping the matched suffix. */
  function IntendedPluralize(word: Value): (r: string)
    ensures !word.Str? || word.s == "" ==> r == ""
    ensures word.Str? && word.s != "" ==> r != ""
  {
    PluralizeWith(word, SuffixLength)
  }

  // ---------------------------------------------------------------- the chain

  lemma {:induction false} ChainFirst(steps: seq<Step>, k: nat, w: string, raw: string, cut: Cut, fallback: string)
    requires k < |steps|
    requires Answer(steps[k], w, raw, cut).Some? && Answer(steps[k], w, raw, cut).value != ""
    requires forall j | 0 <= j < k :: Answer(steps[j], w, raw, cut).None?
    ensures Chain(steps, w, raw, cut, fallback) == Answer(steps[k], w, raw, cut).value
  {
    if k > 0 {
      ChainFirst(steps[1..], k - 1, w, raw, cut, fallback);
    }
  }

  lemma {:induction false} ChainNone(steps: seq<Step>, w: string, raw: string, cut: Cut, fallback: string)
    requires forall j | 0 <= j < |steps| :: Answer(steps[j], w, raw, cut).None?
    ensures Chain(steps, w, raw, cut, fallback) == fallback
  {
    if steps != [] {
      ChainNone(steps[1..], w, raw, cut, fallback);
    }
  }

  /** The last characters of the suffixes step i looks for ('o' for the exceptions). */
  function Finals(i: nat): string
    requires i < |Steps|
  {
    match i
    case 0 => "x"
    case 1 => "s"
    case 2 => "f"
    case 3 => "f"
    case 4 => "e"
    case 5 => "s"
    case 6 => "m"
    case 7 => "o"
    case 8 => "o"
    case 9 => "y"
    case 10 => "ts"
    case _ => "hxz"
  }

  lemma ExceptionsEndInO(w: string)
    requires w == [] || w[|w| - 1] != 'o'
    ensures w !in OExceptions
  {
  }

  /** A step never answers a word whose last character none of its suffixes has. */
  lemma Misses(w: string, raw: string, cut: Cut, i: nat)
    requires i < |Steps|
    requires w == [] || w[|w| - 1] !in Finals(i)
    ensures Answer(Steps[i], w, raw, cut).None?
  {
    match i
    case 0 => MissesSuffix(w, "ex");
    case 1 => MissesSuffix(w, "us");
    case 2 => MissesSuffix(w, "oof");
    case 3 => MissesSuffix(w, "f");
    case 4 => MissesSuffix(w, "fe");
    case 5 => MissesSuffix(w, "is");
    case 6 => MissesSuffix(w, "um");
    case 7 => ExceptionsEndInO(w);
    case 8 => MissesSuffix(w, "o");
    case 9 => MissesSuffix(w, "y");
    case 10 => MissesEither(w, ["craft", "s"]);
    case 11 => MissesEither(w, ["ch", "sh", "x", "z"]);
  }

  /** A word does not end with a suffix whose last character it does not end in. */
  lemma MissesSuffix(w: string, suffix: string)
    requires suffix != [] && (w == [] || w[|w| - 1] != suffix[|suffix| - 1])
    ensures !EndsWith(w, suffix)
  {
  }

  lemma MissesEither(w: string, chars: seq<string>)
    requires forall k | 0 <= k < |chars| :: chars[k] != []
    requires w == [] || forall k | 0 <= k < |chars| :: chars[k][|chars[k]| - 1] != w[|w| - 1]
    ensures Pluralizer.FindSuffix(w, chars).None?
  {
    forall k | 0 <= k < |chars|
      ensures !EndsWith(w, chars[k])
    {
    }
    Pluralizer.EndingInNone(w, chars);
  }

  lemma MissesBefore(w: string, raw: string, cut: Cut, k: nat, c: char)
    requires k <= |Steps| && w != [] && w[|w| - 1] == c
    requires forall j | 0 <= j < k :: c !in Finals(j)
    ensures forall j | 0 <= j < k :: Answer(Steps[j], w, raw, cut).None?
  {
    forall j | 0 <= j < k
      ensures Answer(Steps[j], w, raw, cut).None?
    {
      Misses(w, raw, cut, j);
    }
  }

  // ---------------------------------------------------------------- the steps, one by one

  /** ex -> ices, through `replace`. */
  lemma LegacyEx(w: string, raw: string, cut: Cut, fallback: string)
    requires EndsWith(w, "ex")
    ensures Chain(Steps, w, raw, cut, fallback) == Replace(w, "ex", "ices", cut)
  {
    ChainFirst(Steps, 0, w, raw, cut, fallback);
  }

  /** us -> i, through `replace`. */
  lemma LegacyUs(w: string, raw: string, cut: Cut, fallback: string)
    requires EndsWith(w, "us")
    ensures Chain(Steps, w, raw, cut, fallback) == Replace(w, "us", "i", cut)
  {
    MissesBefore(w, raw, cut, 1, 's');
    ChainFirst(Steps, 1, w, raw, cut, fallback);
  }

  /** f -> ves, through `replace`, unless oof. */
  lemma LegacyF(w: string, raw: string, cut: Cut, fallback: string)
    requires EndsWith(w, "f") && !EndsWith(w, "oof")
    ensures Chain(Steps, w, raw, cut, fallback) == Replace(w, "f", "ves", cut)
  {
    MissesBefore(w, raw, cut, 2, 'f');
    ChainFirst(Steps, 3, w, raw, cut, fallback);
  }

  /** fe -> ves, through `replace`. */
  lemma LegacyFe(w: string, raw: string, cut: Cut, fallback: string)
    requires EndsWith(w, "fe")
    ensures Chain(Steps, w, raw, cut, fallback) == Replace(w, "fe", "ves", cut)
  {
    MissesBefore(w, raw, cut, 4, 'e');
    ChainFirst(Steps, 4, w, raw, cut, fallback);
  }

  /** is -> es, through `replace`. */
  lemma LegacyIs(w: string, raw: string, cut: Cut, fallback: string)
    requires EndsWith(w, "is")
    ensures Chain(Steps, w, raw, cut, fallback) == Replace(w, "is", "es", cut)
  {
    Pluralizer.IsNotUs(w);
    forall j | 0 <= j < 5
      ensures Answer(Steps[j], w, raw, cut).None?
    {
      if j != 1 {
        Misses(w, raw, cut, j);
      }
    }
    ChainFirst(Steps, 5, w, raw, cut, fallback);
  }

  /** um -> a, through `replace`. */
  lemma LegacyUm(w: string, raw: string, cut: Cut, fallback: string)
    requires EndsWith(w, "um")
    ensures Chain(Steps, w, raw, cut, fallback) == Replace(w, "um", "a", cut)
  {
    MissesBefore(w, raw, cut, 6, 'm');
    ChainFirst(Steps, 6, w, raw, cut, fallback);
  }

  /** The six listed words ending in 'o' take 'es'. */
  lemma LegacyException(w: string, raw: string, cut: Cut, fallback: string)
    requires w in OExceptions
    ensures Chain(Steps, w, raw, cut, fallback) == w + "es"
  {
    assert w != [] && w[|w| - 1] == 'o';
    MissesBefore(w, raw, cut, 7, 'o');
    ChainFirst(Steps, 7, w, raw, cut, fallback);
  }

  /** Every other word ending in 'o' takes 's'. */
  lemma LegacyOtherO(w: string, raw: string, cut: Cut, fallback: string)
    requires w != [] && w[|w| - 1] == 'o' && w !in OExceptions
    ensures Chain(Steps, w, raw, cut, fallback) == w + "s"
  {
    MissesBefore(w, raw, cut, 7, 'o');
    ChainFirst(Steps, 8, w, raw, cut, fallback);
  }

  /** A final 'y' takes 's' when the argument as given ends in a vowel and 'y',
      and goes through `replace('ies')` otherwise: the trimmed, lower-cased word
      is not what the test reads. */
  lemma LegacyY(w: string, raw: string, cut: Cut, fallback: string)
    requires w != [] && w[|w| - 1] == 'y'
    ensures VowelY(raw) ==> Chain(Steps, w, raw, cut, fallback) == w + "s"
    ensures !VowelY(raw) ==> Chain(Steps, w, raw, cut, fallback) == Replace(w, "y", "ies", cut)
  {
    MissesBefore(w, raw, cut, 9, 'y');
    ChainFirst(Steps, 9, w, raw, cut, fallback);
  }

  /** Words ending in 'craft', or in 's' but not 'us' or 'is', are kept as they are. */
  lemma LegacyKeep(w: string, raw: string, cut: Cut, fallback: string)
    requires EndsWith(w, "craft") || (EndsWith(w, "s") && !EndsWith(w, "us") && !EndsWith(w, "is"))
    ensures Chain(Steps, w, raw, cut, fallback) == w
  {
    forall j | 0 <= j < 10
      ensures Answer(Steps[j], w, raw, cut).None?
    {
      if j != 1 && j != 5 {
        Misses(w, raw, cut, j);
      }
    }
    var chars := ["craft", "s"];
    var k := if EndsWith(w, "craft") then 0 else 1;
    assert EndsWith(w, chars[k]);
    Pluralizer.FoundSuffix(w, chars, k);
    ChainFirst(Steps, 10, w, raw, cut, fallback);
  }

  /** ch, sh, x (but not ex) and z take 'es'. */
  lemma LegacySibilant(w: string, raw: string, cut: Cut, fallback: string)
    requires EndsWith(w, "ch") || EndsWith(w, "sh") || EndsWith(w, "x") || EndsWith(w, "z")
    requires !EndsWith(w, "ex")
    ensures Chain(Steps, w, raw, cut, fallback) == w + "es"
  {
    forall j | 0 <= j < 11
      ensures Answer(Steps[j], w, raw, cut).None?
    {
      if j != 0 {
        Misses(w, raw, cut, j);
      }
    }
    var chars := ["ch", "sh", "x", "z"];
    var k := if EndsWith(w, "ch") then 0 else if EndsWith(w, "sh") then 1 else if EndsWith(w, "x") then 2 else 3;
    assert EndsWith(w, chars[k]);
    Pluralizer.FoundSuffix(w, chars, k);
    ChainFirst(Steps, 11, w, raw, cut, fallback);
  }

  /** A word that no step's suffix ends falls back to the fallback: the exact
      complement of the steps (words ending in e but not fe, h but not ch or sh,
      m but not um, t but not craft, and every other last letter but f, o, s, x,
      y, z). */
  lemma LegacyPlain(w: string, raw: string, cut: Cut, fallback: string)
    requires !EndsWith(w, "f") && !EndsWith(w, "fe") && !EndsWith(w, "um") && !EndsWith(w, "o") && !EndsWith(w, "y")
    requires !EndsWith(w, "craft") && !EndsWith(w, "s")
    requires !EndsWith(w, "ch") && !EndsWith(w, "sh") && !EndsWith(w, "x") && !EndsWith(w, "z")
    ensures Chain(Steps, w, raw, cut, fallback) == fallback
  {
    forall j | 0 <= j < |Steps|
      ensures Answer(Steps[j], w, raw, cut).None?
    {
      if j == 7 {
        ExceptionsEndInO(w);
      } else if j == 10 || j == 11 {
        var chars := Steps[j].chars;
        assert forall k | 0 <= k < |chars| :: !EndsWith(w, chars[k]);
        Pluralizer.EndingInNone(w, chars);
      } else if j != 9 {
        Pluralizer.LastOfSuffix(w, Steps[j].suffix);
      }
    }
    ChainNone(Steps, w, raw, cut, fallback);
  }

  /** oof -> oofs: the f step never sees it. */
  lemma LegacyOof(w: string, raw: string, cut: Cut, fallback: string)
    requires EndsWith(w, "oof")
    ensures Chain(Steps, w, raw, cut, fallback) == w + "s"
  {
    MissesBefore(w, raw, cut, 2, 'f');
    ChainFirst(Steps, 2, w, raw, cut, fallback);
  }

  /** The plural the steps give a normalized word w (raw is the argument as
      given), asked suffix by suffix in the steps' order; fallback when no step
      answers. */
  function ByEnding(w: string, raw: string, cut: Cut, fallback: string): string {
    if EndsWith(w, "ex") then Replace(w, "ex", "ices", cut)
    else if EndsWith(w, "us") then Replace(w, "us", "i", cut)
    else if EndsWith(w, "oof") then w + "s"
    else if EndsWith(w, "f") then Replace(w, "f", "ves", cut)
    else if EndsWith(w, "fe") then Replace(w, "fe", "ves", cut)
    else if EndsWith(w, "is") then Replace(w, "is", "es", cut)
    else if EndsWith(w, "um") then Replace(w, "um", "a", cut)
    else if w in OExceptions then w + "es"
    else if EndsWith(w, "o") then w + "s"
    else if EndsWith(w, "y") then (if VowelY(raw) then w + "s" else Replace(w, "y", "ies", cut))
    else if EndsWith(w, "craft") || EndsWith(w, "s") then w
    else if EndsWith(w, "ch") || EndsWith(w, "sh") || EndsWith(w, "x") || EndsWith(w, "z") then w + "es"
    else fallback
  }

  /** Every word is decided by exactly one of the lemmas above: the chain of
      steps is the suffix-by-suffix plural, for all words, readings and fallbacks. */
  lemma ChainByEnding(w: string, raw: string, cut: Cut, fallback: string)
    ensures Chain(Steps, w, raw, cut, fallback) == ByEnding(w, raw, cut, fallback)
  {
    if EndsWith(w, "ex") {
      LegacyEx(w, raw, cut, fallback);
    } else if EndsWith(w, "us") {
      LegacyUs(w, raw, cut, fallback);
    } else if EndsWith(w, "oof") {
      LegacyOof(w, raw, cut, fallback);
    } else if EndsWith(w, "f") {
      LegacyF(w, raw, cut, fallback);
    } else if EndsWith(w, "fe") {
      LegacyFe(w, raw, cut, fallback);
    } else if EndsWith(w, "is") {
      LegacyIs(w, raw, cut, fallback);
    } else if EndsWith(w, "um") {
      LegacyUm(w, raw, cut, fallback);
    } else if w in OExceptions {
      LegacyException(w, raw, cut, fallback);
    } else if EndsWith(w, "o") {
      LegacyOtherO(w, raw, cut, fallback);
    } else if EndsWith(w, "y") {
      LegacyY(w, raw, cut, fallback);
    } else if EndsWith(w, "craft") || EndsWith(w, "s") {
      LegacyKeep(w, raw, cut, fallback);
    } else if EndsWith(w, "ch") || EndsWith(w, "sh") || EndsWith(w, "x") || EndsWith(w, "z") {
      LegacySibilant(w, raw, cut, fallback);
    } else {
      LegacyPlain(w, raw, cut, fallback);
    }
  }

  // ---------------------------------------------------------------- the argument

  /** The plural of any non-empty string, as written and as intended: the
      suffix-by-suffix plural of its trimmed, lower-cased form, with the vowel
      test reading the argument as given, falling back to the trimmed,
      lower-cased form plus 's'. */
  lemma PluralizeByEnding(s: string)
    requires s != ""
    ensures Pluralize(Str(s)) == ByEnding(Lower(Trim(s)), s, ReplacementLength, Lower(Trim(s)) + "s")
    ensures IntendedPluralize(Str(s)) == ByEnding(Lower(Trim(s)), s, SuffixLength, Lower(Trim(s)) + "s")
  {
    var w := Lower(Trim(s));
    ChainByEnding(w, s, ReplacementLength, w + "s");
    ChainByEnding(w, s, SuffixLength, w + "s");
  }

  /** A lower-case word is its own trimmed, lower-cased form and its own raw form. */
  lemma LegacyLowerWord(s: string, cut: Cut)
    requires s != "" && IsLowerWord(s)
    ensures PluralizeWith(Str(s), cut) == Chain(Steps, s, s, cut, s + "s")
  {
    NormalizedLowerWord(s);
  }

  /** When no step answers, the result is the trimmed, lower-cased word plus 's'. */
  lemma LegacyFallback(s: string, cut: Cut)
    requires s != ""
    requires forall j | 0 <= j < |Steps| :: Answer(Steps[j], Lower(Trim(s)), s, cut).None?
    ensures PluralizeWith(Str(s), cut) == Lower(Trim(s)) + "s"
  {
    var w := Lower(Trim(s));
    ChainNone(Steps, w, s, cut, w + "s");
  }

  // ---------------------------------------------------------------- replace as written

  /** As written, a word ending in 'ex' keeps its length: the four characters
      of 'ices' replace its last four, where the intended reading replaces the
      two of 'ex' and grows the word by two. */
  lemma ReplaceCutsReplacementLength(w: string, raw: string, fallback: string)
    requires EndsWith(w, "ex") && |w| >= 4
    ensures |Chain(Steps, w, raw, ReplacementLength, fallback)| == |w|
    ensures |Chain(Steps, w, raw, SuffixLength, fallback)| == |w| + 2
    ensures Chain(Steps, w, raw, ReplacementLength, fallback) != Chain(Steps, w, raw, SuffixLength, fallback)
  {
    LegacyEx(w, raw, ReplacementLength, fallback);
    LegacyEx(w, raw, SuffixLength, fallback);
  }

  /** 'index' at the level of the steps: 'iices' as written, 'indices' as intended. */
  lemma IndexSteps(s: string)
    requires s == "index"
    ensures IsLowerWord(s)
    ensures Chain(Steps, s, s, ReplacementLength, s + "s") == "iices"
    ensures Chain(Steps, s, s, SuffixLength, s + "s") == "indices"
  {
    EndsWithSlice(s, "ex");
    LegacyEx(s, s, ReplacementLength, s + "s");
    LegacyEx(s, s, SuffixLength, s + "s");
    assert DropLast(s, 4) + "ices" == "iices";
    assert s[..3] + "ices" == "indices";
  }

  /** A worked answer of the steps on a lower-case word is the answer of `pluralize`. */
  lemma LegacyLift(s: string, cut: Cut, plural: string)
    requires s != "" && IsLowerWord(s) && Chain(Steps, s, s, cut, s + "s") == plural
    ensures PluralizeWith(Str(s), cut) == plural
  {
    LegacyLowerWord(s, cut);
  }

  /** With `replace` read as intended, every replace step strips exactly the
      suffix it matched, as the current pluralizer does. */
  lemma IntendedAgreesOnReplace(w: string, raw: string, fb1: string, fb2: string)
    requires EndsWith(w, "ex") || EndsWith(w, "us") || (EndsWith(w, "f") && !EndsWith(w, "oof")) ||
             EndsWith(w, "fe") || EndsWith(w, "is") || EndsWith(w, "um")
    ensures Chain(Steps, w, raw, SuffixLength, fb1) == Pluralizer.Chain(Pluralizer.Rules, w, fb2)
  {
    if EndsWith(w, "ex") {
      LegacyEx(w, raw, SuffixLength, fb1);
      Pluralizer.PluralEx(w, fb2);
    } else if EndsWith(w, "us") {
      LegacyUs(w, raw, SuffixLength, fb1);
      Pluralizer.PluralUs(w, fb2);
    } else if EndsWith(w, "f") && !EndsWith(w, "oof") {
      LegacyF(w, raw, SuffixLength, fb1);
      Pluralizer.PluralF(w, fb2);
    } else if EndsWith(w, "fe") {
      LegacyFe(w, raw, SuffixLength, fb1);
      Pluralizer.PluralFe(w, fb2);
    } else if EndsWith(w, "is") {
      LegacyIs(w, raw, SuffixLength, fb1);
      Pluralizer.PluralIs(w, fb2);
    } else {
      LegacyUm(w, raw, SuffixLength, fb1);
      Pluralizer.PluralUm(w, fb2);
    }
  }

  // ---------------------------------------------------------------- the two generations

  /** 'volcano' is an exception only for the current pluralizer. */
  lemma VolcanoSteps(s: string, cut: Cut)
    requires s == "volcano"
    ensures IsLowerWord(s)
    ensures Pluralizer.Chain(Pluralizer.Rules, s, s + "s") == "volcanoes"
    ensures Chain(Steps, s, s, cut, s + "s") == "volcanos"
  {
    assert Pluralizer.OExceptions[6] == s;
    Pluralizer.PluralException(s, s + "s");
    assert s !in OExceptions;
    LegacyOtherO(s, s, cut, s + "s");
    assert s + "es" == "volcanoes";
    assert s + "s" == "volcanos";
  }

  /** 'kiss' takes 'es' from the current pluralizer and stays as it is in the legacy one. */
  /** 'roof' takes 's' at the oof step, under either reading of `replace`. */
  lemma RoofSteps(s: string, cut: Cut)
    requires s == "roof"
    ensures PluralizeWith(Str(s), cut) == "roofs"
  {
    LegacyLowerWord(s, cut);
    EndsWithSlice(s, "oof");
    LegacyOof(s, s, cut, s + "s");
  }

  /** 'post' ends in 't' but not in 'craft': no step answers, under either reading. */
  lemma PostSteps(s: string, cut: Cut)
    requires s == "post"
    ensures PluralizeWith(Str(s), cut) == "posts"
  {
    LegacyLowerWord(s, cut);
    EndsWithSlice(s, "craft");
    assert s[3] == 't' && s[2] == 's';
    EndsWithTwo(s, 'c', 'h');
    EndsWithTwo(s, 's', 'h');
    EndsWithTwo(s, 'f', 'e');
    EndsWithTwo(s, 'u', 'm');
    LegacyPlain(s, s, cut, s + "s");
  }

  lemma KissSteps(s: string, cut: Cut)
    requires s == "kiss"
    ensures IsLowerWord(s)
    ensures Pluralizer.Chain(Pluralizer.Rules, s, s + "s") == "kisses"
    ensures Chain(Steps, s, s, cut, s + "s") == "kiss"
  {
    Pluralizer.SibilantWord(s, s + "s");
    LegacyKeep(s, s, cut, s + "s");
    assert s + "es" == "kisses";
  }

  /** 'company' as written loses three letters to 'ies' ('compies'); the current
      pluralizer, and the intended reading, drop only the 'y' ('companies'). */
  lemma CompanySteps(s: string)
    requires s == "company"
    ensures IsLowerWord(s)
    ensures Chain(Steps, s, s, ReplacementLength, s + "s") == "compies"
    ensures Chain(Steps, s, s, SuffixLength, s + "s") == "companies"
    ensures Pluralizer.Chain(Pluralizer.Rules, s, s + "s") == "companies"
  {
    assert !VowelY(s);
    LegacyY(s, s, ReplacementLength, s + "s");
    LegacyY(s, s, SuffixLength, s + "s");
    EndsWithSlice(s, "y");
    assert DropLast(s, 3) + "ies" == "compies";
    assert s[..|s| - 1] + "ies" == "companies";
    Pluralizer.PluralConsonantY(s, s + "s");
  }
}
