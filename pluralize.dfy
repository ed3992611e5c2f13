/** The entity-name pluralizer of the current generation, src/helpers/pluralize.ts:
    a chain of suffix rules over the trimmed, lower-cased word, first match wins. */
module Pluralizer {
  import opened Outcome
  import opened Values
  import opened Text

  /** Words ending in 'o' that take 'es'. */
  const OExceptions: seq<string> := ["echo", "embargo", "hero", "potato", "tomato", "veto", "volcano"]

  /** `chars.find(c => word.endsWith(c))`. */
  function FindSuffix(word: string, chars: seq<string>): (r: Option<string>)
    ensures r.Some? ==> r.value in chars && EndsWith(word, r.value)
  {
    if chars == [] then None
    else if EndsWith(word, chars[0]) then Some(chars[0])
    else FindSuffix(word, chars[1..])
  }

  /** `ifEndsWith(...chars).replace(value)`: drop the suffix found, append value;
      null when the word ends with none of them. */
  function Replace(word: string, chars: seq<string>, value: string): (r: Option<string>)
    ensures r.None? <==> FindSuffix(word, chars).None?
  {
    match FindSuffix(word, chars)
    case None => None
    case Some(c) => Some(word[..|word| - |c|] + value)
  }

  /** `ifEndsWith(...chars).concat(value)`. */
  function Concat(word: string, chars: seq<string>, value: string): (r: Option<string>)
    ensures r.None? <==> FindSuffix(word, chars).None?
    ensures r.Some? ==> r.value == word + value
  {
    if FindSuffix(word, chars).Some? then Some(word + value) else None
  }

  /** `ifEndsWith(...chars).keep()`. */
  function Keep(word: string, chars: seq<string>): (r: Option<string>)
    ensures r.None? <==> FindSuffix(word, chars).None?
    ensures r.Some? ==> r.value == word
  {
    if FindSuffix(word, chars).Some? then Some(word) else None
  }

  /** `ifIsIn(words).concat(value)`. */
  function ConcatIfIn(word: string, words: seq<string>, value: string): (r: Option<string>)
    ensures r.Some? <==> word in words
    ensures r.Some? ==> r.value == word + value
  {
    if word in words then Some(word + value) else None
  }

  /** `a || b` over a rule's result: null and '' fall through to b. */
  function Or(a: Option<string>, b: string): (r: string)
    ensures a.Some? && a.value != "" ==> r == a.value
    ensures a.None? ==> r == b
  {
    if a.Some? && a.value != "" then a.value else b
  }

  /** One link of the `||` chain: which helper is asked, with which arguments. */
  datatype Rule =
    | ReplaceRule(chars: seq<string>, value: string)
    | ConcatRule(chars: seq<string>, value: string)
    | KeepRule(chars: seq<string>)
    | ExceptionRule(words: seq<string>, value: string)

  function Fire(rule: Rule, w: string): Option<string> {
    match rule
    case ReplaceRule(chars, value) => Replace(w, chars, value)
    case ConcatRule(chars, value) => Concat(w, chars, value)
    case KeepRule(chars) => Keep(w, chars)
    case ExceptionRule(words, value) => ConcatIfIn(w, words, value)
  }

  const RuleCount: nat := 12

  /** The rules, in the order the chain asks them. */
  const Rules: seq<Rule> := [
    ReplaceRule(["ex"], "ices"),
    ReplaceRule(["us"], "i"),
    ConcatRule(["oof"], "s"),
    ReplaceRule(["f"], "ves"),
    ReplaceRule(["fe"], "ves"),
    ReplaceRule(["is"], "es"),
    ReplaceRule(["um"], "a"),
    ExceptionRule(OExceptions, "es"),
    ConcatRule(["ay", "ey", "iy", "oy", "uy"], "s"),
    ReplaceRule(["y"], "ies"),
    KeepRule(["craft"]),
    ConcatRule(["ch", "sh", "s", "x", "z"], "es")
  ]

  /** `rules[0] || rules[1] || ... || fallback`, each rule asked about w. */
  function Chain(rules: seq<Rule>, w: string, fallback: string): (r: string)
    ensures fallback != "" ==> r != ""
  {
    if rules == [] then fallback else Or(Fire(rules[0], w), Chain(rules[1..], w, fallback))
  }

  /** `pluralize(word)`: '' for anything but a non-empty string; otherwise the
      rules see the trimmed, lower-cased word, and the final `word + 's'` uses the
      argument as given. */
  function Pluralize(word: Value): (r: string)
    ensures !word.Str? || word.s == "" ==> r == ""
    ensures word.Str? && word.s != "" ==> r != ""
  {
    if !word.Str? || word.s == "" then ""
    else Chain(Rules, Lower(Trim(word.s)), word.s + "s")
  }

  // ---------------------------------------------------------------- the chain

  /** The first rule that gives a non-empty answer decides. */
  lemma {:induction false} ChainFirst(rules: seq<Rule>, k: nat, w: string, fallback: string)
    requires k < |rules| && Fire(rules[k], w).Some? && Fire(rules[k], w).value != ""
    requires forall j | 0 <= j < k :: Fire(rules[j], w).None?
    ensures Chain(rules, w, fallback) == Fire(rules[k], w).value
  {
    if k > 0 {
      ChainFirst(rules[1..], k - 1, w, fallback);
    }
  }

  /** When no rule answers, the fallback does. */
  lemma {:induction false} ChainNone(rules: seq<Rule>, w: string, fallback: string)
    requires forall j | 0 <= j < |rules| :: Fire(rules[j], w).None?
    ensures Chain(rules, w, fallback) == fallback
  {
    if rules != [] {
      ChainNone(rules[1..], w, fallback);
    }
  }

  /** Once some rule gives a non-empty answer, the fallback is never consulted. */
  lemma {:induction false} ChainIgnoresFallback(rules: seq<Rule>, k: nat, w: string, fb1: string, fb2: string)
    requires k < |rules| && Fire(rules[k], w).Some? && Fire(rules[k], w).value != ""
    ensures Chain(rules, w, fb1) == Chain(rules, w, fb2)
  {
    var a := Fire(rules[0], w);
    if k > 0 && !(a.Some? && a.value != "") {
      ChainIgnoresFallback(rules[1..], k - 1, w, fb1, fb2);
    }
  }

  // ---------------------------------------------------------------- rules that miss

  /** The last characters of the suffixes rule i looks for ('o' for the exceptions). */
  function Finals(i: nat): string
    requires i < RuleCount
  {
    match i
    case 0 => "x"
    case 1 => "s"
    case 2 => "f"
    case 3 => "f"
    case 4 => "e"
    case 5 => "s"
    case 6 => "m"
    case 7 => "o"
    case 8 => "y"
    case 9 => "y"
    case 10 => "t"
    case _ => "hsxz"
  }

  /** No suffix whose last character differs from w's is found in w. */
  lemma {:induction false} NotEndingIn(w: string, chars: seq<string>)
    requires w != []
    requires forall i | 0 <= i < |chars| :: chars[i] != [] && chars[i][|chars[i]| - 1] != w[|w| - 1]
    ensures FindSuffix(w, chars).None?
  {
    if chars != [] {
      NotEndingIn(w, chars[1..]);
    }
  }

  lemma ExceptionsEndInO(w: string)
    requires w == [] || w[|w| - 1] != 'o'
    ensures w !in OExceptions
  {
  }

  /** A rule never fires on a word whose last character none of its suffixes has. */
  lemma Misses(w: string, i: nat)
    requires i < RuleCount
    requires w == [] || w[|w| - 1] !in Finals(i)
    ensures Fire(Rules[i], w).None?
  {
    if i == 7 {
      ExceptionsEndInO(w);
    } else if w == [] {
      var chars := Rules[i].chars;
      assert forall k | 0 <= k < |chars| :: !EndsWith(w, chars[k]);
      EmptyFindsNothing(chars);
    } else {
      NotEndingIn(w, Rules[i].chars);
    }
  }

  lemma {:induction false} EmptyFindsNothing(chars: seq<string>)
    requires forall k | 0 <= k < |chars| :: chars[k] != []
    ensures FindSuffix([], chars).None?
  {
    if chars != [] {
      EmptyFindsNothing(chars[1..]);
    }
  }

  /** Every rule before k misses a word whose last character is c. */
  lemma MissesBefore(w: string, k: nat, c: char)
    requires k <= RuleCount && w != [] && w[|w| - 1] == c
    requires forall j | 0 <= j < k :: c !in Finals(j)
    ensures forall j | 0 <= j < k :: Fire(Rules[j], w).None?
  {
    forall j | 0 <= j < k
      ensures Fire(Rules[j], w).None?
    {
      Misses(w, j);
    }
  }

  // ---------------------------------------------------------------- the rules, one by one

  /** ex -> ices */
  lemma PluralEx(w: string, fallback: string)
    requires EndsWith(w, "ex")
    ensures Chain(Rules, w, fallback) == w[..|w| - 2] + "ices"
  {
    ChainFirst(Rules, 0, w, fallback);
  }

  /** us -> i */
  lemma PluralUs(w: string, fallback: string)
    requires EndsWith(w, "us")
    ensures Chain(Rules, w, fallback) == w[..|w| - 2] + "i"
  {
    MissesBefore(w, 1, 's');
    ChainFirst(Rules, 1, w, fallback);
  }

  /** oof -> oofs */
  lemma PluralOof(w: string, fallback: string)
    requires EndsWith(w, "oof")
    ensures Chain(Rules, w, fallback) == w + "s"
  {
    MissesBefore(w, 2, 'f');
    ChainFirst(Rules, 2, w, fallback);
  }

  /** f -> ves, unless oof */
  lemma PluralF(w: string, fallback: string)
    requires EndsWith(w, "f") && !EndsWith(w, "oof")
    ensures Chain(Rules, w, fallback) == w[..|w| - 1] + "ves"
  {
    MissesBefore(w, 2, 'f');
    ChainFirst(Rules, 3, w, fallback);
  }

  /** fe -> ves */
  lemma PluralFe(w: string, fallback: string)
    requires EndsWith(w, "fe")
    ensures Chain(Rules, w, fallback) == w[..|w| - 2] + "ves"
  {
    MissesBefore(w, 4, 'e');
    ChainFirst(Rules, 4, w, fallback);
  }

  /** is -> es */
  lemma PluralIs(w: string, fallback: string)
    requires EndsWith(w, "is")
    ensures Chain(Rules, w, fallback) == w[..|w| - 2] + "es"
  {
    IsNotUs(w);
    forall j | 0 <= j < 5
      ensures Fire(Rules[j], w).None?
    {
      if j != 1 {
        Misses(w, j);
      }
    }
    ChainFirst(Rules, 5, w, fallback);
  }

  /** A word ending in 'is' does not end in 'us'. */
  lemma IsNotUs(w: string)
    requires EndsWith(w, "is")
    ensures !EndsWith(w, "us")
  {
    assert "is" == ['i', 's'] && "us" == ['u', 's'];
    EndsWithTwo(w, 'i', 's');
    EndsWithTwo(w, 'u', 's');
  }

  /** um -> a */
  lemma PluralUm(w: string, fallback: string)
    requires EndsWith(w, "um")
    ensures Chain(Rules, w, fallback) == w[..|w| - 2] + "a"
  {
    MissesBefore(w, 6, 'm');
    ChainFirst(Rules, 6, w, fallback);
  }

  /** The listed words ending in 'o' take 'es'. */
  lemma PluralException(w: string, fallback: string)
    requires w in OExceptions
    ensures Chain(Rules, w, fallback) == w + "es"
  {
    assert w != [] && w[|w| - 1] == 'o';
    MissesBefore(w, 7, 'o');
    ChainFirst(Rules, 7, w, fallback);
  }

  /** A vowel before the final 'y' takes 's'. */
  lemma PluralVowelY(w: string, fallback: string)
    requires |w| >= 2 && w[|w| - 1] == 'y' && w[|w| - 2] in "aeiou"
    ensures Chain(Rules, w, fallback) == w + "s"
  {
    MissesBefore(w, 8, 'y');
    VowelYFound(w);
    ChainFirst(Rules, 8, w, fallback);
  }

  lemma VowelYFound(w: string)
    requires |w| >= 2 && w[|w| - 1] == 'y' && w[|w| - 2] in "aeiou"
    ensures FindSuffix(w, ["ay", "ey", "iy", "oy", "uy"]).Some?
  {
    var c := w[|w| - 2];
    InVowels(c);
    var chars := ["ay", "ey", "iy", "oy", "uy"];
    var k := if c == 'a' then 0 else if c == 'e' then 1 else if c == 'i' then 2 else if c == 'o' then 3 else 4;
    assert chars[k] == [c, 'y'];
    EndsWithTwo(w, c, 'y');
    FoundSuffix(w, chars, k);
  }

  lemma {:induction false} FoundSuffix(w: string, chars: seq<string>, k: nat)
    requires k < |chars| && EndsWith(w, chars[k])
    ensures FindSuffix(w, chars).Some?
  {
    if k > 0 && !EndsWith(w, chars[0]) {
      FoundSuffix(w, chars[1..], k - 1);
    }
  }

  /** Any other final 'y' becomes 'ies'. */
  lemma PluralConsonantY(w: string, fallback: string)
    requires w != [] && w[|w| - 1] == 'y' && !(|w| >= 2 && w[|w| - 2] in "aeiou")
    ensures Chain(Rules, w, fallback) == w[..|w| - 1] + "ies"
  {
    MissesBefore(w, 8, 'y');
    NoVowelY(w);
    ChainFirst(Rules, 9, w, fallback);
  }

  lemma NoVowelY(w: string)
    requires w != [] && w[|w| - 1] == 'y' && !(|w| >= 2 && w[|w| - 2] in "aeiou")
    ensures FindSuffix(w, ["ay", "ey", "iy", "oy", "uy"]).None?
  {
    var chars := ["ay", "ey", "iy", "oy", "uy"];
    forall k | 0 <= k < 5
      ensures !EndsWith(w, chars[k])
    {
      var v := chars[k][0];
      assert chars[k] == [v, 'y'];
      InVowels(v);
      EndsWithTwo(w, v, 'y');
    }
    EndingInNone(w, chars);
  }

  lemma {:induction false} EndingInNone(w: string, chars: seq<string>)
    requires forall k | 0 <= k < |chars| :: !EndsWith(w, chars[k])
    ensures FindSuffix(w, chars).None?
  {
    if chars != [] {
      EndingInNone(w, chars[1..]);
    }
  }

  /** A word ending in 'craft' is its own plural. */
  lemma PluralCraft(w: string, fallback: string)
    requires EndsWith(w, "craft")
    ensures Chain(Rules, w, fallback) == w
  {
    assert w[|w| - 1] == 't';
    MissesBefore(w, 10, 't');
    ChainFirst(Rules, 10, w, fallback);
  }

  /** ch, sh, s, x and z take 'es', once ex, us and is have had their turn. */
  lemma PluralSibilant(w: string, fallback: string)
    requires EndsWith(w, "ch") || EndsWith(w, "sh") || EndsWith(w, "s") || EndsWith(w, "x") || EndsWith(w, "z")
    requires !EndsWith(w, "ex") && !EndsWith(w, "us") && !EndsWith(w, "is")
    ensures Chain(Rules, w, fallback) == w + "es"
  {
    var c := w[|w| - 1];
    assert c in "hsxz";
    forall j | 0 <= j < 11
      ensures Fire(Rules[j], w).None?
    {
      if j != 0 && j != 1 && j != 5 {
        Misses(w, j);
      }
    }
    var chars := ["ch", "sh", "s", "x", "z"];
    var k := if EndsWith(w, "ch") then 0 else if EndsWith(w, "sh") then 1
             else if EndsWith(w, "s") then 2 else if EndsWith(w, "x") then 3 else 4;
    assert EndsWith(w, chars[k]);
    FoundSuffix(w, chars, k);
    ChainFirst(Rules, 11, w, fallback);
  }

  /** A word ending in 'o' that is not a listed exception falls through every rule. */
  lemma PluralOtherO(w: string, fallback: string)
    requires w != [] && w[|w| - 1] == 'o' && w !in OExceptions
    ensures Chain(Rules, w, fallback) == fallback
  {
    forall j | 0 <= j < RuleCount
      ensures Fire(Rules[j], w).None?
    {
      if j != 7 {
        Misses(w, j);
      }
    }
    ChainNone(Rules, w, fallback);
  }

  /** A word that no rule's suffix ends, and that is not a listed exception,
      falls through every rule: the exact complement of the table (words ending
      in e but not fe, h but not ch or sh, m but not um, o but not listed, t but
      not craft, and every other last letter but f, s, x, y, z). */
  lemma PluralPlain(w: string, fallback: string)
    requires !EndsWith(w, "f") && !EndsWith(w, "fe") && !EndsWith(w, "um") && w !in OExceptions
    requires !EndsWith(w, "y") && !EndsWith(w, "craft")
    requires !EndsWith(w, "ch") && !EndsWith(w, "sh") && !EndsWith(w, "s") && !EndsWith(w, "x") && !EndsWith(w, "z")
    ensures Chain(Rules, w, fallback) == fallback
  {
    forall j | 0 <= j < RuleCount
      ensures Fire(Rules[j], w).None?
    {
      if j != 7 {
        var chars := Rules[j].chars;
        forall k | 0 <= k < |chars|
          ensures !EndsWith(w, chars[k])
        {
          LastOfSuffix(w, chars[k]);
        }
        EndingInNone(w, chars);
      }
    }
    ChainNone(Rules, w, fallback);
  }

  /** A word that ends with a suffix ends with its last character. */
  lemma LastOfSuffix(w: string, suffix: string)
    requires suffix != []
    ensures EndsWith(w, suffix) ==> EndsWith(w, [suffix[|suffix| - 1]])
  {
  }

  /** The plural the rule table gives a normalized word, asked suffix by suffix
      in the table's order; fallback when no rule answers. */
  function ByEnding(w: string, fallback: string): string {
    if EndsWith(w, "ex") then w[..|w| - 2] + "ices"
    else if EndsWith(w, "us") then w[..|w| - 2] + "i"
    else if EndsWith(w, "oof") then w + "s"
    else if EndsWith(w, "f") then w[..|w| - 1] + "ves"
    else if EndsWith(w, "fe") then w[..|w| - 2] + "ves"
    else if EndsWith(w, "is") then w[..|w| - 2] + "es"
    else if EndsWith(w, "um") then w[..|w| - 2] + "a"
    else if w in OExceptions then w + "es"
    else if |w| >= 2 && w[|w| - 1] == 'y' && w[|w| - 2] in "aeiou" then w + "s"
    else if EndsWith(w, "y") then w[..|w| - 1] + "ies"
    else if EndsWith(w, "craft") then w
    else if EndsWith(w, "ch") || EndsWith(w, "sh") || EndsWith(w, "s") || EndsWith(w, "x") || EndsWith(w, "z") then w + "es"
    else fallback
  }

  /** Every word is decided by exactly one of the lemmas above: the chain of
      rules is the suffix-by-suffix plural, for all words and fallbacks. */
  lemma ChainByEnding(w: string, fallback: string)
    ensures Chain(Rules, w, fallback) == ByEnding(w, fallback)
  {
    if EndsWith(w, "ex") {
      PluralEx(w, fallback);
    } else if EndsWith(w, "us") {
      PluralUs(w, fallback);
    } else if EndsWith(w, "oof") {
      PluralOof(w, fallback);
    } else if EndsWith(w, "f") {
      PluralF(w, fallback);
    } else if EndsWith(w, "fe") {
      PluralFe(w, fallback);
    } else if EndsWith(w, "is") {
      PluralIs(w, fallback);
    } else if EndsWith(w, "um") {
      PluralUm(w, fallback);
    } else if w in OExceptions {
      PluralException(w, fallback);
    } else if |w| >= 2 && w[|w| - 1] == 'y' && w[|w| - 2] in "aeiou" {
      PluralVowelY(w, fallback);
    } else if EndsWith(w, "y") {
      PluralConsonantY(w, fallback);
    } else if EndsWith(w, "craft") {
      PluralCraft(w, fallback);
    } else if EndsWith(w, "ch") || EndsWith(w, "sh") || EndsWith(w, "s") || EndsWith(w, "x") || EndsWith(w, "z") {
      PluralSibilant(w, fallback);
    } else {
      PluralPlain(w, fallback);
    }
  }

  // ---------------------------------------------------------------- the argument

  /** The plural of any non-empty string: the suffix-by-suffix plural of its
      trimmed, lower-cased form, falling back to the argument as given plus 's'. */
  lemma PluralizeByEnding(s: string)
    requires s != ""
    ensures Pluralize(Str(s)) == ByEnding(Lower(Trim(s)), s + "s")
  {
    ChainByEnding(Lower(Trim(s)), s + "s");
  }

  /** The rules see only the trimmed, lower-cased word: two arguments with the
      same such form get the same plural once some rule answers. */
  lemma PluralizeNormalizes(s: string, t: string, k: nat)
    requires s != "" && t != "" && Lower(Trim(s)) == Lower(Trim(t))
    requires k < |Rules| && Fire(Rules[k], Lower(Trim(s))).Some? && Fire(Rules[k], Lower(Trim(s))).value != ""
    ensures Pluralize(Str(s)) == Pluralize(Str(t))
  {
    ChainIgnoresFallback(Rules, k, Lower(Trim(s)), s + "s", t + "s");
  }

  /** When no rule answers, the plural is the argument as given, not its
      trimmed, lower-cased form, followed by 's'. */
  lemma PluralizeFallback(s: string)
    requires s != ""
    requires forall j | 0 <= j < |Rules| :: Fire(Rules[j], Lower(Trim(s))).None?
    ensures Pluralize(Str(s)) == s + "s"
  {
    ChainNone(Rules, Lower(Trim(s)), s + "s");
  }

  /** 'Director' keeps its capital: the fallback appends to the argument. */
  lemma PluralOfCapitalized(s: string)
    requires s == "Director"
    ensures Pluralize(Str(s)) == "Directors"
  {
    TrimUnspaced(s);
    var w := Lower(Trim(s));
    assert w[|w| - 1] == 'r';
    PluralPlain(w, s + "s");
  }

  /** '  Hero' is trimmed and lower-cased before the exceptions are consulted. */
  lemma PluralOfPadded(s: string)
    requires s == "  Hero"
    ensures Pluralize(Str(s)) == "heroes"
  {
    var w := PaddedHero(s);
    assert OExceptions[2] == w;
    PluralException(w, s + "s");
  }

  lemma PaddedHero(s: string) returns (w: string)
    requires s == "  Hero"
    ensures w == Lower(Trim(s)) && w == "hero"
  {
    TrimPadded(s);
    w := Lower("Hero");
    LowerHero(w);
  }

  lemma TrimPadded(s: string)
    requires s == "  Hero"
    ensures Trim(s) == "Hero"
  {
    var hero := "Hero";
    StartsUnspaced(hero);
    SpaceFirst(s[1..], hero);
    SpaceFirst(s, hero);
    assert TrimEnd(hero) == hero by {
      assert !IsSpace(hero[3]);
    }
  }

  lemma StartsUnspaced(t: string)
    requires t != [] && !IsSpace(t[0])
    ensures TrimStart(t) == t
  {
  }

  /** A leading white-space character is dropped by the trim. */
  lemma SpaceFirst(s: string, t: string)
    requires s != [] && IsSpace(s[0]) && (s[1..] == t || TrimStart(s[1..]) == t) && TrimStart(t) == t
    ensures TrimStart(s) == t
  {
  }

  lemma LowerHero(w: string)
    requires w == Lower("Hero")
    ensures w == "hero"
  {
    assert forall i | 0 <= i < 4 :: w[i] == "hero"[i];
  }

  // ---------------------------------------------------------------- worked examples

  /** A lower-case word is its own trimmed, lower-cased form, so the rules see it as given. */
  lemma PluralizeLowerWord(s: string)
    requires s != "" && IsLowerWord(s)
    ensures Pluralize(Str(s)) == Chain(Rules, s, s + "s")
  {
    NormalizedLowerWord(s);
  }

  /** The sibilant rule on a word whose next-to-last letter is none of e, u, i. */
  lemma SibilantWord(w: string, fallback: string)
    requires |w| >= 2 && w[|w| - 1] in "hsxz" && w[|w| - 2] !in "eui"
    requires w[|w| - 1] == 'h' ==> w[|w| - 2] in "cs"
    ensures Chain(Rules, w, fallback) == w + "es"
  {
    PluralSibilant(w, fallback);
  }

  // One lemma per word of the pluralizer's tests: the rule that decides it.

  lemma PluralOfDirector(s: string)
    requires s == "director"
    ensures IsLowerWord(s) && Chain(Rules, s, s + "s") == "directors"
  {
    PluralPlain(s, s + "s");
  }

  lemma PluralOfIndex(s: string)
    requires s == "index"
    ensures IsLowerWord(s) && Chain(Rules, s, s + "s") == "indices"
  {
    EndsWithSlice(s, "ex");
    PluralEx(s, s + "s");
    assert s[..3] + "ices" == "indices";
  }

  lemma PluralOfCactus(s: string)
    requires s == "cactus"
    ensures IsLowerWord(s) && Chain(Rules, s, s + "s") == "cacti"
  {
    EndsWithSlice(s, "us");
    PluralUs(s, s + "s");
    assert s[..4] + "i" == "cacti";
  }

  lemma PluralOfWolf(s: string)
    requires s == "wolf"
    ensures IsLowerWord(s) && Chain(Rules, s, s + "s") == "wolves"
  {
    EndsWithSlice(s, "oof");
    PluralF(s, s + "s");
    assert s[..3] + "ves" == "wolves";
  }

  lemma PluralOfRoof(s: string)
    requires s == "roof"
    ensures IsLowerWord(s) && Chain(Rules, s, s + "s") == "roofs"
  {
    EndsWithSlice(s, "oof");
    PluralOof(s, s + "s");
    assert s + "s" == "roofs";
  }

  lemma PluralOfKnife(s: string)
    requires s == "knife"
    ensures IsLowerWord(s) && Chain(Rules, s, s + "s") == "knives"
  {
    EndsWithSlice(s, "fe");
    PluralFe(s, s + "s");
    assert s[..3] + "ves" == "knives";
  }

  lemma PluralOfDatum(s: string)
    requires s == "datum"
    ensures IsLowerWord(s) && Chain(Rules, s, s + "s") == "data"
  {
    EndsWithSlice(s, "um");
    PluralUm(s, s + "s");
    assert s[..3] + "a" == "data";
  }

  lemma PluralOfPotato(s: string)
    requires s == "potato"
    ensures IsLowerWord(s) && Chain(Rules, s, s + "s") == "potatoes"
  {
    assert OExceptions[3] == s;
    PluralException(s, s + "s");
    assert s + "es" == "potatoes";
  }

  // Last letters e, h and m that no rule ends in: the word plus 's'.

  lemma PluralOfMovie(s: string)
    requires s == "movie"
    ensures IsLowerWord(s) && Chain(Rules, s, s + "s") == "movies"
  {
    assert s[4] == 'e' && s[3] == 'i';
    EndsWithTwo(s, 'f', 'e');
    ExceptionsEndInO(s);
    PluralPlain(s, s + "s");
  }

  lemma PluralOfMoth(s: string)
    requires s == "moth"
    ensures IsLowerWord(s) && Chain(Rules, s, s + "s") == "moths"
  {
    assert s[3] == 'h' && s[2] == 't';
    EndsWithTwo(s, 'c', 'h');
    EndsWithTwo(s, 's', 'h');
    ExceptionsEndInO(s);
    PluralPlain(s, s + "s");
  }

  lemma PluralOfFilm(s: string)
    requires s == "film"
    ensures IsLowerWord(s) && Chain(Rules, s, s + "s") == "films"
  {
    assert s[3] == 'm' && s[2] == 'l';
    EndsWithTwo(s, 'u', 'm');
    ExceptionsEndInO(s);
    PluralPlain(s, s + "s");
  }

  lemma PluralOfVideo(s: string)
    requires s == "video"
    ensures IsLowerWord(s) && Chain(Rules, s, s + "s") == "videos"
  {
    PluralOtherO(s, s + "s");
    assert s + "s" == "videos";
  }

  lemma PluralOfCountry(s: string)
    requires s == "country"
    ensures IsLowerWord(s) && Chain(Rules, s, s + "s") == "countries"
  {
    PluralConsonantY(s, s + "s");
    assert s[..6] + "ies" == "countries";
  }

  lemma PluralOfSubway(s: string)
    requires s == "subway"
    ensures IsLowerWord(s) && Chain(Rules, s, s + "s") == "subways"
  {
    PluralVowelY(s, s + "s");
    assert s + "s" == "subways";
  }

  lemma PluralOfAircraft(s: string)
    requires s == "aircraft"
    ensures IsLowerWord(s) && Chain(Rules, s, s + "s") == "aircraft"
  {
    assert s[3..] == "craft";
    EndsWithSlice(s, "craft");
    PluralCraft(s, s + "s");
  }

  lemma PluralOfBench(s: string)
    requires s == "bench"
    ensures IsLowerWord(s) && Chain(Rules, s, s + "s") == "benches"
  {
    SibilantWord(s, s + "s");
    assert s + "es" == "benches";
  }

  lemma PluralOfMarsh(s: string)
    requires s == "marsh"
    ensures IsLowerWord(s) && Chain(Rules, s, s + "s") == "marshes"
  {
    SibilantWord(s, s + "s");
    assert s + "es" == "marshes";
  }

  lemma PluralOfKiss(s: string)
    requires s == "kiss"
    ensures IsLowerWord(s) && Chain(Rules, s, s + "s") == "kisses"
  {
    SibilantWord(s, s + "s");
    assert s + "es" == "kisses";
  }

  lemma PluralOfCosmos(s: string)
    requires s == "cosmos"
    ensures IsLowerWord(s) && Chain(Rules, s, s + "s") == "cosmoses"
  {
    SibilantWord(s, s + "s");
    assert s + "es" == "cosmoses";
  }

  lemma PluralOfTax(s: string)
    requires s == "tax"
    ensures IsLowerWord(s) && Chain(Rules, s, s + "s") == "taxes"
  {
    SibilantWord(s, s + "s");
    assert s + "es" == "taxes";
  }

  lemma PluralOfTopaz(s: string)
    requires s == "topaz"
    ensures IsLowerWord(s) && Chain(Rules, s, s + "s") == "topazes"
  {
    SibilantWord(s, s + "s");
    assert s + "es" == "topazes";
  }

  /** The words of the pluralizer's tests with their expected plurals. */
  const TestCases: seq<(string, string)> := [
    ("index", "indices"),
    ("cactus", "cacti"),
    ("wolf", "wolves"),
    ("roof", "roofs"),
    ("knife", "knives"),
    ("datum", "data"),
    ("potato", "potatoes"),
    ("video", "videos"),
    ("country", "countries"),
    ("subway", "subways"),
    ("aircraft", "aircraft"),
    ("bench", "benches"),
    ("marsh", "marshes"),
    ("kiss", "kisses"),
    ("cosmos", "cosmoses"),
    ("tax", "taxes"),
    ("topaz", "topazes")
  ]

  lemma PluralizeTestWord(i: nat)
    requires i < |TestCases|
    ensures IsLowerWord(TestCases[i].0) && Chain(Rules, TestCases[i].0, TestCases[i].0 + "s") == TestCases[i].1
  {
    var s := TestCases[i].0;
    if i == 0 {
      PluralOfIndex(s);
    } else if i == 1 {
      PluralOfCactus(s);
    } else if i == 2 {
      PluralOfWolf(s);
    } else if i == 3 {
      PluralOfRoof(s);
    } else if i == 4 {
      PluralOfKnife(s);
    } else if i == 5 {
      PluralOfDatum(s);
    } else if i == 6 {
      PluralOfPotato(s);
    } else if i == 7 {
      PluralOfVideo(s);
    } else if i == 8 {
      PluralOfCountry(s);
    } else if i == 9 {
      PluralOfSubway(s);
    } else if i == 10 {
      PluralOfAircraft(s);
    } else if i == 11 {
      PluralOfBench(s);
    } else if i == 12 {
      PluralOfMarsh(s);
    } else if i == 13 {
      PluralOfKiss(s);
    } else if i == 14 {
      PluralOfCosmos(s);
    } else if i == 15 {
      PluralOfTax(s);
    } else {
      PluralOfTopaz(s);
    }
  }

  /** The examples of the pluralizer's tests, through `pluralize` itself. */
  lemma PluralizeWorkedCases()
    ensures Pluralize(Null) == "" && Pluralize(Str("")) == ""
    ensures forall i | 0 <= i < |TestCases| :: Pluralize(Str(TestCases[i].0)) == TestCases[i].1
  {
    forall i | 0 <= i < |TestCases|
      ensures Pluralize(Str(TestCases[i].0)) == TestCases[i].1
    {
      PluralizeTestWord(i);
      PluralizeLowerWord(TestCases[i].0);
    }
  }
}
