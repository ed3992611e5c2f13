/** The string operations the pluralizers use, on ASCII text: `trim`,
    `toLowerCase`, `endsWith` and `slice(0, -n)`. */
module Text {

  /** The ASCII characters `String.prototype.trim` removes. */
  predicate IsSpace(c: char) {
    c == ' ' || c == '\t' || c == '\n' || c == '\r' || c as int == 11 || c as int == 12
  }

  /** `s.trimStart()`. */
  function TrimStart(s: string): string {
    if s != [] && IsSpace(s[0]) then TrimStart(s[1..]) else s
  }

  /** `s.trimEnd()`. */
  function TrimEnd(s: string): string {
    if s != [] && IsSpace(s[|s| - 1]) then TrimEnd(s[..|s| - 1]) else s
  }

  /** `s.trim()`: s without its leading and trailing white space. The result is
      never longer than s and neither starts nor ends with white space. */
  function Trim(s: string): (r: string)
    ensures |r| <= |s|
    ensures r == [] || (!IsSpace(r[0]) && !IsSpace(r[|r| - 1]))
  {
    var t := TrimStart(s);
    TrimStartShape(s);
    TrimEndShape(t);
    assert TrimEnd(t) == [] || TrimEnd(t)[0] == t[0];
    TrimEnd(t)
  }

  /** The start-trimmed form is a suffix of s, only white space comes before
      it, and it does not start with white space. */
  lemma {:induction false} TrimStartShape(s: string)
    ensures var r := TrimStart(s);
            |r| <= |s| && r == s[|s| - |r|..] && (r == [] || !IsSpace(r[0])) &&
            forall i | 0 <= i < |s| - |r| :: IsSpace(s[i])
  {
    if s != [] && IsSpace(s[0]) {
      TrimStartShape(s[1..]);
      var r := TrimStart(s);
      forall i | 0 <= i < |s| - |r| ensures IsSpace(s[i]) {
        if i > 0 {
          assert s[i] == s[1..][i - 1];
        }
      }
    }
  }

  /** The end-trimmed form is a prefix of s, only white space comes after it,
      and it does not end with white space. */
  lemma {:induction false} TrimEndShape(s: string)
    ensures var r := TrimEnd(s);
            |r| <= |s| && r == s[..|r|] && (r == [] || !IsSpace(r[|r| - 1])) &&
            forall i | |r| <= i < |s| :: IsSpace(s[i])
  {
    if s != [] && IsSpace(s[|s| - 1]) {
      TrimEndShape(s[..|s| - 1]);
      var r := TrimEnd(s);
      forall i | |r| <= i < |s| ensures IsSpace(s[i]) {
        if i < |s| - 1 {
          assert s[i] == s[..|s| - 1][i];
        }
      }
    }
  }

  /** The trimmed form is a slice of s with only white space around it, and it
      neither starts nor ends with white space. */
  lemma TrimShape(s: string)
    ensures var r := Trim(s);
            (r == [] || (!IsSpace(r[0]) && !IsSpace(r[|r| - 1]))) &&
            exists i, j | 0 <= i <= j <= |s| :: r == s[i..j] &&
              (forall k | 0 <= k < i :: IsSpace(s[k])) && (forall k | j <= k < |s| :: IsSpace(s[k]))
  {
    var t := TrimStart(s);
    var r := TrimEnd(t);
    TrimStartShape(s);
    TrimEndShape(t);
    var i, j := |s| - |t|, |s| - |t| + |r|;
    assert r == s[i..j];
    assert r == [] || (!IsSpace(r[0]) && !IsSpace(r[|r| - 1])) by {
      if r != [] {
        assert r[0] == t[0];
      }
    }
    assert forall k | 0 <= k < i :: IsSpace(s[k]);
    assert forall k | j <= k < |s| :: IsSpace(s[k]) by {
      forall k | j <= k < |s| ensures IsSpace(s[k]) {
        assert s[k] == t[k - i];
      }
    }
  }

  /** The five vowels of `[aeiou]`. */
  lemma InVowels(c: char)
    ensures c in "aeiou" <==> c == 'a' || c == 'e' || c == 'i' || c == 'o' || c == 'u'
  {
    var v := "aeiou";
    assert v[0] == 'a' && v[1] == 'e' && v[2] == 'i' && v[3] == 'o' && v[4] == 'u';
  }

  /** s ends with the two characters a, b. */
  lemma EndsWithTwo(s: string, a: char, b: char)
    ensures EndsWith(s, [a, b]) <==> |s| >= 2 && s[|s| - 2] == a && s[|s| - 1] == b
  {
    var ab := [a, b];
    assert ab[..1] == [a] && [a][..0] == [];
    assert EndsWith(s, ab) == (s != [] && s[|s| - 1] == b && EndsWith(s[..|s| - 1], [a]));
    if s != [] {
      var t := s[..|s| - 1];
      assert EndsWith(t, [a]) == (t != [] && t[|t| - 1] == a && EndsWith(t[..|t| - 1], []));
      if t != [] {
        assert t[|t| - 1] == s[|s| - 2];
      }
    }
  }

  function LowerChar(c: char): char {
    if 'A' <= c <= 'Z' then (c as int - 'A' as int + 'a' as int) as char else c
  }

  predicate IsUpper(c: char) {
    'A' <= c <= 'Z'
  }

  /** `s.toLowerCase()` on ASCII letters: no capital is left, each capital
      becomes its small letter (32 code points on), and every other character
      stays where and what it was. */
  function Lower(s: string): (r: string)
    ensures |r| == |s|
    ensures forall i | 0 <= i < |r| :: !IsUpper(r[i])
    ensures forall i | 0 <= i < |s| :: IsUpper(s[i]) ==> r[i] as int == s[i] as int + 32
    ensures forall i | 0 <= i < |s| :: !IsUpper(s[i]) ==> r[i] == s[i]
  {
    seq(|s|, i requires 0 <= i < |s| => LowerChar(s[i]))
  }

  /** Lower-casing twice is lower-casing once. */
  lemma LowerIdempotent(s: string)
    ensures Lower(Lower(s)) == Lower(s)
  {
  }

  /** `s.endsWith(suffix)`, compared from the last character backwards. */
  predicate EndsWith(s: string, suffix: string)
    ensures EndsWith(s, suffix) ==> |suffix| <= |s|
    decreases |suffix|
  {
    suffix == [] ||
    (s != [] && s[|s| - 1] == suffix[|suffix| - 1] && EndsWith(s[..|s| - 1], suffix[..|suffix| - 1]))
  }

  /** s ends with suffix exactly when its last |suffix| characters are suffix. */
  lemma {:induction false} EndsWithSlice(s: string, suffix: string)
    ensures EndsWith(s, suffix) <==> |suffix| <= |s| && s[|s| - |suffix|..] == suffix
    decreases |suffix|
  {
    if suffix != [] && s != [] {
      EndsWithSlice(s[..|s| - 1], suffix[..|suffix| - 1]);
      if |suffix| <= |s| && s[|s| - |suffix|..] == suffix {
        assert s[..|s| - 1][|s| - |suffix|..] == suffix[..|suffix| - 1];
      }
      if EndsWith(s, suffix) {
        assert s[|s| - |suffix|..] == s[..|s| - 1][|s| - 1 - (|suffix| - 1)..] + [s[|s| - 1]];
      }
    }
  }

  /** `s.slice(0, -n)` for n > 0: all but the last n characters, or '' when s is shorter. */
  function DropLast(s: string, n: nat): (r: string)
    requires n > 0
    ensures n <= |s| ==> r == s[..|s| - n]
    ensures n > |s| ==> r == ""
  {
    if n <= |s| then s[..|s| - n] else ""
  }

  /** A word that is already lower-case ASCII letters is its own trimmed, lower-cased form. */
  predicate IsLowerWord(s: string) {
    forall i | 0 <= i < |s| :: 'a' <= s[i] <= 'z'
  }

  lemma NormalizedLowerWord(s: string)
    requires IsLowerWord(s)
    ensures Lower(Trim(s)) == s
  {
    assert TrimStart(s) == s;
    assert TrimEnd(s) == s;
  }

  /** A string with no white space at either end is its own trimmed form. */
  lemma TrimUnspaced(s: string)
    requires s != [] && !IsSpace(s[0]) && !IsSpace(s[|s| - 1])
    ensures Trim(s) == s
  {
    assert TrimStart(s) == s;
  }
}
