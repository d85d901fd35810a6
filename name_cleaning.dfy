/**
  The heuristic that turns a registry title such as
  "METFORMIN HYDROCHLORIDE TABLET, FILM COATED" into the display name
  "Metformin Hydrochloride": five `split(d)[0]` steps, then Python's
  `str.strip()` and `str.title()`.

  Characters are Dafny `char`s; whitespace and letter case follow Python's
  definitions restricted to ASCII.
 */
module NameCleaning {

  // ---------------------------------------------------------------------------
  // Characters
  // ---------------------------------------------------------------------------

  /** The ASCII characters for which Python's `str.isspace()` holds:
      tab, line feed, vertical tab, form feed, carriage return, the four
      information separators 0x1C-0x1F, and space. */
  predicate IsSpace(c: char) {
    9 <= c as int <= 13 || 28 <= c as int <= 31 || c == ' '
  }

  predicate IsUpper(c: char) { 'A' <= c <= 'Z' }

  predicate IsLower(c: char) { 'a' <= c <= 'z' }

  /** The ASCII cased characters: the only ones `str.title()` changes or
      counts as "cased". */
  predicate IsLetter(c: char) { IsUpper(c) || IsLower(c) }

  function Upper(c: char): (u: char)
    ensures IsLetter(c) ==> IsUpper(u) && Lower(u) == Lower(c)
    ensures !IsLetter(c) ==> u == c
  {
    if IsLower(c) then (c as int - 32) as char else c
  }

  function Lower(c: char): (l: char)
    ensures IsLetter(c) ==> IsLower(l)
    ensures !IsLetter(c) ==> l == c
  {
    if IsUpper(c) then (c as int + 32) as char else c
  }

  // ---------------------------------------------------------------------------
  // split(d)[0]
  // ---------------------------------------------------------------------------

  /** `d` occurs in `s` starting at index `i`. */
  predicate OccursAt(s: string, d: string, i: int) {
    0 <= i && i + |d| <= |s| && s[i..i + |d|] == d
  }

  predicate Contains(s: string, d: string) {
    exists i | 0 <= i <= |s| - |d| :: OccursAt(s, d, i)
  }

  /** `r` is what Python's `s.split(d)[0]` yields: a prefix of `s` in which
      `d` starts nowhere, ending where `d`'s first occurrence starts, or all
      of `s` when `d` does not occur. */
  ghost predicate IsTextBefore(s: string, d: string, r: string) {
    r <= s &&
    (forall j :: 0 <= j < |r| ==> !OccursAt(s, d, j)) &&
    (if Contains(s, d) then OccursAt(s, d, |r|) else r == s)
  }

  /** Shifting an occurrence by the dropped first character. */
  lemma OccursAtTail(s: string, d: string, j: int)
    requires |s| > 0 && 0 <= j
    ensures OccursAt(s[1..], d, j) <==> OccursAt(s, d, j + 1)
  {
    if j + |d| <= |s| - 1 {
      assert s[1..][j..j + |d|] == s[j + 1..j + 1 + |d|];
    }
  }

  /** `d` occurs in `s` after its first character exactly when it occurs
      in `s[1..]`. */
  lemma ContainsTail(s: string, d: string)
    requires |s| > 0 && !OccursAt(s, d, 0)
    ensures Contains(s, d) <==> Contains(s[1..], d)
  {
    if Contains(s, d) {
      var i :| 0 <= i <= |s| - |d| && OccursAt(s, d, i);
      OccursAtTail(s, d, i - 1);
    }
    if Contains(s[1..], d) {
      var i :| 0 <= i <= |s| - 1 - |d| && OccursAt(s[1..], d, i);
      OccursAtTail(s, d, i);
    }
  }

  /** `s.split(d)[0]` for a non-empty separator `d` (all the separators
      bot.py uses are non-empty). */
  function Before(s: string, d: string): (r: string)
    requires |d| > 0
    decreases |s|
  {
    if |s| < |d| then s
    else if s[..|d|] == d then []
    else [s[0]] + Before(s[1..], d)
  }

  /** `Before` keeps a prefix of `s`. */
  lemma {:induction false} BeforePrefix(s: string, d: string)
    requires |d| > 0
    ensures Before(s, d) <= s
    decreases |s|
  {
    if |s| >= |d| && s[..|d|] != d {
      BeforePrefix(s[1..], d);
    }
  }

  /** `d` starts nowhere inside `Before(s, d)`. */
  lemma {:induction false} BeforeNoEarlier(s: string, d: string)
    requires |d| > 0
    ensures forall j :: 0 <= j < |Before(s, d)| ==> !OccursAt(s, d, j)
    decreases |s|
  {
    if |s| >= |d| && s[..|d|] != d {
      var t := Before(s[1..], d);
      BeforeNoEarlier(s[1..], d);
      forall j | 0 <= j < |t| + 1 ensures !OccursAt(s, d, j) {
        if j > 0 {
          OccursAtTail(s, d, j - 1);
        }
      }
    }
  }

  /** `Before(s, d)` ends where the first `d` starts, or is all of `s`. */
  lemma {:induction false} BeforeStops(s: string, d: string)
    requires |d| > 0
    ensures if Contains(s, d) then OccursAt(s, d, |Before(s, d)|) else Before(s, d) == s
    decreases |s|
  {
    if |s| < |d| {
    } else if s[..|d|] == d {
      assert OccursAt(s, d, 0);
    } else {
      BeforeStops(s[1..], d);
      ContainsTail(s, d);
      if Contains(s, d) {
        OccursAtTail(s, d, |Before(s[1..], d)|);
      }
    }
  }

  /** `Before` gives the text before the first occurrence of `d`. */
  lemma BeforeSpec(s: string, d: string)
    requires |d| > 0
    ensures IsTextBefore(s, d, Before(s, d))
  {
    BeforePrefix(s, d);
    BeforeNoEarlier(s, d);
    BeforeStops(s, d);
  }

  /** `IsTextBefore` pins down a single string, so `Before` is the one
      answer to "the text before the first `d`". */
  lemma TextBeforeUnique(s: string, d: string, r: string)
    requires |d| > 0
    requires IsTextBefore(s, d, r)
    ensures r == Before(s, d)
  {
    BeforeSpec(s, d);
  }

  /** When the first `d` in `s` starts at index `k`, `s.split(d)[0]` is
      `s[..k]`. */
  lemma BeforeFirst(s: string, d: string, k: int)
    requires |d| > 0 && OccursAt(s, d, k)
    requires forall j :: 0 <= j < k ==> !OccursAt(s, d, j)
    ensures Before(s, d) == s[..k]
  {
    assert Contains(s, d);
    TextBeforeUnique(s, d, s[..k]);
  }

  /** A prefix of a string in which `d` does not occur does not contain `d`
      either, so a later split never brings back an earlier separator. */
  lemma PrefixLacks(s: string, p: string, d: string)
    requires p <= s
    requires !Contains(s, d)
    ensures !Contains(p, d)
  {
    forall i | 0 <= i <= |p| - |d| ensures !OccursAt(p, d, i) {
      assert p[i..i + |d|] == s[i..i + |d|];
      assert !OccursAt(s, d, i);
    }
  }

  /** `d` does not occur in `Before(s, d)`. */
  lemma BeforeLacks(s: string, d: string)
    requires |d| > 0
    ensures !Contains(Before(s, d), d)
  {
    var r := Before(s, d);
    BeforeSpec(s, d);
    forall i | 0 <= i <= |r| - |d| ensures !OccursAt(r, d, i) {
      assert r[i..i + |d|] == s[i..i + |d|];
      assert !OccursAt(s, d, i);
    }
  }

  /** The separators of bot.py:107-111, in the order they are applied. */
  const Separators: seq<string> := [" AND ", "TABLET", "CAPSULE", "INJECTION", "FOR "]

  /** The chain of `.split(d)[0]` calls on `raw_title` (bot.py:106-111). */
  function SplitChain(raw: string): (r: string) {
    Before(Before(Before(Before(Before(raw, " AND "), "TABLET"), "CAPSULE"), "INJECTION"), "FOR ")
  }

  /** One step of the chain: splitting on the `k`-th separator keeps a
      prefix, removes that separator and keeps the earlier ones absent. */
  lemma {:induction false} SplitStep(s: string, k: int)
    requires 0 <= k < |Separators|
    requires forall e :: e in Separators[..k] ==> !Contains(s, e)
    ensures var r := Before(s, Separators[k]);
      r <= s && forall e :: e in Separators[..k + 1] ==> !Contains(r, e)
  {
    var d := Separators[k];
    var r := Before(s, d);
    BeforeSpec(s, d);
    BeforeLacks(s, d);
    forall e | e in Separators[..k + 1] ensures !Contains(r, e) {
      if e != d {
        assert e in Separators[..k];
        PrefixLacks(s, r, e);
      }
    }
  }

  lemma PrefixOfPrefix(a: string, b: string, c: string)
    requires b <= a && c <= b
    ensures c <= a
  {
  }

  /** The split chain keeps a prefix of the title and leaves none of the five
      separators in it. */
  lemma {:induction false} SplitChainSpec(raw: string)
    ensures var r := SplitChain(raw);
      r <= raw && forall d :: d in Separators ==> !Contains(r, d)
  {
    var s1 := Before(raw, Separators[0]);
    var s2 := Before(s1, Separators[1]);
    var s3 := Before(s2, Separators[2]);
    var s4 := Before(s3, Separators[3]);
    var s5 := Before(s4, Separators[4]);
    SplitStep(raw, 0);
    SplitStep(s1, 1);
    SplitStep(s2, 2);
    SplitStep(s3, 3);
    SplitStep(s4, 4);
    PrefixOfPrefix(raw, s1, s2);
    PrefixOfPrefix(raw, s2, s3);
    PrefixOfPrefix(raw, s3, s4);
    PrefixOfPrefix(raw, s4, s5);
    assert Separators[..5] == Separators;
    assert s5 == SplitChain(raw);
  }

  // ---------------------------------------------------------------------------
  // str.strip()
  // ---------------------------------------------------------------------------

  /** Every character of `s` from index `lo` up to `hi` is whitespace. */
  predicate SpaceBetween(s: string, lo: int, hi: int)
    requires 0 <= lo <= hi <= |s|
  {
    forall i :: lo <= i < hi ==> IsSpace(s[i])
  }

  /** `s.lstrip()`. */
  function LStrip(s: string): (r: string) {
    if |s| > 0 && IsSpace(s[0]) then LStrip(s[1..]) else s
  }

  /** `s.rstrip()`. */
  function RStrip(s: string): (r: string) {
    if |s| > 0 && IsSpace(s[|s| - 1]) then RStrip(s[..|s| - 1]) else s
  }

  /** `s.strip()`. */
  function Strip(s: string): (r: string) {
    RStrip(LStrip(s))
  }

  /** `lstrip()` leaves the suffix of `s` that starts at its first
      non-space character; everything dropped is whitespace. */
  lemma {:induction false} LStripSpec(s: string)
    ensures var r := LStrip(s);
      |r| <= |s| && r == s[|s| - |r|..] &&
      SpaceBetween(s, 0, |s| - |r|) &&
      (r == [] || !IsSpace(r[0]))
  {
    if |s| > 0 && IsSpace(s[0]) {
      LStripSpec(s[1..]);
    }
  }

  /** `rstrip()` leaves the prefix of `s` that ends at its last non-space
      character; everything dropped is whitespace. */
  lemma {:induction false} RStripSpec(s: string)
    ensures var r := RStrip(s);
      |r| <= |s| && r == s[..|r|] &&
      SpaceBetween(s, |r|, |s|) &&
      (r == [] || !IsSpace(r[|r| - 1]))
  {
    if |s| > 0 && IsSpace(s[|s| - 1]) {
      RStripSpec(s[..|s| - 1]);
    }
  }

  /** `strip()` leaves the part of `s` between its leading and its trailing
      whitespace, found at index `a` of `s`; it starts and ends with a
      non-space character. */
  lemma StripSpec(s: string)
    ensures |LStrip(s)| <= |s|
    ensures var r := Strip(s); var a := |s| - |LStrip(s)|;
      (r == [] || (!IsSpace(r[0]) && !IsSpace(r[|r| - 1]))) &&
      a + |r| <= |s| && (forall i :: 0 <= i < |r| ==> r[i] == s[a + i]) &&
      SpaceBetween(s, 0, a) && SpaceBetween(s, a + |r|, |s|)
  {
    var l := LStrip(s);
    var r := RStrip(l);
    var a := |s| - |l|;
    LStripSpec(s);
    RStripSpec(l);
    forall i | 0 <= i < |r| ensures r[i] == s[a + i] {
      assert r[i] == l[i] && l[i] == s[a..][i];
    }
    forall i | a + |r| <= i < |s| ensures IsSpace(s[i]) {
      assert s[i] == s[a..][i - a] && IsSpace(l[i - a]);
    }
  }

  /** Stripping a string that has no surrounding whitespace changes nothing. */
  lemma StripStripped(s: string)
    requires s == [] || (!IsSpace(s[0]) && !IsSpace(s[|s| - 1]))
    ensures Strip(s) == s
  {
    LStripSpec(s);
    RStripSpec(s);
  }

  // ---------------------------------------------------------------------------
  // str.title()
  // ---------------------------------------------------------------------------

  /** Whether the character before index `i` of `s` is cased; before the
      first character, `prev` says. */
  predicate CasedBefore(s: string, i: int, prev: bool)
    requires 0 <= i < |s|
  {
    if i == 0 then prev else IsLetter(s[i - 1])
  }

  /** The loop of `str.title()`, started with `prev` as the "previous
      character was cased" flag: a character after a cased one is
      lower-cased, any other is upper-cased. */
  function TitleFrom(s: string, prev: bool): (r: string)
    ensures |r| == |s|
    ensures forall i {:trigger r[i]} :: 0 <= i < |s| ==>
      r[i] == if CasedBefore(s, i, prev) then Lower(s[i]) else Upper(s[i])
  {
    if s == [] then []
    else
      var c := if prev then Lower(s[0]) else Upper(s[0]);
      var t := TitleFrom(s[1..], IsLetter(s[0]));
      assert forall i :: 1 <= i < |s| ==> CasedBefore(s, i, prev) == CasedBefore(s[1..], i - 1, IsLetter(s[0]));
      [c] + t
  }

  /** `s.title()`. */
  function Title(s: string): (r: string) {
    TitleFrom(s, false)
  }

  /** Character `i` of `r` is character `i` of `s` as `str.title()`
      promises to leave it: each letter stays the same letter up to case
      and everything else is unchanged; a letter is upper-case exactly when the character before
      it is not a letter, and lower-case exactly when it is. */
  predicate TitleCasedAt(s: string, r: string, i: int)
    requires 0 <= i < |s| && |r| == |s|
  {
    Lower(r[i]) == Lower(s[i]) &&
    (IsLetter(r[i]) <==> IsLetter(s[i])) &&
    (!IsLetter(s[i]) ==> r[i] == s[i]) &&
    (IsUpper(r[i]) <==> IsLetter(s[i]) && (i == 0 || !IsLetter(s[i - 1]))) &&
    (IsLower(r[i]) <==> IsLetter(s[i]) && i > 0 && IsLetter(s[i - 1]))
  }

  /** `title()` keeps the length and cases every character as promised. */
  lemma TitleSpec(s: string)
    ensures |Title(s)| == |s|
    ensures forall i :: 0 <= i < |s| ==> TitleCasedAt(s, Title(s), i)
  {
    forall i | 0 <= i < |s| ensures TitleCasedAt(s, Title(s), i) {
      TitleAt(s, i);
    }
  }

  lemma TitleAt(s: string, i: int)
    requires 0 <= i < |s|
    ensures |Title(s)| == |s| && TitleCasedAt(s, Title(s), i)
  {
    var c := Title(s)[i];
    assert c == if i > 0 && IsLetter(s[i - 1]) then Lower(s[i]) else Upper(s[i]);
  }

  /** Title-casing twice is title-casing once. */
  lemma TitleIdempotent(s: string)
    ensures Title(Title(s)) == Title(s)
  {
    var t := Title(s);
    forall i | 0 <= i < |s| ensures Title(t)[i] == t[i] {
      TitleAt(s, i);
      TitleAt(t, i);
      if i > 0 {
        TitleAt(s, i - 1);
      }
    }
  }

  /** In a title-cased string no letter follows a letter in upper case. */
  lemma TitleNoInnerCapital(s: string, i: int)
    requires 0 < i < |s|
    requires IsLetter(Title(s)[i - 1]) && IsLetter(Title(s)[i])
    ensures IsLower(Title(s)[i])
  {
    TitleAt(s, i - 1);
    TitleAt(s, i);
  }

  // ---------------------------------------------------------------------------
  // The whole cleaning chain
  // ---------------------------------------------------------------------------

  /** The display name derived from `raw_title` (bot.py:105-114). */
  function CleanName(raw: string): (r: string) {
    Title(Strip(SplitChain(raw)))
  }

  /** Title-casing keeps whitespace where it is, so a string without
      surrounding whitespace keeps that shape. */
  lemma TitleKeepsEnds(m: string)
    requires m == [] || (!IsSpace(m[0]) && !IsSpace(m[|m| - 1]))
    ensures var t := Title(m); t == [] || (!IsSpace(t[0]) && !IsSpace(t[|t| - 1]))
  {
    if m != [] {
      TitleAt(m, 0);
      TitleAt(m, |m| - 1);
    }
  }

  /** The cleaned name has no surrounding whitespace, has as many characters
      as the stripped split-chain text `m`, and is `m` title-cased as
      `str.title()` promises. */
  lemma CleanNameSpec(raw: string)
    ensures var m := Strip(SplitChain(raw)); var r := CleanName(raw);
      |r| == |m| &&
      (r == [] || (!IsSpace(r[0]) && !IsSpace(r[|r| - 1]))) &&
      forall i :: 0 <= i < |m| ==> TitleCasedAt(m, r, i)
  {
    var x := SplitChain(raw);
    var m := Strip(x);
    assert CleanName(raw) == Title(m);
    StripSpec(x);
    TitleSpec(m);
    TitleKeepsEnds(m);
  }

  /** A title-cased string contains no `d` that has an upper-case letter
      right after another letter (at offsets `k - 1` and `k`). */
  lemma TitleLacks(s: string, d: string, k: int)
    requires 0 < k < |d| && IsLetter(d[k - 1]) && IsUpper(d[k])
    ensures !Contains(Title(s), d)
  {
    var t := Title(s);
    forall i | 0 <= i <= |t| - |d| ensures !OccursAt(t, d, i) {
      assert t[i + k - 1] != d[k - 1] || t[i + k] != d[k] by {
        TitleAt(s, i + k - 1);
        TitleAt(s, i + k);
      }
      assert t[i..i + |d|][k - 1] == t[i + k - 1] && t[i..i + |d|][k] == t[i + k];
    }
  }

  /** A title-cased string contains none of the separators. */
  lemma TitleLacksSeparators(s: string)
    ensures forall d :: d in Separators ==> !Contains(Title(s), d)
  {
    TitleLacks(s, " AND ", 2);
    TitleLacks(s, "TABLET", 1);
    TitleLacks(s, "CAPSULE", 1);
    TitleLacks(s, "INJECTION", 1);
    TitleLacks(s, "FOR ", 1);
  }

  /** A string without `d` is its own `split(d)[0]`. */
  lemma BeforeAbsent(s: string, d: string)
    requires |d| > 0 && !Contains(s, d)
    ensures Before(s, d) == s
  {
    BeforeSpec(s, d);
  }

  /** A title-cased string goes through the split chain unchanged. */
  lemma SplitChainOfTitle(m: string)
    ensures SplitChain(Title(m)) == Title(m)
  {
    var t := Title(m);
    TitleLacksSeparators(m);
    BeforeAbsent(t, " AND ");
    BeforeAbsent(t, "TABLET");
    BeforeAbsent(t, "CAPSULE");
    BeforeAbsent(t, "INJECTION");
    BeforeAbsent(t, "FOR ");
  }

  /** Cleaning an already cleaned name gives it back unchanged. */
  lemma {:induction false} CleanNameIdempotent(raw: string)
    ensures CleanName(CleanName(raw)) == CleanName(raw)
  {
    var m := Strip(SplitChain(raw));
    var c := Title(m);
    SplitChainOfTitle(m);
    StripSpec(SplitChain(raw));
    TitleKeepsEnds(m);
    StripStripped(c);
    TitleIdempotent(m);
    calc {
      CleanName(c);
      Title(Strip(SplitChain(c)));
      Title(Strip(c));
      Title(c);
      c;
    }
  }

  /** A string with no upper-case letter contains no `d` that has one. */
  lemma NoUpperLacks(s: string, d: string, k: int)
    requires forall i :: 0 <= i < |s| ==> !IsUpper(s[i])
    requires 0 <= k < |d| && IsUpper(d[k])
    ensures !Contains(s, d)
  {
  }

  /** A name typed in lower case goes through the split chain unchanged. */
  lemma SplitChainOfLowerCase(s: string)
    requires forall i :: 0 <= i < |s| ==> !IsUpper(s[i])
    ensures SplitChain(s) == s
  {
    NoUpperLacks(s, " AND ", 1);
    NoUpperLacks(s, "TABLET", 0);
    NoUpperLacks(s, "CAPSULE", 0);
    NoUpperLacks(s, "INJECTION", 0);
    NoUpperLacks(s, "FOR ", 0);
    BeforeAbsent(s, " AND ");
    BeforeAbsent(s, "TABLET");
    BeforeAbsent(s, "CAPSULE");
    BeforeAbsent(s, "INJECTION");
    BeforeAbsent(s, "FOR ");
  }

  /** A name typed in lower case with no surrounding whitespace is
      cleaned by title-casing alone. */
  lemma CleanNameOfLowerCase(s: string)
    requires forall i :: 0 <= i < |s| ==> !IsUpper(s[i])
    requires s == [] || (!IsSpace(s[0]) && !IsSpace(s[|s| - 1]))
    ensures CleanName(s) == Title(s)
  {
    SplitChainOfLowerCase(s);
    StripStripped(s);
  }

  /** The example of a user typing "metformin": the name shown is
      "Metformin". */
  lemma CleanNameMetformin(s: string)
    requires s == "metformin"
    ensures CleanName(s) == "Metformin"
  {
    CleanNameOfLowerCase(s);
    TitleMetformin(s);
  }

  /** "metformin" title-cases to "Metformin". */
  lemma TitleMetformin(s: string)
    requires s == "metformin"
    ensures Title(s) == "Metformin"
  {
    TitleSpec(s);
    var t := Title(s);
    assert t[0] == 'M' && t[1] == 'e' && t[2] == 't' && t[3] == 'f' && t[4] == 'o';
    assert t[5] == 'r' && t[6] == 'm' && t[7] == 'i' && t[8] == 'n';
  }

  // ---------------------------------------------------------------------------
  // A registry title
  // ---------------------------------------------------------------------------

  /** `d` does not start at `j` when its character `k` differs from the
      character of `s` it would cover. */
  lemma MismatchAt(s: string, d: string, j: int, k: int)
    requires 0 <= j && 0 <= k < |d| && j + k < |s| && s[j + k] != d[k]
    ensures !OccursAt(s, d, j)
  {
  }

  /** When character `k` of `d` does not appear in `s[lo..hi]`, no `d`
      starts where that character would fall inside `s[lo..hi]`. */
  lemma LacksChar(s: string, d: string, k: int, lo: int, hi: int)
    requires 0 <= k < |d| && 0 <= lo <= hi <= |s| && d[k] !in s[lo..hi]
    ensures forall j :: 0 <= j && lo <= j + k < hi ==> !OccursAt(s, d, j)
  {
    forall j | 0 <= j && lo <= j + k < hi ensures !OccursAt(s, d, j) {
      assert s[lo..hi][j + k - lo] == s[j + k];
    }
  }

  /** The registry title used below has no " AND ". */
  lemma RegistryTitleLacksAnd(s: string)
    requires s == "METFORMIN " + "HYDROCHLORIDE " + "TABLET, " + "FILM COATED"
    ensures !Contains(s, " AND ")
  {
    LacksChar(s, " AND ", 2, 0, 8);
    LacksChar(s, " AND ", 2, 9, |s|);
    MismatchAt(s, " AND ", 6, 3);
  }

  /** Its first "TABLET" starts at index 24, so the split keeps the 24
      characters before it, trailing space included. */
  lemma RegistryTitleCut(s: string)
    requires s == "METFORMIN " + "HYDROCHLORIDE " + "TABLET, " + "FILM COATED"
    ensures Before(s, "TABLET") == "METFORMIN " + "HYDROCHLORIDE "
  {
    LacksChar(s, "TABLET", 2, 0, 26);
    assert s[24..30] == "TABLET";
    BeforeFirst(s, "TABLET", 24);
  }

  /** What is left contains none of the later separators. */
  lemma RegistryNameLacksRest(p: string)
    requires p == "METFORMIN " + "HYDROCHLORIDE "
    ensures !Contains(p, "CAPSULE") && !Contains(p, "INJECTION") && !Contains(p, "FOR ")
  {
    LacksChar(p, "CAPSULE", 2, 0, |p|);
    LacksChar(p, "INJECTION", 2, 0, |p|);
    LacksChar(p, "FOR ", 0, 0, 3);
    LacksChar(p, "FOR ", 0, 4, |p|);
    MismatchAt(p, "FOR ", 3, 3);
  }

  /** The split chain cuts "METFORMIN HYDROCHLORIDE TABLET, FILM COATED" at
      "TABLET". */
  lemma SplitChainRegistryTitle(s: string)
    requires s == "METFORMIN " + "HYDROCHLORIDE " + "TABLET, " + "FILM COATED"
    ensures SplitChain(s) == "METFORMIN " + "HYDROCHLORIDE "
  {
    var p := "METFORMIN " + "HYDROCHLORIDE ";
    RegistryTitleLacksAnd(s);
    BeforeAbsent(s, " AND ");
    RegistryTitleCut(s);
    RegistryNameLacksRest(p);
    BeforeAbsent(p, "CAPSULE");
    BeforeAbsent(p, "INJECTION");
    BeforeAbsent(p, "FOR ");
  }

  /** `strip()` drops the space the cut left behind. */
  lemma StripRegistryName(p: string)
    requires p == "METFORMIN " + "HYDROCHLORIDE "
    ensures Strip(p) == "METFORMIN " + "HYDROCHLORIDE"
  {
    var q := p[..|p| - 1];
    assert q == "METFORMIN " + "HYDROCHLORIDE";
    assert LStrip(p) == p;
    assert RStrip(p) == RStrip(q) == q;
  }

  /** `title()` capitalises each word and lower-cases the rest. */
  lemma TitleRegistryName(m: string)
    requires m == "METFORMIN " + "HYDROCHLORIDE"
    ensures Title(m) == "Metformin " + "Hydrochloride"
  {
    var t := Title(m);
    assert t[0] == 'M' && t[1] == 'e' && t[2] == 't' && t[3] == 'f' && t[4] == 'o' && t[5] == 'r';
    assert t[6] == 'm' && t[7] == 'i' && t[8] == 'n' && t[9] == ' ' && t[10] == 'H' && t[11] == 'y';
    assert t[12] == 'd' && t[13] == 'r' && t[14] == 'o' && t[15] == 'c' && t[16] == 'h' && t[17] == 'l';
    assert t[18] == 'o' && t[19] == 'r' && t[20] == 'i' && t[21] == 'd' && t[22] == 'e';
  }

  /** The registry title "METFORMIN HYDROCHLORIDE TABLET, FILM COATED" is
      shown as "Metformin Hydrochloride". */
  lemma CleanNameRegistryTitle(s: string)
    requires s == "METFORMIN " + "HYDROCHLORIDE " + "TABLET, " + "FILM COATED"
    ensures CleanName(s) == "Metformin " + "Hydrochloride"
  {
    SplitChainRegistryTitle(s);
    StripRegistryName("METFORMIN " + "HYDROCHLORIDE ");
    TitleRegistryName("METFORMIN " + "HYDROCHLORIDE");
  }
}
