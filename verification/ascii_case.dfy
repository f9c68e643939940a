/** The ASCII case helpers a mock provider uses to vary the casing of the
    city it reports (toUpper, toLower, toTitle), and the case-insensitive
    comparison the aggregator applies to that city.  Strings are sequences
    of runes; only the ASCII letters 'a'..'z' and 'A'..'Z' change case. */
module AsciiCase {

  predicate IsLower(c: char) { 'a' <= c <= 'z' }
  predicate IsUpper(c: char) { 'A' <= c <= 'Z' }
  predicate IsLetter(c: char) { IsLower(c) || IsUpper(c) }

  /** `r - 32` on a lower-case ASCII rune, identity elsewhere. */
  function UpperRune(c: char): (u: char)
    ensures !IsLower(u)
    ensures IsLetter(c) <==> IsLetter(u)
  {
    if IsLower(c) then (c as int - 32) as char else c
  }

  /** `r + 32` on an upper-case ASCII rune, identity elsewhere. */
  function LowerRune(c: char): (l: char)
    ensures !IsUpper(l)
    ensures IsLetter(c) <==> IsLetter(l)
  {
    if IsUpper(c) then (c as int + 32) as char else c
  }

  /** ASCII-only case-insensitive equality: same length, and the runes agree
      once both are mapped to lower case. */
  predicate EqualFold(a: string, b: string)
  {
    |a| == |b| && forall i :: 0 <= i < |a| ==> LowerRune(a[i]) == LowerRune(b[i])
  }

  /** The runes of `s`, each upper-cased. */
  function ToUpper(s: string): (r: string)
    ensures |r| == |s|
    ensures forall i :: 0 <= i < |s| ==> r[i] == UpperRune(s[i])
  {
    if |s| == 0 then [] else [UpperRune(s[0])] + ToUpper(s[1..])
  }

  /** The runes of `s`, each lower-cased. */
  function ToLower(s: string): (r: string)
    ensures |r| == |s|
    ensures forall i :: 0 <= i < |s| ==> r[i] == LowerRune(s[i])
  {
    if |s| == 0 then [] else [LowerRune(s[0])] + ToLower(s[1..])
  }

  /** No lower-case letter is left; every other rune is kept; a lower-case
      letter becomes the capital 32 code points below it. */
  lemma ToUpperRunes(s: string)
    ensures forall i :: 0 <= i < |s| ==> !IsLower(ToUpper(s)[i])
    ensures forall i :: 0 <= i < |s| && !IsLower(s[i]) ==> ToUpper(s)[i] == s[i]
    ensures forall i :: 0 <= i < |s| && IsLower(s[i]) ==>
      IsUpper(ToUpper(s)[i]) && ToUpper(s)[i] as int + 32 == s[i] as int
  {
  }

  /** No upper-case letter is left; every other rune is kept; an upper-case
      letter becomes the small letter 32 code points above it. */
  lemma ToLowerRunes(s: string)
    ensures forall i :: 0 <= i < |s| ==> !IsUpper(ToLower(s)[i])
    ensures forall i :: 0 <= i < |s| && !IsUpper(s[i]) ==> ToLower(s)[i] == s[i]
    ensures forall i :: 0 <= i < |s| && IsUpper(s[i]) ==>
      IsLower(ToLower(s)[i]) && ToLower(s)[i] as int == s[i] as int + 32
  {
  }

  lemma ToUpperIdempotent(s: string)
    ensures ToUpper(ToUpper(s)) == ToUpper(s)
  {
    var t := ToUpper(s);
    assert forall i :: 0 <= i < |t| ==> ToUpper(t)[i] == t[i];
  }

  lemma ToLowerIdempotent(s: string)
    ensures ToLower(ToLower(s)) == ToLower(s)
  {
    var t := ToLower(s);
    assert forall i :: 0 <= i < |t| ==> ToLower(t)[i] == t[i];
  }

  lemma LowerAfterUpper(s: string)
    ensures ToLower(ToUpper(s)) == ToLower(s)
  {
    var u := ToUpper(s);
    forall i | 0 <= i < |s|
      ensures ToLower(u)[i] == ToLower(s)[i]
    {
      if IsLower(s[i]) {
        assert IsUpper(u[i]);
      }
    }
  }

  /** Case-insensitive equality is exactly equality of the lower-cased
      strings. */
  lemma EqualFoldIsEqualLower(a: string, b: string)
    ensures EqualFold(a, b) <==> ToLower(a) == ToLower(b)
  {
    var la, lb := ToLower(a), ToLower(b);
    if la == lb {
      forall i | 0 <= i < |a|
        ensures LowerRune(a[i]) == LowerRune(b[i])
      {
        assert la[i] == lb[i];
      }
    }
    if EqualFold(a, b) {
      forall i | 0 <= i < |a|
        ensures la[i] == lb[i]
      {
      }
    }
  }

  lemma EqualFoldSymmetric(a: string, b: string)
    requires EqualFold(a, b)
    ensures EqualFold(b, a)
  {
  }

  lemma EqualFoldTransitive(a: string, b: string, c: string)
    requires EqualFold(a, b) && EqualFold(b, c)
    ensures EqualFold(a, c)
  {
  }

  lemma ToUpperFolds(s: string)
    ensures EqualFold(ToUpper(s), s)
  {
    var u := ToUpper(s);
    forall i | 0 <= i < |s|
      ensures LowerRune(u[i]) == LowerRune(s[i])
    {
    }
  }

  lemma ToLowerFolds(s: string)
    ensures EqualFold(ToLower(s), s)
  {
  }

  // ---------------------------------------------------------------------
  // Title casing.
  //
  // The helper walks the runes with a flag `makeUpper`, initially set and
  // set again after every space.  While the flag is set, a rune that opens
  // the word is upper-cased and clears the flag; while it is clear,
  // upper-case letters are lower-cased.  As written, only a LOWER-case
  // letter opens a word, so a word that already starts with a capital keeps
  // the flag set and has its next lower-case letter capitalised too
  // ("Paris" becomes "PAris").  `FirstLetter` is the rule the name promises:
  // any letter opens the word.
  // ---------------------------------------------------------------------

  datatype WordStart = FirstLowercase | FirstLetter

  predicate Opens(w: WordStart, c: char)
  {
    match w
    case FirstLowercase => IsLower(c)
    case FirstLetter => IsLetter(c)
  }

  /** The `makeUpper` flag after the runes of `p` have been processed. */
  function TitleFlag(w: WordStart, p: string): bool
    decreases |p|
  {
    if |p| == 0 then true
    else
      var c := p[|p| - 1];
      c == ' ' || (TitleFlag(w, p[..|p| - 1]) && !Opens(w, c))
  }

  /** The rune written for `c` when the flag is `makeUpper`. */
  function TitleRune(w: WordStart, makeUpper: bool, c: char): char
  {
    if makeUpper && Opens(w, c) then UpperRune(c)
    else if !makeUpper && IsUpper(c) then LowerRune(c)
    else c
  }

  /** The loop of the helper, one rune per step, over a growing prefix. */
  function TitleRunes(w: WordStart, s: string): (r: string)
    decreases |s|
    ensures |r| == |s|
  {
    if |s| == 0 then []
    else
      var p := s[..|s| - 1];
      TitleRunes(w, p) + [TitleRune(w, TitleFlag(w, p), s[|s| - 1])]
  }

  lemma TitleSnoc(w: WordStart, p: string, c: char)
    ensures TitleRunes(w, p + [c]) == TitleRunes(w, p) + [TitleRune(w, TitleFlag(w, p), c)]
    ensures TitleFlag(w, p + [c]) == (c == ' ' || (TitleFlag(w, p) && !Opens(w, c)))
  {
    assert (p + [c])[..|p|] == p;
  }

  /** Rune `i` of the output depends only on rune `i` of the input and the
      flag left by the runes before it. */
  lemma {:induction false} TitleRunesAt(w: WordStart, s: string, i: int)
    requires 0 <= i < |s|
    ensures TitleRunes(w, s)[i] == TitleRune(w, TitleFlag(w, s[..i]), s[i])
    decreases |s|
  {
    var p := s[..|s| - 1];
    assert s == p + [s[|s| - 1]];
    TitleSnoc(w, p, s[|s| - 1]);
    if i < |p| {
      TitleRunesAt(w, p, i);
      assert p[..i] == s[..i];
    }
  }

  /** The helper as the mock provider has it. */
  function ToTitle(s: string): (r: string)
    ensures |r| == |s|
  {
    if |s| == 0 then s else TitleRunes(FirstLowercase, s)
  }

  /** Title casing as evidently intended: the first letter of each word. */
  function ToTitleFixed(s: string): (r: string)
    ensures |r| == |s|
  {
    TitleRunes(FirstLetter, s)
  }

  /** A rune opening a word under rule `w` occurs in `p` after its last
      space, that is, in the word currently being read. */
  ghost predicate OpenedInWord(w: WordStart, p: string)
  {
    exists j :: 0 <= j < |p| && Opens(w, p[j]) && forall k :: j < k < |p| ==> p[k] != ' '
  }

  lemma {:induction false} TitleFlagMeaning(w: WordStart, p: string)
    ensures TitleFlag(w, p) <==> !OpenedInWord(w, p)
    decreases |p|
  {
    if |p| > 0 {
      var q := p[..|p| - 1];
      var c := p[|p| - 1];
      TitleFlagMeaning(w, q);
      if c == ' ' {
        forall j | 0 <= j < |p| && Opens(w, p[j])
          ensures !(forall k :: j < k < |p| ==> p[k] != ' ')
        {
          assert j < |p| - 1 by { assert !Opens(w, c); }
          assert p[|p| - 1] == ' ';
        }
      } else {
        if OpenedInWord(w, q) {
          var j :| 0 <= j < |q| && Opens(w, q[j]) && forall k :: j < k < |q| ==> q[k] != ' ';
          assert Opens(w, p[j]) && forall k :: j < k < |p| ==> p[k] != ' ';
        }
        if Opens(w, c) {
          assert Opens(w, p[|p| - 1]);
        }
        if OpenedInWord(w, p) {
          var j :| 0 <= j < |p| && Opens(w, p[j]) && forall k :: j < k < |p| ==> p[k] != ' ';
          if j < |q| {
            assert Opens(w, q[j]) && forall k :: j < k < |q| ==> q[k] != ' ';
          }
        }
      }
    }
  }

  /** The as-written helper, rune by rune: within each space-separated word,
      the first lower-case letter is capitalised, the upper-case letters
      after it are lower-cased, and everything else (capitals before it,
      non-letters) is kept. */
  lemma ToTitleRunes(s: string)
    ensures |ToTitle(s)| == |s|
    ensures forall i :: 0 <= i < |s| ==>
      ToTitle(s)[i] ==
        if IsLower(s[i]) && !OpenedInWord(FirstLowercase, s[..i]) then UpperRune(s[i])
        else if IsUpper(s[i]) && OpenedInWord(FirstLowercase, s[..i]) then LowerRune(s[i])
        else s[i]
  {
    forall i | 0 <= i < |s|
      ensures ToTitle(s)[i] ==
        if IsLower(s[i]) && !OpenedInWord(FirstLowercase, s[..i]) then UpperRune(s[i])
        else if IsUpper(s[i]) && OpenedInWord(FirstLowercase, s[..i]) then LowerRune(s[i])
        else s[i]
    {
      TitleRunesAt(FirstLowercase, s, i);
      TitleFlagMeaning(FirstLowercase, s[..i]);
    }
  }

  lemma ToTitleEmpty()
    ensures ToTitle("") == ""
  {
  }

  /** An all-capitals string has no lower-case letter to open a word, so
      the helper leaves it alone ("PARIS" stays "PARIS"). */
  lemma ToTitleKeepsCapitals(s: string)
    requires forall i :: 0 <= i < |s| ==> IsUpper(s[i])
    ensures ToTitle(s) == s
  {
    ToTitleRunes(s);
    forall i | 0 <= i < |s|
      ensures !OpenedInWord(FirstLowercase, s[..i])
    {
      assert forall j :: 0 <= j < i ==> !IsLower(s[..i][j]);
    }
  }

  lemma ToTitleFolds(s: string)
    ensures EqualFold(ToTitle(s), s)
  {
    var t := ToTitle(s);
    forall i | 0 <= i < |s|
      ensures LowerRune(t[i]) == LowerRune(s[i])
    {
      TitleRunesAt(FirstLowercase, s, i);
    }
  }

  /** The corrected helper, rune by rune: the first letter of each word is
      upper-cased and every later letter of the word lower-cased. */
  lemma ToTitleFixedRunes(s: string)
    ensures |ToTitleFixed(s)| == |s|
    ensures forall i :: 0 <= i < |s| ==>
      ToTitleFixed(s)[i] ==
        if OpenedInWord(FirstLetter, s[..i]) then LowerRune(s[i]) else UpperRune(s[i])
  {
    forall i | 0 <= i < |s|
      ensures ToTitleFixed(s)[i] ==
        if OpenedInWord(FirstLetter, s[..i]) then LowerRune(s[i]) else UpperRune(s[i])
    {
      TitleRunesAt(FirstLetter, s, i);
      TitleFlagMeaning(FirstLetter, s[..i]);
    }
  }

  lemma ToTitleFixedFolds(s: string)
    ensures EqualFold(ToTitleFixed(s), s)
  {
    var t := ToTitleFixed(s);
    forall i | 0 <= i < |s|
      ensures LowerRune(t[i]) == LowerRune(s[i])
    {
      TitleRunesAt(FirstLetter, s, i);
    }
  }

  /** Case changes keep letters letters and spaces spaces, so the flag left
      by a title-cased prefix is the flag left by the prefix itself. */
  lemma {:induction false} TitleFlagOfTitled(p: string)
    ensures TitleFlag(FirstLetter, TitleRunes(FirstLetter, p)) == TitleFlag(FirstLetter, p)
    decreases |p|
  {
    if |p| > 0 {
      var q := p[..|p| - 1];
      var c := p[|p| - 1];
      assert p == q + [c];
      TitleSnoc(FirstLetter, q, c);
      TitleFlagOfTitled(q);
      var x := TitleRune(FirstLetter, TitleFlag(FirstLetter, q), c);
      TitleSnoc(FirstLetter, TitleRunes(FirstLetter, q), x);
      assert x == ' ' <==> c == ' ';
      assert Opens(FirstLetter, x) <==> Opens(FirstLetter, c);
    }
  }

  /** Title-casing a title-cased string changes nothing. */
  lemma {:induction false} ToTitleFixedIdempotent(s: string)
    ensures ToTitleFixed(ToTitleFixed(s)) == ToTitleFixed(s)
    decreases |s|
  {
    if |s| > 0 {
      var q := s[..|s| - 1];
      var c := s[|s| - 1];
      assert s == q + [c];
      TitleSnoc(FirstLetter, q, c);
      var tq := TitleRunes(FirstLetter, q);
      var mk := TitleFlag(FirstLetter, q);
      var x := TitleRune(FirstLetter, mk, c);
      ToTitleFixedIdempotent(q);
      TitleFlagOfTitled(q);
      TitleSnoc(FirstLetter, tq, x);
      assert TitleRune(FirstLetter, mk, x) == x;
    }
  }

  lemma ToLowerSnoc(q: string, c: char)
    ensures ToLower(q + [c]) == ToLower(q) + [LowerRune(c)]
  {
    var s := q + [c];
    assert forall i :: 0 <= i < |q| ==> s[i] == q[i];
  }

  /** Appending a rune after a concatenation re-associates. */
  lemma AppendSnoc(p: string, q: string, c: char)
    ensures p + (q + [c]) == (p + q) + [c]
  {
  }

  lemma {:induction false} TitleFlagStaysClear(w: WordStart, p: string, s: string)
    requires !TitleFlag(w, p)
    requires forall k :: 0 <= k < |s| ==> s[k] != ' '
    ensures !TitleFlag(w, p + s)
    decreases |s|
  {
    if |s| == 0 {
      assert p + s == p;
    } else {
      var q := s[..|s| - 1];
      var c := s[|s| - 1];
      TitleFlagStaysClear(w, p, q);
      assert s == q + [c];
      AppendSnoc(p, q, c);
      TitleSnoc(w, p + q, c);
    }
  }

  /** Once a word has been opened, the rest of the word is lower-cased and
      the flag stays clear. */
  lemma {:induction false} TitleRestOfWord(w: WordStart, p: string, s: string)
    requires !TitleFlag(w, p)
    requires forall k :: 0 <= k < |s| ==> s[k] != ' '
    ensures TitleRunes(w, p + s) == TitleRunes(w, p) + ToLower(s)
    decreases |s|
  {
    if |s| == 0 {
      assert p + s == p;
    } else {
      var q := s[..|s| - 1];
      var c := s[|s| - 1];
      assert s == q + [c];
      calc {
        TitleRunes(w, p + s);
        { AppendSnoc(p, q, c); }
        TitleRunes(w, (p + q) + [c]);
        { TitleFlagStaysClear(w, p, q); TitleSnoc(w, p + q, c); }
        TitleRunes(w, p + q) + [TitleRune(w, false, c)];
        { TitleRestOfWord(w, p, q); }
        (TitleRunes(w, p) + ToLower(q)) + [LowerRune(c)];
        TitleRunes(w, p) + (ToLower(q) + [LowerRune(c)]);
        { ToLowerSnoc(q, c); }
        TitleRunes(w, p) + ToLower(s);
      }
    }
  }

  /** A lower-case city is title-cased as expected. */
  lemma ToTitleLowerCity()
    ensures ToTitle("paris") == "Paris"
  {
    TitleSnoc(FirstLowercase, [], 'p');
    assert [] + ['p'] == "p";
    TitleRestOfWord(FirstLowercase, "p", "aris");
    assert ToLower("aris") == "aris";
    assert "p" + "aris" == "paris";
  }

  /** The discrepancy: a city already in title case gets a second capital,
      so the helper as written is not idempotent. */
  lemma ToTitleDoublesCapital()
    ensures ToTitle("Paris") == "PAris"
  {
    assert TitleRunes(FirstLowercase, "P") == "P" && TitleFlag(FirstLowercase, "P") by {
      TitleSnoc(FirstLowercase, [], 'P');
      assert [] + ['P'] == "P";
    }
    assert TitleRunes(FirstLowercase, "Pa") == "PA" && !TitleFlag(FirstLowercase, "Pa") by {
      TitleSnoc(FirstLowercase, "P", 'a');
      assert "P" + ['a'] == "Pa";
    }
    assert TitleRunes(FirstLowercase, "Paris") == "PA" + ToLower("ris") by {
      TitleRestOfWord(FirstLowercase, "Pa", "ris");
      assert "Pa" + "ris" == "Paris";
    }
    assert ToLower("ris") == "ris";
  }

  /** The corrected helper leaves a title-cased city alone. */
  lemma ToTitleFixedKeepsTitle()
    ensures ToTitleFixed("Paris") == "Paris"
  {
    TitleSnoc(FirstLetter, [], 'P');
    assert [] + ['P'] == "P";
    TitleRestOfWord(FirstLetter, "P", "aris");
    assert ToLower("aris") == "aris";
    assert "P" + "aris" == "Paris";
  }

  /** The four casings a mock provider chooses from for the city it reports,
      title casing included as written. */
  function CityCasings(city: string): (cs: seq<string>)
    ensures |cs| == 4
    ensures forall i :: 0 <= i < |cs| ==> EqualFold(cs[i], city)
  {
    ToTitleFolds(city);
    ToUpperFolds(city);
    ToLowerFolds(city);
    assert EqualFold(city, city);
    [city, ToTitle(city), ToUpper(city), ToLower(city)]
  }
}
