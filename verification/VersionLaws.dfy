/** What the version order means on strings: how a version falls into segments, and which segments decide. */
module VersionLaws {
  import opened Wrappers
  import opened RpmVersion

  // ---- Matches are as long as they can be ----

  lemma {:induction false} SpanOfAll(s: string, p: char -> bool)
    requires forall i | 0 <= i < |s| :: p(s[i])
    ensures Span(s, p) == |s|
  {
    if s != "" {
      SpanOfAll(s[1..], p);
    }
  }

  /** A string of digits is one match, and so is one of letters. */
  lemma RunIsOneSegment(t: string)
    requires IsNumber(t) || IsWord(t)
    ensures Segments(t) == [t]
  {
    if IsNumber(t) {
      SpanOfAll(t[1..], IsDigit);
    } else {
      SpanOfAll(t[1..], IsLetter);
    }
    WholeMatch(t);
  }

  lemma WholeMatch(t: string)
    requires t != "" && !IsSeparator(t[0]) && FirstLength(t) == |t|
    ensures Segments(t) == [t]
  {
    SegmentsUnfold(t);
    assert t[..|t|] == t && t[|t|..] == "";
  }

  /** The characters that count: digits, letters of either case, tilde and caret. */
  lemma SingleCharacter(c: char)
    ensures Segments([c]) ==
              if '0' <= c <= '9' || 'a' <= c <= 'z' || 'A' <= c <= 'Z' || c == '~' || c == '^' then [[c]] else []
  {
    assert Segments("") == [];
    if IsNumber([c]) || IsWord([c]) {
      RunIsOneSegment([c]);
    } else if IsMark(c) {
      assert [c][..1] == [c];
    }
  }

  /** No match goes from the one to the other. */
  predicate Differ(x: char, y: char) {
    !(IsDigit(x) && IsDigit(y)) && !(IsLetter(x) && IsLetter(y))
  }

  lemma {:induction false} SpanInside(s: string, t: string, p: char -> bool)
    requires Span(s, p) < |s|
    ensures Span(s + t, p) == Span(s, p)
  {
    if p(s[0]) {
      assert (s + t)[1..] == s[1..] + t;
      SpanInside(s[1..], t, p);
    }
  }

  lemma SpanOfSum(s: string, t: string, p: char -> bool)
    requires Span(s, p) < |s| || t == "" || !p(t[0])
    ensures Span(s + t, p) == Span(s, p)
  {
    if Span(s, p) < |s| {
      SpanInside(s, t, p);
    } else {
      SpanStops(s, t, p);
    }
  }

  lemma FirstOfSum(s: string, t: string)
    requires s != "" && t != "" && Differ(s[|s| - 1], t[0])
    ensures FirstLength(s + t) == FirstLength(s) && First(s + t) == First(s)
    ensures (s + t)[FirstLength(s)..] == s[FirstLength(s)..] + t
  {
    assert (s + t)[0] == s[0] && (s + t)[1..] == s[1..] + t;
    if IsDigit(s[0]) {
      LastOfSpan(s, IsDigit);
      SpanOfSum(s[1..], t, IsDigit);
    } else if IsLetter(s[0]) {
      LastOfSpan(s, IsLetter);
      SpanOfSum(s[1..], t, IsLetter);
    }
    assert (s + t)[..FirstLength(s)] == s[..FirstLength(s)];
  }

  lemma LastOfSpan(s: string, p: char -> bool)
    requires s != "" && p(s[0])
    ensures Span(s[1..], p) == |s[1..]| ==> p(s[|s| - 1])
  {
    if |s| > 1 && Span(s[1..], p) == |s[1..]| {
      assert p(s[1..][|s| - 2]);
    }
  }

  /** Where the class of characters changes, and at every mark and separator, one match ends and the next
      begins. */
  lemma {:induction false} ClassesSplit(s: string, t: string)
    requires s != "" && t != "" ==> Differ(s[|s| - 1], t[0])
    ensures Segments(s + t) == Segments(s) + Segments(t)
    decreases |s|
  {
    if s == "" {
      assert s + t == t;
    } else if t == "" {
      assert s + t == s;
    } else {
      var rest := s[FirstLength(s)..];
      FirstOfSum(s, t);
      SegmentsUnfold(s + t);
      SegmentsUnfold(s);
      if rest != "" {
        assert rest[|rest| - 1] == s[|s| - 1];
      }
      ClassesSplit(rest, t);
      Regroup(First(s), Segments(rest), Segments(t));
    }
  }

  /** The value of a digit string is what its digits say, from left to right. */
  lemma {:induction false} ValueAppends(t: string, d: char)
    requires AllDigits(t) && IsDigit(d)
    ensures Value(t + [d]) == 10 * Value(t) + (d as int - '0' as int)
  {
    if t == "" {
      assert t + [d] == [d] && [d][1..] == "";
    } else {
      assert (t + [d])[0] == t[0] && (t + [d])[1..] == t[1..] + [d];
      ValueAppends(t[1..], d);
      TensMove(DigitValue(t[0]), |t| - 1);
    }
  }

  lemma TensMove(d: nat, n: nat)
    ensures d * Pow10(n + 1) == 10 * (d * Pow10(n))
  {
  }

  // ---- Which segment decides ----

  /** The result, where the first segments that count for different things are `x` and `y`; one version
      may have ended there. */
  predicate Decides(x: Option<string>, y: Option<string>, r: int)
    requires (x.Some? ==> IsSegment(x.value)) && (y.Some? ==> IsSegment(y.value))
  {
    && (x.Some? && y.Some? && IsNumber(x.value) && IsNumber(y.value) ==>
          r == if Value(x.value) < Value(y.value) then -1 else 1)
    && (x.Some? && IsNumber(x.value) && !(y.Some? && IsNumber(y.value)) ==> r == 1)
    && (x == Some("~") && y != Some("~") ==> r == -1)
    && (x.Some? && y.Some? && IsWord(x.value) && IsWord(y.value) ==> r == StrCmp(x.value, y.value))
    && (x == Some("^") && y.Some? && IsWord(y.value) ==> r == 1)
    && (x.Some? && x != Some("~") && y.None? ==> r == 1)
  }

  /** The segments before `i` count for the same. */
  predicate AlikeUpTo(a: string, b: string, i: nat) {
    && i <= |Segments(a)| && i <= |Segments(b)|
    && forall j | 0 <= j < i :: Syms(a)[j] == Syms(b)[j]
  }

  /** A greater number, a number before anything else, a tilde after everything, a caret before a word and
      before the end, and otherwise the longer version: the first segments that differ decide so, and
      the other way round. */
  lemma FirstDifferenceDecides(a: string, b: string, i: nat)
    requires HasSegment(a) && HasSegment(b) && AlikeUpTo(a, b, i)
    requires i < |Segments(a)| || i < |Segments(b)|
    requires i < |Segments(a)| && i < |Segments(b)| ==> Syms(a)[i] != Syms(b)[i]
    ensures (forall t | t in Segments(a) :: IsSegment(t)) && (forall t | t in Segments(b) :: IsSegment(t))
    ensures
      var x, y := At(Segments(a), Some(i)), At(Segments(b), Some(i));
      Decides(x, y, VerCmp(a, b)) && Decides(y, x, -VerCmp(a, b))
  {
    SegmentsAreSegments(a);
    SegmentsAreSegments(b);
    SymsAreProper(a);
    SymsAreProper(b);
    var xs, ys := Syms(a), Syms(b);
    assert xs[..i] == ys[..i];
    FirstDifference(xs, ys, i);
    if i < |xs| && i < |ys| && xs[i].Letters? && ys[i].Letters? {
      StrCmpOrder(xs[i].text, ys[i].text);
    }
  }

  /** Numbers are compared as numbers, whatever their length. */
  lemma NumbersCompare(s: string, t: string)
    requires IsNumber(s) && IsNumber(t)
    ensures VerCmp(s, t) == Sign(Value(s) - Value(t))
  {
    SymsOfNumber(s);
    SymsOfNumber(t);
    if Value(s) == Value(t) {
      VerCmpOrder(s, t);
    } else {
      FirstDifferenceDecides(s, t, 0);
    }
  }

  lemma SymsOfNumber(t: string)
    requires IsNumber(t)
    ensures Segments(t) == [t] && Syms(t) == [Digits(Value(t))]
  {
    RunIsOneSegment(t);
  }

  /** The strings differ first at `i`, where one of them may have ended. */
  predicate DifferFirstAt(s: string, t: string, i: nat) {
    && i <= |s| && i <= |t| && s[..i] == t[..i] && (i < |s| || i < |t|)
    && (i < |s| && i < |t| ==> s[i] != t[i])
  }

  lemma {:induction false} FirstCharDecides(s: string, t: string, i: nat)
    requires DifferFirstAt(s, t, i)
    ensures StrCmp(s, t) == if i == |s| || (i < |t| && s[i] < t[i]) then -1 else 1
  {
    if i > 0 {
      assert s[0] == s[..i][0] == t[..i][0] == t[0];
      assert s[1..][..i - 1] == s[..i][1..] && t[1..][..i - 1] == t[..i][1..];
      FirstCharDecides(s[1..], t[1..], i - 1);
    }
  }

  /** Words are compared by their first letters that differ, and a word comes before any longer one that begins
      with it. */
  lemma WordsCompare(s: string, t: string, i: nat)
    requires IsWord(s) && IsWord(t) && DifferFirstAt(s, t, i)
    ensures VerCmp(s, t) == if i == |s| || (i < |t| && s[i] < t[i]) then -1 else 1
  {
    FirstCharDecides(s, t, i);
    RunIsOneSegment(s);
    RunIsOneSegment(t);
    assert s != t;
    FirstDifferenceDecides(s, t, 0);
  }

  lemma NineBelowTen()
    ensures VerCmp("9", "10") == -1
  {
    assert Value("9") == 9;
    ValueAppends("1", '0');
    assert "1" + ['0'] == "10" && Value("1") == 1;
    NumbersCompare("9", "10");
  }

  /** Nothing of the suffix joins the last match before it. */
  predicate IsSuffix(s: string) {
    s == "" || IsMark(s[0]) || IsSeparator(s[0])
  }

  lemma SymsOfSum(a: string, s: string)
    requires IsSuffix(s)
    ensures Segments(a + s) == Segments(a) + Segments(s) && Syms(a + s) == Syms(a) + Syms(s)
  {
    ClassesSplit(a, s);
    SymsAreProper(a);
    SymsAreProper(s);
    SymsAreProper(a + s);
  }

  /** Of two versions with a common beginning, what comes after it decides. */
  lemma SuffixesDecide(a: string, s: string, t: string)
    requires HasSegment(a) && IsSuffix(s) && IsSuffix(t) && Head(Syms(s)) != Head(Syms(t))
    ensures (forall x | x in Segments(s) :: IsSegment(x)) && (forall y | y in Segments(t) :: IsSegment(y))
    ensures Decides(At(Segments(s), Some(0)), At(Segments(t), Some(0)), VerCmp(a + s, a + t))
    ensures Decides(At(Segments(t), Some(0)), At(Segments(s), Some(0)), -VerCmp(a + s, a + t))
  {
    SegmentsAreSegments(s);
    SegmentsAreSegments(t);
    SymsOfSum(a, s);
    SymsOfSum(a, t);
    SymsAreProper(s);
    SymsAreProper(t);
    var i := |Segments(a)|;
    assert AlikeUpTo(a + s, a + t, i);
    FirstDifferenceDecides(a + s, a + t, i);
    assert At(Segments(a + s), Some(i)) == At(Segments(s), Some(0));
    assert At(Segments(a + t), Some(i)) == At(Segments(t), Some(0));
  }

  lemma MarkFirst(mark: char, rest: string)
    requires IsMark(mark)
    ensures Segments([mark] + rest) == [[mark]] + Segments(rest)
    ensures Syms([mark] + rest)[0] == if mark == '~' then Tilde else Caret
  {
    SegmentsAreSegments([mark] + rest);
    assert ([mark] + rest)[..1] == [mark] && ([mark] + rest)[1..] == rest;
  }

  lemma DottedRun(t: string)
    requires IsNumber(t) || IsWord(t)
    ensures Segments("." + t) == [t] && Syms("." + t) == [Meaning(t)]
  {
    RunIsOneSegment(t);
    SeparatorFirst('.', t);
    assert ['.'] + t == "." + t;
  }

  lemma Nothing(a: string)
    ensures a + "" == a && Segments("") == [] && Syms("") == [] && IsSuffix("")
  {
  }

  /** A tilde sorts below the version without it. */
  lemma TildeBelow(a: string, rest: string)
    requires HasSegment(a)
    ensures VerCmp(a + (['~'] + rest), a) == -1
  {
    Nothing(a);
    MarkFirst('~', rest);
    SuffixesDecide(a, ['~'] + rest, "");
  }

  /** One more word sorts above the version without it, */
  lemma WordAbove(a: string, word: string)
    requires HasSegment(a) && IsWord(word)
    ensures VerCmp(a, a + ("." + word)) == -1
  {
    Nothing(a);
    DottedRun(word);
    SuffixesDecide(a, "", "." + word);
  }

  /** a caret above a word, */
  lemma CaretAboveWord(a: string, rest: string, word: string)
    requires HasSegment(a) && IsWord(word)
    ensures VerCmp(a + ("." + word), a + (['^'] + rest)) == -1
  {
    DottedRun(word);
    MarkFirst('^', rest);
    SuffixesDecide(a, "." + word, ['^'] + rest);
  }

  /** and a number above a caret. */
  lemma NumberAboveCaret(a: string, rest: string, number: string)
    requires HasSegment(a) && IsNumber(number)
    ensures VerCmp(a + (['^'] + rest), a + ("." + number)) == -1
  {
    MarkFirst('^', rest);
    DottedRun(number);
    SuffixesDecide(a, ['^'] + rest, "." + number);
  }

  // ---- EVRs ----

  /** A smaller epoch decides whatever the rest, NULL being 0; then the segments of the versions, if they
      count for different things; then those of the releases. */
  lemma EvrFieldsDecide(x: Evr, y: Evr)
    requires Comparable(x) && Comparable(y)
    ensures
      var e, f := if x.epoch.None? then 0 else x.epoch.value, if y.epoch.None? then 0 else y.epoch.value;
      && (e < f ==> EvrCmp(x, y) == -1 && EvrCmp(y, x) == 1)
      && (e == f && Syms(x.version) != Syms(y.version) ==>
            EvrCmp(x, y) == SymsCmp(Syms(x.version), Syms(y.version)) != 0)
      && (e == f && Syms(x.version) == Syms(y.version) ==>
            EvrCmp(x, y) == SymsCmp(Syms(x.release), Syms(y.release)))
  {
    VerCmpOrder(x.version, y.version);
  }

  /** Version 1 release 2 is less than version 2 release 1, and than the same with epoch 1. */
  lemma VersionBeforeRelease()
    ensures EvrCmp(Evr(None, "1", "2"), Evr(None, "2", "1")) == -1
    ensures EvrCmp(Evr(None, "2", "1"), Evr(Some(1), "1", "1")) == -1
  {
    NumbersCompare("1", "2");
    assert Value("1") == 1 && Value("2") == 2;
  }
}
