/** The RPM version order of `rpmvercmp.sql`: the SQL functions as they run, and the order they compute.

    Strings are ASCII and compared byte by byte. */
module RpmVersion {
  import opened Wrappers

  // ---- Characters and segments ----

  predicate IsDigit(ch: char) { '0' <= ch <= '9' }

  predicate IsLetter(ch: char) { 'a' <= ch <= 'z' || 'A' <= ch <= 'Z' }

  predicate IsMark(ch: char) { ch == '~' || ch == '^' }

  /** The length of the longest prefix whose characters satisfy `p`. */
  function Span(s: string, p: char -> bool): (n: nat)
    ensures n <= |s|
    ensures forall i | 0 <= i < n :: p(s[i])
    ensures n < |s| ==> !p(s[n])
  {
    if s == "" || !p(s[0]) then 0 else 1 + Span(s[1..], p)
  }

  /** The matches of (\d+|[a-zA-Z]+|[~^]) in the string, from left to right. */
  function Segments(s: string): seq<string>
    decreases |s|
  {
    if s == "" then []
    else if IsDigit(s[0]) then
      var n := Span(s[1..], IsDigit) + 1;
      [s[..n]] + Segments(s[n..])
    else if IsLetter(s[0]) then
      var n := Span(s[1..], IsLetter) + 1;
      [s[..n]] + Segments(s[n..])
    else if IsMark(s[0]) then [s[..1]] + Segments(s[1..])
    else Segments(s[1..])
  }

  predicate IsNumber(t: string) { t != "" && forall i | 0 <= i < |t| :: IsDigit(t[i]) }

  predicate IsWord(t: string) { t != "" && forall i | 0 <= i < |t| :: IsLetter(t[i]) }

  predicate IsSegment(t: string) { IsNumber(t) || IsWord(t) || t == "~" || t == "^" }

  lemma {:induction false} SegmentsAreSegments(s: string)
    ensures forall i | 0 <= i < |Segments(s)| :: IsSegment(Segments(s)[i])
    decreases |s|
  {
    if s != "" {
      if IsDigit(s[0]) {
        var n := Span(s[1..], IsDigit) + 1;
        assert forall i | 1 <= i < n :: s[i] == s[1..][i - 1];
        assert IsNumber(s[..n]);
        SegmentsAreSegments(s[n..]);
      } else if IsLetter(s[0]) {
        var n := Span(s[1..], IsLetter) + 1;
        assert forall i | 1 <= i < n :: s[i] == s[1..][i - 1];
        assert IsWord(s[..n]);
        SegmentsAreSegments(s[n..]);
      } else {
        assert IsMark(s[0]) ==> s[..1] == [s[0]];
        SegmentsAreSegments(s[1..]);
      }
    }
  }

  predicate IsSeparator(ch: char) { !IsDigit(ch) && !IsLetter(ch) && !IsMark(ch) }

  function Join(ts: seq<string>): string {
    if ts == [] then "" else ts[0] + Join(ts[1..])
  }

  function WithoutSeparators(s: string): string {
    if s == "" then "" else (if IsSeparator(s[0]) then "" else [s[0]]) + WithoutSeparators(s[1..])
  }

  lemma {:induction false} WithoutSeparatorsSkips(s: string, n: nat)
    requires n <= |s| && forall i | 0 <= i < n :: !IsSeparator(s[i])
    ensures WithoutSeparators(s) == s[..n] + WithoutSeparators(s[n..])
    decreases n
  {
    if n > 0 {
      WithoutSeparatorsSkips(s[1..], n - 1);
      assert s[..n] == [s[0]] + s[1..][..n - 1] && s[1..][n - 1..] == s[n..];
    } else {
      assert s[n..] == s;
    }
  }

  lemma SegmentsFrom(s: string, n: nat)
    requires 0 < n <= |s| && forall i | 0 <= i < n :: !IsSeparator(s[i])
    requires Segments(s) == [s[..n]] + Segments(s[n..]) && Join(Segments(s[n..])) == WithoutSeparators(s[n..])
    ensures Join(Segments(s)) == WithoutSeparators(s)
  {
    WithoutSeparatorsSkips(s, n);
    assert Segments(s)[1..] == Segments(s[n..]);
  }

  /** No character but the separators is lost, and none is moved. */
  lemma {:induction false} SegmentsJoin(s: string)
    ensures Join(Segments(s)) == WithoutSeparators(s)
    decreases |s|
  {
    if s != "" {
      if IsDigit(s[0]) || IsLetter(s[0]) {
        var n := (if IsDigit(s[0]) then Span(s[1..], IsDigit) else Span(s[1..], IsLetter)) + 1;
        assert forall i | 1 <= i < n :: s[i] == s[1..][i - 1];
        SegmentsJoin(s[n..]);
        SegmentsFrom(s, n);
      } else {
        SegmentsJoin(s[1..]);
        if IsMark(s[0]) {
          SegmentsFrom(s, 1);
        }
      }
    }
  }

  lemma {:induction false} SpanStops(s: string, t: string, p: char -> bool)
    requires t == "" || !p(t[0])
    ensures Span(s + t, p) == Span(s, p)
  {
    if s == "" {
      assert s + t == t;
    } else {
      assert (s + t)[0] == s[0] && (s + t)[1..] == s[1..] + t;
      SpanStops(s[1..], t, p);
    }
  }

  /** How many characters the first match, or the first separator, takes up. */
  function FirstLength(s: string): (n: nat)
    requires s != ""
    ensures 0 < n <= |s|
  {
    if IsDigit(s[0]) then Span(s[1..], IsDigit) + 1 else if IsLetter(s[0]) then Span(s[1..], IsLetter) + 1 else 1
  }

  function First(s: string): seq<string>
    requires s != ""
  {
    if IsSeparator(s[0]) then [] else [s[..FirstLength(s)]]
  }

  lemma SegmentsUnfold(s: string)
    requires s != ""
    ensures Segments(s) == First(s) + Segments(s[FirstLength(s)..])
  {
  }

  lemma FirstStops(s: string, ch: char, t: string)
    requires s != "" && IsSeparator(ch)
    ensures FirstLength(s + [ch] + t) == FirstLength(s) && First(s + [ch] + t) == First(s)
    ensures (s + [ch] + t)[FirstLength(s)..] == s[FirstLength(s)..] + [ch] + t
  {
    assert (s + [ch] + t)[1..] == s[1..] + ([ch] + t);
    SpanStops(s[1..], [ch] + t, IsDigit);
    SpanStops(s[1..], [ch] + t, IsLetter);
    assert (s + [ch] + t)[..FirstLength(s)] == s[..FirstLength(s)];
  }

  lemma SeparatorFirst(ch: char, t: string)
    requires IsSeparator(ch)
    ensures Segments([ch] + t) == Segments(t)
  {
    assert ([ch] + t)[1..] == t;
  }

  lemma Regroup<T>(a: seq<T>, b: seq<T>, c: seq<T>)
    ensures a + (b + c) == a + b + c
  {
  }

  /** A separator ends a segment, and nothing else comes of it. */
  lemma {:induction false} SeparatorSplits(s: string, ch: char, t: string)
    requires IsSeparator(ch)
    ensures Segments(s + [ch] + t) == Segments(s) + Segments(t)
    decreases |s|
  {
    if s == "" {
      assert s + [ch] + t == [ch] + t;
      SeparatorFirst(ch, t);
    } else {
      var rest := s[FirstLength(s)..];
      FirstStops(s, ch, t);
      SegmentsUnfold(s + [ch] + t);
      SegmentsUnfold(s);
      SeparatorSplits(rest, ch, t);
      Regroup(First(s), Segments(rest), Segments(t));
    }
  }

  // ---- The order ----

  /** What a segment counts for; `End` stands where a version has no more segments. */
  datatype Sym = Tilde | End | Letters(text: string) | Caret | Digits(value: nat)

  function Rank(x: Sym): nat {
    match x
    case Tilde => 0
    case End => 1
    case Letters(_) => 2
    case Caret => 3
    case Digits(_) => 4
  }

  function Sign(n: int): (r: int)
  {
    if n < 0 then -1 else if n > 0 then 1 else 0
  }

  /** Byte order of strings. */
  function StrCmp(s: string, t: string): int {
    if s == "" && t == "" then 0
    else if s == "" then -1
    else if t == "" then 1
    else if s[0] != t[0] then (if s[0] < t[0] then -1 else 1)
    else StrCmp(s[1..], t[1..])
  }

  function SymCmp(x: Sym, y: Sym): int {
    if x.Letters? && y.Letters? then StrCmp(x.text, y.text)
    else if x.Digits? && y.Digits? then Sign(x.value - y.value)
    else Sign(Rank(x) - Rank(y))
  }

  function Head(xs: seq<Sym>): Sym {
    if xs == [] then End else xs[0]
  }

  /** Lexicographic order, each list followed by its end. */
  function SymsCmp(xs: seq<Sym>, ys: seq<Sym>): int
    decreases |xs| + |ys|
  {
    if xs == [] && ys == [] then 0
    else
      var r := SymCmp(Head(xs), Head(ys));
      if r != 0 || xs == [] || ys == [] then r else SymsCmp(xs[1..], ys[1..])
  }

  function Pow10(n: nat): nat {
    if n == 0 then 1 else 10 * Pow10(n - 1)
  }

  function DigitValue(ch: char): nat
    requires IsDigit(ch)
  {
    ch as int - '0' as int
  }

  /** The natural number a digit string denotes. */
  function Value(t: string): nat
    requires forall i | 0 <= i < |t| :: IsDigit(t[i])
  {
    if t == "" then 0 else DigitValue(t[0]) * Pow10(|t| - 1) + Value(t[1..])
  }

  function Meaning(t: string): Sym
    requires IsSegment(t)
  {
    if IsNumber(t) then Digits(Value(t))
    else if t == "~" then Tilde
    else if t == "^" then Caret
    else Letters(t)
  }

  /** The version as the order sees it. */
  function Syms(s: string): (xs: seq<Sym>)
  {
    SegmentsAreSegments(s);
    seq(|Segments(s)|, i requires 0 <= i < |Segments(s)| && IsSegment(Segments(s)[i]) => Meaning(Segments(s)[i]))
  }

  lemma {:induction false} StrCmpOrder(s: string, t: string)
    ensures StrCmp(s, t) == -StrCmp(t, s) && -1 <= StrCmp(s, t) <= 1
    ensures StrCmp(s, t) == 0 <==> s == t
  {
    if s != "" && t != "" && s[0] == t[0] {
      StrCmpOrder(s[1..], t[1..]);
      assert s == [s[0]] + s[1..] && t == [t[0]] + t[1..];
    }
  }

  lemma {:induction false} StrCmpTransitive(s: string, t: string, u: string)
    requires StrCmp(s, t) <= 0 && StrCmp(t, u) <= 0
    ensures StrCmp(s, u) <= 0
  {
    if s != "" && t != "" && u != "" && s[0] == t[0] == u[0] {
      StrCmpTransitive(s[1..], t[1..], u[1..]);
    }
  }

  lemma SymCmpOrder(x: Sym, y: Sym)
    ensures SymCmp(x, y) == -SymCmp(y, x) && -1 <= SymCmp(x, y) <= 1
    ensures SymCmp(x, y) == 0 <==> x == y
  {
    if x.Letters? && y.Letters? {
      StrCmpOrder(x.text, y.text);
    }
  }

  lemma SymCmpTransitive(x: Sym, y: Sym, z: Sym)
    requires SymCmp(x, y) <= 0 && SymCmp(y, z) <= 0
    ensures SymCmp(x, z) <= 0
  {
    if x.Letters? && y.Letters? && z.Letters? {
      StrCmpTransitive(x.text, y.text, z.text);
    }
  }

  predicate Proper(xs: seq<Sym>) {
    forall i | 0 <= i < |xs| :: xs[i] != End
  }

  lemma {:induction false} SymsCmpOrder(xs: seq<Sym>, ys: seq<Sym>)
    requires Proper(xs) && Proper(ys)
    ensures SymsCmp(xs, ys) == -SymsCmp(ys, xs) && -1 <= SymsCmp(xs, ys) <= 1
    ensures SymsCmp(xs, ys) == 0 <==> xs == ys
    decreases |xs| + |ys|
  {
    SymCmpOrder(Head(xs), Head(ys));
    if xs != [] && ys != [] && Head(xs) == Head(ys) {
      SymsCmpOrder(xs[1..], ys[1..]);
      assert xs == [xs[0]] + xs[1..] && ys == [ys[0]] + ys[1..];
    }
  }

  lemma {:induction false} SymsCmpTransitive(xs: seq<Sym>, ys: seq<Sym>, zs: seq<Sym>)
    requires Proper(xs) && Proper(ys) && Proper(zs)
    requires SymsCmp(xs, ys) <= 0 && SymsCmp(ys, zs) <= 0
    ensures SymsCmp(xs, zs) <= 0
    decreases |xs| + |ys| + |zs|
  {
    SymCmpOrder(Head(xs), Head(ys));
    SymCmpOrder(Head(ys), Head(zs));
    SymCmpOrder(Head(xs), Head(zs));
    SymCmpTransitive(Head(xs), Head(ys), Head(zs));
    if Head(xs) == Head(zs) {
      SymCmpTransitive(Head(ys), Head(zs), Head(xs));
      if xs != [] && ys != [] && zs != [] {
        SymsCmpTransitive(xs[1..], ys[1..], zs[1..]);
      }
    }
  }

  // ---- Numbers ----

  predicate AllDigits(t: string) { forall i | 0 <= i < |t| :: IsDigit(t[i]) }

  /** ltrim(t, '0') */
  function TrimZeros(t: string): string {
    if t != "" && t[0] == '0' then TrimZeros(t[1..]) else t
  }

  lemma {:induction false} TrimKeepsValue(t: string)
    requires AllDigits(t)
    ensures AllDigits(TrimZeros(t)) && Value(TrimZeros(t)) == Value(t)
    ensures TrimZeros(t) == "" || TrimZeros(t)[0] != '0'
  {
    if t != "" && t[0] == '0' {
      TrimKeepsValue(t[1..]);
    }
  }

  lemma {:induction false} ValueBelow(t: string)
    requires AllDigits(t)
    ensures Value(t) < Pow10(|t|)
  {
    if t != "" {
      ValueBelow(t[1..]);
      assert DigitValue(t[0]) * Pow10(|t| - 1) <= 9 * Pow10(|t| - 1);
    }
  }

  lemma {:induction false} Pow10Grows(m: nat, n: nat)
    requires m <= n
    ensures 1 <= Pow10(m) <= Pow10(n)
    decreases n
  {
    if m < n {
      Pow10Grows(m, n - 1);
    } else if n > 0 {
      Pow10Grows(m - 1, n - 1);
    }
  }

  lemma ValueAtLeast(t: string)
    requires AllDigits(t) && t != "" && t[0] != '0'
    ensures Pow10(|t| - 1) <= Value(t)
  {
    assert DigitValue(t[0]) >= 1;
    assert DigitValue(t[0]) * Pow10(|t| - 1) >= Pow10(|t| - 1);
  }

  /** Without leading zeros the longer number is the greater. */
  lemma LongerIsGreater(s: string, t: string)
    requires AllDigits(s) && AllDigits(t) && |t| < |s| && s[0] != '0'
    ensures Value(t) < Value(s)
  {
    ValueBelow(t);
    ValueAtLeast(s);
    Pow10Grows(|t|, |s| - 1);
  }

  lemma MoreOfThem(a: nat, b: nat, p: nat)
    requires a < b
    ensures a * p + p <= b * p
  {
    assert b * p == (a + 1) * p + (b - a - 1) * p;
  }

  lemma LessDigitLessValue(s: string, t: string)
    requires AllDigits(s) && AllDigits(t) && |s| == |t| > 0 && s[0] < t[0]
    ensures Value(s) < Value(t)
  {
    ValueBelow(s[1..]);
    MoreOfThem(DigitValue(s[0]), DigitValue(t[0]), Pow10(|s| - 1));
  }

  /** Between digit strings of one length, byte order is the order of the numbers. */
  lemma {:induction false} ByteOrderIsNumeric(s: string, t: string)
    requires AllDigits(s) && AllDigits(t) && |s| == |t|
    ensures StrCmp(s, t) == Sign(Value(s) - Value(t))
  {
    if s != "" {
      if s[0] < t[0] {
        LessDigitLessValue(s, t);
      } else if t[0] < s[0] {
        LessDigitLessValue(t, s);
      } else {
        ByteOrderIsNumeric(s[1..], t[1..]);
      }
    }
  }

  // ---- rpmvercmp ----

  /** SQL truth values and comparisons: NULL in, NULL out, and IF takes NULL for false. */
  type Tri = Option<bool>

  predicate True(x: Tri) { x == Some(true) }

  function StartsWithDigit(x: Option<string>): Tri {
    if x.None? then None else Some(x.value != "" && IsDigit(x.value[0]))
  }

  function Eq(x: Option<string>, y: Option<string>): Tri {
    if x.None? || y.None? then None else Some(x.value == y.value)
  }

  function Ne(x: Option<string>, y: Option<string>): Tri {
    if x.None? || y.None? then None else Some(x.value != y.value)
  }

  function Gt(x: Option<int>, y: Option<int>): Tri {
    if x.None? || y.None? then None else Some(x.value > y.value)
  }

  /** array_length(xs, 1), which is NULL for an empty array. */
  function ArrayLength(xs: seq<string>): Option<int> {
    if xs == [] then None else Some(|xs|)
  }

  /** xs[i + 1], counting from 1; NULL outside the array and for a NULL index. */
  function At(xs: seq<string>, i: Option<int>): Option<string> {
    if i.Some? && 0 <= i.value < |xs| then Some(xs[i.value]) else None
  }

  /** least() ignores NULLs. */
  function Least(x: Option<int>, y: Option<int>): Option<int> {
    if x.None? then y else if y.None? || x.value <= y.value then x else y
  }

  /** The result for an empty `a`: the first segment of `b` that is not a word decides. */
  function NothingVersus(bs: seq<string>): int {
    if bs == [] then 0
    else if IsWord(bs[0]) then NothingVersus(bs[1..])
    else if bs[0] == "~" then 1
    else -1
  }

  predicate SomeNumber(xs: seq<string>) {
    exists i | 0 <= i < |xs| :: IsNumber(xs[i])
  }

  /** What rpmvercmp returns. */
  function VerCmp(a: string, b: string): int {
    if Segments(a) == [] then NothingVersus(Segments(b))
    else if Segments(b) == [] then (if SomeNumber(Segments(a)) then 1 else 0)
    else SymsCmp(Syms(a), Syms(b))
  }

  lemma {:induction false} SymsCmpSkips(xs: seq<Sym>, ys: seq<Sym>, n: nat)
    requires n <= |xs| && n <= |ys| && xs[..n] == ys[..n]
    ensures SymsCmp(xs, ys) == SymsCmp(xs[n..], ys[n..])
    decreases n
  {
    if n > 0 {
      assert xs[..n][0] == xs[0] && ys[..n][0] == ys[0];
      SymCmpOrder(Head(xs), Head(ys));
      assert xs[1..][..n - 1] == xs[..n][1..] && ys[1..][..n - 1] == ys[..n][1..];
      SymsCmpSkips(xs[1..], ys[1..], n - 1);
      assert xs[1..][n - 1..] == xs[n..] && ys[1..][n - 1..] == ys[n..];
    }
  }

  /** The first segments that differ decide. */
  lemma FirstDifference(xs: seq<Sym>, ys: seq<Sym>, n: nat)
    requires n <= |xs| && n <= |ys| && xs[..n] == ys[..n]
    requires n < |xs| || n < |ys|
    requires Head(xs[n..]) != Head(ys[n..])
    ensures SymsCmp(xs, ys) == SymCmp(Head(xs[n..]), Head(ys[n..]))
  {
    SymsCmpSkips(xs, ys, n);
    SymCmpOrder(Head(xs[n..]), Head(ys[n..]));
  }

  /** What one pass of the loop returns, or None when it goes on to the next pair of segments. */
  function Verdict(x: Option<string>, y: Option<string>): Option<int>
    requires (x.Some? ==> IsSegment(x.value)) && (y.Some? ==> IsSegment(y.value))
  {
    if x.Some? && y.Some? then
      var c := SymCmp(Meaning(x.value), Meaning(y.value));
      if c == 0 then None else Some(c)
    else if x.None? && y.Some? then
      if IsWord(y.value) then None else Some(if y.value == "~" then 1 else -1)
    else if x.Some? && IsNumber(x.value) then Some(1)
    else None
  }

  lemma TrimmedOrder(s: string, t: string)
    requires IsNumber(s) && IsNumber(t)
    ensures var c := Sign(Value(s) - Value(t)); var s', t' := TrimZeros(s), TrimZeros(t);
      && (|s'| > |t'| ==> c == 1) && (|s'| < |t'| ==> c == -1)
      && (|s'| == |t'| ==> c == StrCmp(s', t'))
  {
    TrimKeepsValue(s);
    TrimKeepsValue(t);
    var s', t' := TrimZeros(s), TrimZeros(t);
    if |s'| > |t'| {
      LongerIsGreater(s', t');
    } else if |s'| < |t'| {
      LongerIsGreater(t', s');
    } else {
      ByteOrderIsNumeric(s', t');
    }
  }

  /** The body of the loop. */
  method CompareSegments(aSegment: Option<string>, bSegment: Option<string>) returns (r: Option<int>)
    requires (aSegment.Some? ==> IsSegment(aSegment.value)) && (bSegment.Some? ==> IsSegment(bSegment.value))
    ensures r == Verdict(aSegment, bSegment)
  {
    var aSeg, bSeg := aSegment, bSegment;
    if True(StartsWithDigit(aSeg)) {
      if True(StartsWithDigit(bSeg)) {
        TrimmedOrder(aSeg.value, bSeg.value);
        aSeg, bSeg := Some(TrimZeros(aSeg.value)), Some(TrimZeros(bSeg.value));
        if |aSeg.value| > |bSeg.value| {
          return Some(1);
        } else if |aSeg.value| < |bSeg.value| {
          return Some(-1);
        }
      } else {
        return Some(1);
      }
    } else if True(StartsWithDigit(bSeg)) {
      return Some(-1);
    } else if True(Eq(aSeg, Some("~"))) {
      if True(Ne(bSeg, Some("~"))) {
        return Some(-1);
      }
    } else if True(Eq(bSeg, Some("~"))) {
      return Some(1);
    } else if True(Eq(aSeg, Some("^"))) {
      if True(Ne(bSeg, Some("^"))) {
        return Some(1);
      }
    } else if True(Eq(bSeg, Some("^"))) {
      return Some(-1);
    }
    if aSeg.Some? && bSeg.Some? {
      StrCmpOrder(aSeg.value, bSeg.value);
    }
    if True(Ne(aSeg, bSeg)) {
      return Some(if StrCmp(aSeg.value, bSeg.value) < 0 then -1 else 1);
    }
    return None;
  }

  /** What the loop has established when it has passed the first `i` pairs of segments. */
  ghost predicate Passed(a: string, b: string, i: nat) {
    var xs, ys := Segments(a), Segments(b);
    if xs == [] then NothingVersus(ys) == NothingVersus(ys[if i < |ys| then i else |ys|..])
    else if ys == [] then forall j | 0 <= j < i && j < |xs| :: !IsNumber(xs[j])
    else forall j | 0 <= j < i && j < |xs| && j < |ys| :: Syms(a)[j] == Syms(b)[j]
  }

  lemma SymsAreProper(s: string)
    ensures Proper(Syms(s)) && |Syms(s)| == |Segments(s)|
  {
    SegmentsAreSegments(s);
  }

  /** A pass that returns, returns what the order says. */
  lemma PassDecides(a: string, b: string, i: nat)
    requires (Segments(a) == [] && i <= |Segments(b)|) || (Segments(b) == [] && i <= |Segments(a)|)
      || (i <= |Segments(a)| && i <= |Segments(b)|)
    requires Passed(a, b, i)
    ensures (forall t | t in Segments(a) :: IsSegment(t)) && (forall t | t in Segments(b) :: IsSegment(t))
    ensures var v := Verdict(At(Segments(a), Some(i)), At(Segments(b), Some(i)));
      if v.Some? then v.value == VerCmp(a, b) else Passed(a, b, i + 1)
  {
    SegmentsAreSegments(a);
    SegmentsAreSegments(b);
    var xs, ys := Segments(a), Segments(b);
    var x, y := At(xs, Some(i)), At(ys, Some(i));
    var v := Verdict(x, y);
    if xs == [] {
      if i < |ys| {
        assert ys[i..][0] == ys[i] && ys[i..][1..] == ys[i + 1..];
      }
    } else if ys == [] {
      if v.Some? {
        assert IsNumber(xs[i]);
      }
    } else {
      PassDecidesBoth(a, b, i);
    }
  }

  lemma PassDecidesBoth(a: string, b: string, i: nat)
    requires Segments(a) != [] && Segments(b) != [] && i <= |Segments(a)| && i <= |Segments(b)|
    requires Passed(a, b, i)
    requires (forall t | t in Segments(a) :: IsSegment(t)) && (forall t | t in Segments(b) :: IsSegment(t))
    ensures var v := Verdict(At(Segments(a), Some(i)), At(Segments(b), Some(i)));
      if v.Some? then v.value == VerCmp(a, b) else Passed(a, b, i + 1)
  {
    var xs, ys := Syms(a), Syms(b);
    assert xs[..i] == ys[..i];
    if i < |xs| && i < |ys| {
      SymCmpOrder(xs[i], ys[i]);
      if xs[i] != ys[i] {
        FirstDifference(xs, ys, i);
      }
    } else if i < |xs| || i < |ys| {
      SymsAreProper(a);
      SymsAreProper(b);
      FirstDifference(xs, ys, i);
    }
  }

  method RpmVerCmp(a: string, b: string) returns (r: int)
    ensures r == VerCmp(a, b)
  {
    if a == b {
      VerCmpReflexive(a);
      return 0;
    }
    var aSegments, bSegments := Segments(a), Segments(b);
    var aLen, bLen := ArrayLength(aSegments), ArrayLength(bSegments);
    var least := Least(aLen, bLen);
    var last := if least.Some? then least.value + 1 else 0;
    for i := 0 to last
      invariant Passed(a, b, i)
    {
      PassDecides(a, b, i);
      var decided := CompareSegments(At(aSegments, Some(i)), At(bSegments, Some(i)));
      if decided.Some? {
        return decided.value;
      }
    }
    LoopEnds(a, b);
    if True(Eq(At(bSegments, aLen), Some("~"))) { return 1; }
    if True(Eq(At(aSegments, bLen), Some("~"))) { return -1; }
    if True(Eq(At(bSegments, aLen), Some("^"))) { return -1; }
    if True(Eq(At(aSegments, bLen), Some("^"))) { return 1; }
    if True(Gt(aLen, bLen)) { return 1; }
    if True(Gt(bLen, aLen)) { return -1; }
    return 0;
  }

  lemma VerCmpReflexive(a: string)
    ensures VerCmp(a, a) == 0
  {
    SymsAreProper(a);
    SymsCmpOrder(Syms(a), Syms(a));
  }

  /** After the loop only the lengths are left to decide, and a mark right after the shorter list. */
  lemma LoopEnds(a: string, b: string)
    requires var xs, ys := Segments(a), Segments(b);
      Passed(a, b, if xs == [] && ys == [] then 0 else if xs == [] then |ys| + 1 else if ys == [] then |xs| + 1
                   else if |xs| <= |ys| then |xs| + 1 else |ys| + 1)
    ensures var xs, ys := Segments(a), Segments(b);
      if xs == [] || ys == [] then VerCmp(a, b) == 0
      else if |xs| < |ys| then VerCmp(a, b) == (if ys[|xs|] == "~" then 1 else -1)
      else if |ys| < |xs| then VerCmp(a, b) == (if xs[|ys|] == "~" then -1 else 1)
      else VerCmp(a, b) == 0
  {
    SymsAreProper(a);
    SymsAreProper(b);
    SegmentsAreSegments(a);
    SegmentsAreSegments(b);
    var xs, ys := Syms(a), Syms(b);
    if xs != [] && ys != [] {
      var n := if |xs| <= |ys| then |xs| else |ys|;
      assert xs[..n] == ys[..n];
      if |xs| != |ys| {
        FirstDifference(xs, ys, n);
      } else {
        SymsCmpSkips(xs, ys, n);
      }
    }
  }

  // ---- The order on versions ----

  predicate HasSegment(s: string) { Segments(s) != [] }

  /** Versions with a segment are totally preordered; two are equal exactly when their segments mean
      the same. */
  lemma VerCmpOrder(a: string, b: string)
    requires HasSegment(a) && HasSegment(b)
    ensures VerCmp(a, b) == -VerCmp(b, a) && -1 <= VerCmp(a, b) <= 1
    ensures VerCmp(a, b) == 0 <==> Syms(a) == Syms(b)
  {
    SymsAreProper(a);
    SymsAreProper(b);
    SymsCmpOrder(Syms(a), Syms(b));
  }

  lemma VerCmpTransitive(a: string, b: string, c: string)
    requires HasSegment(a) && HasSegment(b) && HasSegment(c)
    requires VerCmp(a, b) <= 0 && VerCmp(b, c) <= 0
    ensures VerCmp(a, c) <= 0
  {
    SymsAreProper(a);
    SymsAreProper(b);
    SymsAreProper(c);
    SymsCmpTransitive(Syms(a), Syms(b), Syms(c));
  }

  function AfterWords(xs: seq<string>): seq<string> {
    if xs != [] && IsWord(xs[0]) then AfterWords(xs[1..]) else xs
  }

  /** One string has no segment and the other one's first segments mislead the comparison. */
  predicate Misjudged(a: string, b: string) {
    var xs, ys := Segments(a), Segments(b);
    if xs == [] then
      ys != [] && IsWord(ys[0]) && (AfterWords(ys) == [] || AfterWords(ys)[0] == "~")
    else
      ys == [] && (xs[0] == "~" || !SomeNumber(xs))
  }

  lemma {:induction false} NothingVersusWords(ys: seq<string>)
    requires forall t | t in ys :: IsSegment(t)
    ensures NothingVersus(ys) == (if AfterWords(ys) == [] then 0 else if AfterWords(ys)[0] == "~" then 1 else -1)
  {
    if ys != [] {
      NothingVersusWords(ys[1..]);
    }
  }

  /** rpmvercmp follows the order of segment lists on every pair of strings but these. */
  lemma AgreesExactly(a: string, b: string)
    ensures VerCmp(a, b) == SymsCmp(Syms(a), Syms(b)) <==> !Misjudged(a, b)
  {
    SegmentsAreSegments(a);
    SegmentsAreSegments(b);
    SymsAreProper(a);
    SymsAreProper(b);
    NothingVersusWords(Segments(b));
    if Segments(b) == [] && Segments(a) != [] {
      assert Head(Syms(a)) == Meaning(Segments(a)[0]);
    }
  }

  /** A separator on its own equals two versions that differ, and one that it both exceeds and is
      exceeded by. */
  lemma NoSegmentNoOrder()
    ensures VerCmp("a", "+") == 0 && VerCmp("+", "b") == 0 && VerCmp("a", "b") == -1
    ensures VerCmp("+", "~1") == 1 && VerCmp("~1", "+") == 1
  {
    var a, b := "a", "b";
    assert Segments("+") == [] by { assert "+"[1..] == ""; }
    assert Segments(a) == ["a"] by { assert a[1..] == "" && a[..1] == "a"; }
    assert Segments(b) == ["b"] by { assert b[1..] == "" && b[..1] == "b"; }
    var t := "~1";
    assert Segments(t) == ["~", "1"] by {
      assert t[1..] == "1" && t[..1] == "~";
      assert "1"[1..] == "" && "1"[..1] == "1";
      assert Segments("1") == ["1"];
    }
    assert IsNumber(Segments(t)[1]);
    assert StrCmp(a, b) == -1;
    assert Syms(a) == [Letters("a")] && Syms(b) == [Letters("b")];
  }

  // ---- rpmvercmp_evr ----

  datatype Evr = Evr(epoch: Option<int>, version: string, release: string)

  function Epoch(e: Evr): int {
    if e.epoch.Some? then e.epoch.value else 0
  }

  /** What rpmvercmp_evr returns. */
  function EvrCmp(x: Evr, y: Evr): int {
    if Epoch(x) != Epoch(y) then Sign(Epoch(x) - Epoch(y))
    else if VerCmp(x.version, y.version) != 0 then VerCmp(x.version, y.version)
    else VerCmp(x.release, y.release)
  }

  /** The epochs decide if they differ, NULL being 0; then the versions if the comparison tells them apart;
      then the releases. */
  predicate FieldsDecide(epoch1: Option<int>, version1: string, release1: string,
                         epoch2: Option<int>, version2: string, release2: string, r: int) {
    var e1, e2 := if epoch1 == None then 0 else epoch1.value, if epoch2 == None then 0 else epoch2.value;
    && (e1 < e2 ==> r == -1) && (e1 > e2 ==> r == 1)
    && (e1 == e2 && VerCmp(version1, version2) != 0 ==> r == VerCmp(version1, version2))
    && (e1 == e2 && VerCmp(version1, version2) == 0 ==> r == VerCmp(release1, release2))
  }

  method RpmVerCmpEvr(epoch1: Option<int>, version1: string, release1: string,
                      epoch2: Option<int>, version2: string, release2: string) returns (r: int)
    ensures r == EvrCmp(Evr(epoch1, version1, release1), Evr(epoch2, version2, release2))
    ensures FieldsDecide(epoch1, version1, release1, epoch2, version2, release2, r)
  {
    var e1 := if epoch1.Some? then epoch1.value else 0;
    var e2 := if epoch2.Some? then epoch2.value else 0;
    if e1 < e2 { return -1; }
    if e1 > e2 { return 1; }
    var vercmpResult := RpmVerCmp(version1, version2);
    if vercmpResult != 0 { return vercmpResult; }
    r := RpmVerCmp(release1, release2);
  }

  predicate Comparable(e: Evr) {
    HasSegment(e.version) && HasSegment(e.release)
  }

  /** Two EVRs that the order does not tell apart. */
  predicate Alike(x: Evr, y: Evr) {
    Epoch(x) == Epoch(y) && Syms(x.version) == Syms(y.version) && Syms(x.release) == Syms(y.release)
  }

  /** Epoch, version and release order EVRs totally, epoch first; a missing epoch is 0. */
  lemma EvrCmpOrder(x: Evr, y: Evr)
    requires Comparable(x) && Comparable(y)
    ensures EvrCmp(x, y) == -EvrCmp(y, x) && -1 <= EvrCmp(x, y) <= 1
    ensures EvrCmp(x, y) == 0 <==> Alike(x, y)
  {
    VerCmpOrder(x.version, y.version);
    VerCmpOrder(x.release, y.release);
  }

  lemma EvrCmpTransitive(x: Evr, y: Evr, z: Evr)
    requires Comparable(x) && Comparable(y) && Comparable(z)
    requires EvrCmp(x, y) <= 0 && EvrCmp(y, z) <= 0
    ensures EvrCmp(x, z) <= 0
  {
    if Epoch(x) == Epoch(y) == Epoch(z) {
      VerCmpOrder(x.version, y.version);
      VerCmpOrder(y.version, z.version);
      VerCmpOrder(x.version, z.version);
      VerCmpTransitive(x.version, y.version, z.version);
      if VerCmp(x.version, z.version) == 0 {
        VerCmpTransitive(y.version, z.version, x.version);
        VerCmpTransitive(x.release, y.release, z.release);
      }
    }
  }
}
