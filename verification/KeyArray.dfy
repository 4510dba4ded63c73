/** `CompressedKeyArray`: a list of ids stored as the sorted list's differences, four bytes each. Zlib
    stands outside, as the identity on payloads. */
module KeyArray {
  import opened Wrappers
  import opened Recency

  newtype byte = x: int | 0 <= x < 256

  const WORD: int := 0x1_0000_0000

  datatype Error = AssertionError | StructError

  // sorted()

  function Insert(x: int, s: seq<int>): (r: seq<int>)
    ensures multiset(r) == multiset(s) + multiset{x}
    ensures |r| == |s| + 1
    ensures forall y :: y in r <==> y == x || y in s
  {
    if s == [] || x <= s[0] then [x] + s else
      assert s == [s[0]] + s[1..];
      [s[0]] + Insert(x, s[1..])
  }

  function Sorted(s: seq<int>): (r: seq<int>)
    ensures multiset(r) == multiset(s)
    ensures |r| == |s|
    ensures forall y :: y in r <==> y in s
  {
    if s == [] then [] else
      assert s == [s[0]] + s[1..];
      Insert(s[0], Sorted(s[1..]))
  }

  predicate Ascending(s: seq<int>) {
    forall i, j | 0 <= i < j < |s| :: s[i] <= s[j]
  }

  lemma {:induction false} InsertAscending(x: int, s: seq<int>)
    requires Ascending(s)
    ensures Ascending(Insert(x, s))
  {
    if s != [] && x > s[0] {
      InsertAscending(x, s[1..]);
      var rest := Insert(x, s[1..]);
      forall j | 0 <= j < |rest| ensures s[0] <= rest[j] {
        assert rest[j] in rest;
      }
    }
  }

  lemma {:induction false} SortedAscending(s: seq<int>)
    ensures Ascending(Sorted(s))
  {
    if s != [] {
      SortedAscending(s[1..]);
      InsertAscending(s[0], Sorted(s[1..]));
    }
  }

  lemma {:induction false} SortedOfAscending(s: seq<int>)
    requires Ascending(s)
    ensures Sorted(s) == s
  {
    if s != [] {
      SortedOfAscending(s[1..]);
    }
  }

  // Differences and running sums

  function Deltas(s: seq<int>, offset: int): (r: seq<int>)
    ensures |r| == |s|
  {
    if s == [] then [] else [s[0] - offset] + Deltas(s[1..], s[0])
  }

  function Sums(d: seq<int>, offset: int): (r: seq<int>)
    ensures |r| == |d|
  {
    if d == [] then [] else [d[0] + offset] + Sums(d[1..], d[0] + offset)
  }

  lemma {:induction false} DeltasAt(s: seq<int>, offset: int, k: nat)
    requires k < |s|
    ensures Deltas(s, offset)[k] == s[k] - if k == 0 then offset else s[k - 1]
  {
    if k > 0 {
      DeltasAt(s[1..], s[0], k - 1);
    }
  }

  lemma {:induction false} SumsAt(d: seq<int>, offset: int, k: nat)
    requires k < |d|
    ensures Sums(d, offset)[k] == d[k] + if k == 0 then offset else Sums(d, offset)[k - 1]
  {
    if k > 0 {
      SumsAt(d[1..], d[0] + offset, k - 1);
    }
  }

  lemma {:induction false} SumsOfDeltas(s: seq<int>, offset: int)
    ensures Sums(Deltas(s, offset), offset) == s
  {
    if s != [] {
      SumsOfDeltas(s[1..], s[0]);
      assert Deltas(s, offset)[1..] == Deltas(s[1..], s[0]);
    }
  }

  lemma {:induction false} DeltasOfSums(d: seq<int>, offset: int)
    ensures Deltas(Sums(d, offset), offset) == d
  {
    if d != [] {
      DeltasOfSums(d[1..], d[0] + offset);
      assert Sums(d, offset)[1..] == Sums(d[1..], d[0] + offset);
    }
  }

  lemma {:induction false} SumsAscend(d: seq<int>, offset: int)
    requires forall i | 0 <= i < |d| :: d[i] >= 0
    ensures Ascending(Sums(d, offset)) && forall i | 0 <= i < |d| :: Sums(d, offset)[i] >= offset
  {
    if d != [] {
      SumsAscend(d[1..], d[0] + offset);
    }
  }

  // struct.pack(">I", …)

  function Pack(n: int): (r: seq<byte>)
    requires 0 <= n < WORD
    ensures |r| == 4
  {
    [(n / 0x100_0000) as byte, (n / 0x1_0000 % 0x100) as byte, (n / 0x100 % 0x100) as byte, (n % 0x100) as byte]
  }

  function Unpack(b: seq<byte>): (n: int)
    requires |b| == 4
    ensures 0 <= n < WORD
  {
    b[0] as int * 0x100_0000 + b[1] as int * 0x1_0000 + b[2] as int * 0x100 + b[3] as int
  }

  lemma UnpackPack(n: int)
    requires 0 <= n < WORD
    ensures Unpack(Pack(n)) == n
  {
    assert n / 0x1_0000 == n / 0x100_0000 * 0x100 + n / 0x1_0000 % 0x100;
    assert n / 0x100 == n / 0x1_0000 * 0x100 + n / 0x100 % 0x100;
  }

  predicate BytesLess(a: seq<byte>, b: seq<byte>) {
    a != [] && b != [] && (a[0] < b[0] || (a[0] == b[0] && BytesLess(a[1..], b[1..])))
  }

  /** The byte order of packed numbers is the order of the numbers, as it is for no other order of bytes. */
  lemma PackKeepsOrder(m: int, n: int)
    requires 0 <= m < n < WORD
    ensures BytesLess(Pack(m), Pack(n))
  {
    var a, b := Pack(m), Pack(n);
    UnpackPack(m);
    UnpackPack(n);
    assert a[1..][0] == a[1] && a[1..][1..][0] == a[2] && a[1..][1..][1..][0] == a[3];
    assert b[1..][0] == b[1] && b[1..][1..][0] == b[2] && b[1..][1..][1..][0] == b[3];
    if a[0] == b[0] && a[1] == b[1] && a[2] == b[2] {
      assert BytesLess(a[1..][1..][1..], b[1..][1..][1..]);
    }
    if a[0] == b[0] && a[1] == b[1] {
      assert BytesLess(a[1..][1..], b[1..][1..]);
    }
    if a[0] == b[0] {
      assert BytesLess(a[1..], b[1..]);
    }
  }

  lemma PackUnpack(b: seq<byte>)
    requires |b| == 4
    ensures Pack(Unpack(b)) == b
  {
    var n := Unpack(b);
    assert n / 0x100 == b[0] as int * 0x1_0000 + b[1] as int * 0x100 + b[2] as int;
    assert n / 0x1_0000 == b[0] as int * 0x100 + b[1] as int;
    assert n / 0x100_0000 == b[0] as int;
  }

  function Prepend<T>(front: seq<T>, r: Result<seq<T>, Error>): Result<seq<T>, Error> {
    match r
    case Success(rest) => Success(front + rest)
    case Failure(e) => Failure(e)
  }

  /** The first item that is not positive or does not fit 32 bits decides how packing fails. */
  function PackAll(items: seq<int>): Result<seq<byte>, Error> {
    if items == [] then Success([])
    else if items[0] <= 0 then Failure(AssertionError)
    else if items[0] >= WORD then Failure(StructError)
    else Prepend(Pack(items[0]), PackAll(items[1..]))
  }

  function UnpackAll(b: seq<byte>): Result<seq<int>, Error> {
    if b == [] then Success([])
    else if |b| < 4 then Failure(StructError)
    else Prepend([Unpack(b[..4])], UnpackAll(b[4..]))
  }

  function Encode(value: seq<int>): Result<seq<byte>, Error> {
    PackAll(Deltas(Sorted(value), 0))
  }

  function Decode(b: seq<byte>): Result<seq<int>, Error> {
    match UnpackAll(b)
    case Success(words) => Success(Sums(words, 0))
    case Failure(e) => Failure(e)
  }

  lemma {:induction false} PacksExactly(items: seq<int>)
    ensures PackAll(items).Success? <==> forall i | 0 <= i < |items| :: 0 < items[i] < WORD
    ensures (exists i :: 0 <= i < |items| && items[i] <= 0) && (forall i | 0 <= i < |items| :: items[i] < WORD) ==>
              PackAll(items) == Failure(AssertionError)
  {
    if items != [] {
      PacksExactly(items[1..]);
      assert forall i | 0 < i < |items| :: items[i] == items[1..][i - 1];
      assert forall i | 0 <= i < |items| - 1 :: items[1..][i] == items[i + 1];
    }
  }

  lemma {:induction false} UnpackAllPackAll(items: seq<int>)
    requires PackAll(items).Success?
    ensures UnpackAll(PackAll(items).value) == Success(items)
  {
    if items != [] {
      UnpackAllPackAll(items[1..]);
      UnpackPack(items[0]);
      var packed, rest := PackAll(items).value, PackAll(items[1..]).value;
      assert packed[..4] == Pack(items[0]) && packed[4..] == rest;
      assert [items[0]] + items[1..] == items;
    }
  }

  /** A payload unpacks if it is aligned, each word from its four bytes. */
  lemma {:induction false} UnpacksExactly(b: seq<byte>)
    ensures UnpackAll(b).Success? <==> |b| % 4 == 0
    ensures UnpackAll(b).Success? ==> forall w | w in UnpackAll(b).value :: 0 <= w < WORD
  {
    if |b| >= 4 {
      UnpacksExactly(b[4..]);
      assert |b| % 4 == |b[4..]| % 4;
    }
  }

  lemma {:induction false} PackAllUnpackAll(b: seq<byte>)
    requires UnpackAll(b).Success? && PackAll(UnpackAll(b).value).Success?
    ensures PackAll(UnpackAll(b).value) == Success(b)
  {
    if b != [] {
      var words, rest := UnpackAll(b).value, UnpackAll(b[4..]).value;
      assert words[0] == Unpack(b[..4]) && words[1..] == rest;
      PackAllUnpackAll(b[4..]);
      PackUnpack(b[..4]);
      assert b == b[..4] + b[4..];
    }
  }

  /** How far an item is from the one before it, or from 0 */
  function Gap(s: seq<int>, i: nat): int
    requires i < |s|
  {
    s[i] - if i == 0 then 0 else s[i - 1]
  }

  predicate AllPositive(s: seq<int>) {
    forall i | 0 <= i < |s| :: s[i] > 0
  }

  /** Distinct positive ids with gaps that fit 32 bits */
  predicate Encodable(value: seq<int>) {
    && IsDistinct(value) && AllPositive(value)
    && var s := Sorted(value);
       forall i | 0 <= i < |s| :: Gap(s, i) < WORD
  }

  lemma ConsDistinct(x: int, s: seq<int>)
    ensures IsDistinct([x] + s) <==> x !in s && IsDistinct(s)
  {
    var all := [x] + s;
    if IsDistinct(all) {
      assert forall i | 0 <= i < |s| :: s[i] == all[i + 1] && s[i] != all[0];
      forall i, j | 0 <= i < j < |s| ensures s[i] != s[j] {
        assert all[i + 1] != all[j + 1];
      }
    }
  }

  lemma {:induction false} InsertDistinct(x: int, s: seq<int>)
    ensures IsDistinct(Insert(x, s)) <==> IsDistinct([x] + s)
  {
    ConsDistinct(x, s);
    if s != [] && x > s[0] {
      InsertDistinct(x, s[1..]);
      ConsDistinct(x, s[1..]);
      ConsDistinct(s[0], Insert(x, s[1..]));
      ConsDistinct(s[0], s[1..]);
      assert s == [s[0]] + s[1..];
    }
  }

  lemma {:induction false} SortedDistinct(value: seq<int>)
    ensures IsDistinct(Sorted(value)) <==> IsDistinct(value)
  {
    if value != [] {
      var rest := value[1..];
      SortedDistinct(rest);
      InsertDistinct(value[0], Sorted(rest));
      ConsDistinct(value[0], Sorted(rest));
      ConsDistinct(value[0], rest);
      assert value == [value[0]] + rest;
    }
  }

  lemma PositiveGaps(s: seq<int>)
    requires Ascending(s)
    ensures (forall i | 0 <= i < |s| :: Gap(s, i) > 0) <==> IsDistinct(s) && AllPositive(s)
  {
    if IsDistinct(s) && AllPositive(s) {
      forall i | 0 <= i < |s| ensures Gap(s, i) > 0 {
        assert i > 0 ==> s[i - 1] <= s[i] && s[i - 1] != s[i];
      }
    }
    if forall i | 0 <= i < |s| :: Gap(s, i) > 0 {
      forall i, j | 0 <= i < j < |s| ensures s[i] < s[j] {
        assert s[i] <= s[j - 1] && Gap(s, j) > 0;
      }
      if s != [] {
        assert Gap(s, 0) > 0;
      }
      assert forall i | 0 < i < |s| :: s[0] <= s[i];
    }
  }

  lemma SamePositive(s: seq<int>, t: seq<int>)
    requires (forall x :: x in s ==> x in t) && AllPositive(t)
    ensures AllPositive(s)
  {
    forall i | 0 <= i < |s| ensures s[i] > 0 {
      assert s[i] in s;
    }
  }

  lemma DeltasAreGaps(s: seq<int>)
    ensures forall k | 0 <= k < |s| :: Deltas(s, 0)[k] == Gap(s, k)
  {
    forall k | 0 <= k < |s| ensures Deltas(s, 0)[k] == Gap(s, k) {
      DeltasAt(s, 0, k);
    }
  }

  /** Encoding succeeds on exactly the encodable lists. */
  lemma EncodesExactly(value: seq<int>)
    ensures Encode(value).Success? <==> Encodable(value)
  {
    var s := Sorted(value);
    SortedAscending(value);
    SortedDistinct(value);
    PositiveGaps(s);
    if AllPositive(value) {
      SamePositive(s, value);
    }
    if AllPositive(s) {
      SamePositive(value, s);
    }
    PacksExactly(Deltas(s, 0));
    DeltasAreGaps(s);
    GapsDecide(s);
  }

  lemma GapsDecide(s: seq<int>)
    requires |Deltas(s, 0)| == |s| && forall k | 0 <= k < |s| :: Deltas(s, 0)[k] == Gap(s, k)
    ensures (forall i | 0 <= i < |Deltas(s, 0)| :: 0 < Deltas(s, 0)[i] < WORD) <==>
              (forall i | 0 <= i < |s| :: Gap(s, i) > 0) && forall i | 0 <= i < |s| :: Gap(s, i) < WORD
  {
    if forall i | 0 <= i < |Deltas(s, 0)| :: 0 < Deltas(s, 0)[i] < WORD {
      forall i | 0 <= i < |s| ensures 0 < Gap(s, i) < WORD {
        assert Deltas(s, 0)[i] == Gap(s, i);
      }
    }
  }

  /** Decoding what was encoded gives the sorted list. */
  lemma DecodeEncode(value: seq<int>)
    requires Encodable(value)
    ensures Encode(value).Success? && Decode(Encode(value).value) == Success(Sorted(value))
  {
    EncodesExactly(value);
    UnpackAllPackAll(Deltas(Sorted(value), 0));
    SumsOfDeltas(Sorted(value), 0);
  }

  /** Decoding fails on exactly the unaligned payloads, and encoding what was decoded gives back the
      payload, unless a word of it is zero. */
  lemma EncodeDecode(b: seq<byte>)
    ensures Decode(b).Success? <==> |b| % 4 == 0
    ensures Decode(b).Success? ==>
              Encode(Decode(b).value) ==
              if AllPositive(UnpackAll(b).value) then Success(b)
              else Failure(AssertionError)
  {
    UnpacksExactly(b);
    if Decode(b).Success? {
      var words := UnpackAll(b).value;
      forall i | 0 <= i < |words| ensures 0 <= words[i] < WORD {
        assert words[i] in words;
      }
      SumsAscend(words, 0);
      SortedOfAscending(Sums(words, 0));
      DeltasOfSums(words, 0);
      PacksExactly(words);
      if AllPositive(words) {
        PackAllUnpackAll(b);
      }
    }
  }

  // The loops

  method ToDeltas(value: array<int>)
    modifies value
    ensures value[..] == Deltas(old(value[..]), 0)
  {
    ghost var s := value[..];
    var offset := 0;
    for i := 0 to value.Length
      invariant offset == if i == 0 then 0 else s[i - 1]
      invariant forall j | i <= j < value.Length :: value[j] == s[j]
      invariant forall j | 0 <= j < i :: value[j] == Gap(s, j)
    {
      value[i] := value[i] - offset;
      offset := offset + value[i];
    }
    DeltasAreGaps(s);
    assert value[..] == Deltas(s, 0);
  }

  method ToSums(res: array<int>)
    modifies res
    ensures res[..] == Sums(old(res[..]), 0)
  {
    ghost var d := res[..];
    var offset := 0;
    for i := 0 to res.Length
      invariant offset == if i == 0 then 0 else res[i - 1]
      invariant forall j | i <= j < res.Length :: res[j] == d[j]
      invariant forall j | 0 <= j < i :: res[j] == Sums(d, 0)[j]
    {
      SumsAt(d, 0, i);
      res[i] := res[i] + offset;
      offset := res[i];
    }
    assert res[..] == Sums(d, 0);
  }

  lemma PrependNothing<T>(r: Result<seq<T>, Error>)
    ensures Prepend([], r) == r
  {
    if r.Success? {
      assert [] + r.value == r.value;
    }
  }

  lemma PrependTwice<T>(a: seq<T>, b: seq<T>, r: Result<seq<T>, Error>)
    ensures Prepend(a + b, r) == Prepend(a, Prepend(b, r))
  {
    if r.Success? {
      assert a + b + r.value == a + (b + r.value);
    }
  }

  method PackItems(items: array<int>) returns (r: Result<seq<byte>, Error>)
    ensures r == PackAll(items[..])
  {
    var packed: seq<byte> := [];
    ghost var all := PackAll(items[..]);
    assert items[0..] == items[..];
    PrependNothing(all);
    for i := 0 to items.Length
      invariant all == Prepend(packed, PackAll(items[i..]))
    {
      var item := items[i];
      assert items[i..][0] == item && items[i..][1..] == items[i + 1..];
      if item <= 0 {
        return Failure(AssertionError);
      }
      if item >= WORD {
        return Failure(StructError);
      }
      PrependTwice(packed, Pack(item), PackAll(items[i + 1..]));
      packed := packed + Pack(item);
    }
    assert packed + [] == packed;
    return Success(packed);
  }

  method UnpackItems(payload: seq<byte>) returns (r: Result<seq<int>, Error>)
    ensures r == UnpackAll(payload)
  {
    var words: seq<int> := [];
    assert payload[0..] == payload;
    PrependNothing(UnpackAll(payload));
    var i := 0;
    while i < |payload|
      invariant i <= |payload|
      invariant UnpackAll(payload) == Prepend(words, UnpackAll(payload[i..]))
    {
      var rest := payload[i..];
      if |rest| < 4 {
        return Failure(StructError);
      }
      assert rest[4..] == payload[i + 4..];
      PrependTwice(words, [Unpack(rest[..4])], UnpackAll(rest[4..]));
      words := words + [Unpack(rest[..4])];
      i := i + 4;
    }
    assert words + [] == words;
    return Success(words);
  }

  method ProcessBindParam(value: Option<seq<int>>) returns (r: Result<Option<seq<byte>>, Error>)
    ensures value.None? ==> r == Success(None)
    ensures value.Some? ==> match Encode(value.value)
                            case Success(b) => r == Success(Some(b))
                            case Failure(e) => r == Failure(e)
  {
    if value.None? {
      return Success(None);
    }
    var s := Sorted(value.value);
    var items := new int[|s|](i requires 0 <= i < |s| => s[i]);
    assert items[..] == s;
    ToDeltas(items);
    var packed := PackItems(items);
    match packed {
      case Success(b) => return Success(Some(b));
      case Failure(e) => return Failure(e);
    }
  }

  method ProcessResultValue(value: Option<seq<byte>>) returns (r: Result<Option<seq<int>>, Error>)
    ensures value.None? ==> r == Success(None)
    ensures value.Some? ==> match Decode(value.value)
                            case Success(ids) => r == Success(Some(ids))
                            case Failure(e) => r == Failure(e)
  {
    if value.None? {
      return Success(None);
    }
    var unpacked := UnpackItems(value.value);
    if unpacked.Failure? {
      return Failure(unpacked.error);
    }
    var words := unpacked.value;
    var res := new int[|words|](j requires 0 <= j < |words| => words[j]);
    assert res[..] == words;
    ToSums(res);
    return Success(Some(res[..]));
  }
}
