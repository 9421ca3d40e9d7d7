/**
 ULIDs (libs/go/src/domain/ulid.go).  Bytes and five-bit groups are integers: a right shift is a division, a
 mask is a remainder, and joining disjoint bit fields is a sum.
 */
module Ulid {
  import opened Positional

  type Byte = x: int | 0 <= x < 256
  type Digit = x: int | 0 <= x < 32
  type Rand = r: seq<Byte> | |r| == 10 witness seq(10, _ => 0)

  const TIME_LIMIT: nat := 0x4_0000_0000_0000  // 2^50: ten groups of five bits
  const RAND_LIMIT: nat := 0x1_0000_0000_0000_0000_0000  // 2^80

  // ---------- the alphabet and its decode table ----------

  const ALPHABET: string := "0123456789ABCDEFGHJKMNPQRSTVWXYZ"

  /** The character code of a digit: Crockford's alphabet has no I, L, O or U. */
  function Code(d: Digit): int {
    if d < 10 then '0' as int + d
    else if d < 18 then 'A' as int + d - 10
    else if d < 20 then 'J' as int + d - 18
    else if d < 22 then 'M' as int + d - 20
    else if d < 27 then 'P' as int + d - 22
    else 'V' as int + d - 27
  }

  /** `Code` spells the alphabet. */
  lemma CodeSpellsAlphabet(d: Digit)
    ensures |ALPHABET| == 32 && ALPHABET[d] as int == Code(d)
  {
    if d < 8 { First(d); } else if d < 16 { Second(d); } else if d < 24 { Third(d); } else { Fourth(d); }
  }

  lemma First(d: Digit)
    requires d < 8
    ensures ALPHABET[d] as int == Code(d)
  {
    assert d == 0 || d == 1 || d == 2 || d == 3 || d == 4 || d == 5 || d == 6 || d == 7;
  }

  lemma Second(d: Digit)
    requires 8 <= d < 16
    ensures ALPHABET[d] as int == Code(d)
  {
    assert d == 8 || d == 9 || d == 10 || d == 11 || d == 12 || d == 13 || d == 14 || d == 15;
  }

  lemma Third(d: Digit)
    requires 16 <= d < 24
    ensures ALPHABET[d] as int == Code(d)
  {
    assert d == 16 || d == 17 || d == 18 || d == 19 || d == 20 || d == 21 || d == 22 || d == 23;
  }

  lemma Fourth(d: Digit)
    requires 24 <= d < 32
    ensures ALPHABET[d] as int == Code(d)
  {
    assert d == 24 || d == 25 || d == 26 || d == 27 || d == 28 || d == 29 || d == 30 || d == 31;
  }

  /** The decode table after the first `n` turns of the loop in `init`, read at code `c`; 255 means invalid. */
  function Table(n: nat, c: int): (v: int)
    requires n <= 32
    ensures v == 255 || 0 <= v < n
  {
    if n == 0 then 255
    else if c == Code(n - 1) + 32 || c == Code(n - 1) then n - 1
    else Table(n - 1, c)
  }

  function Decode(c: int): int {
    Table(32, c)
  }

  lemma {:induction false} TableFinds(n: nat, d: Digit)
    requires d < n <= 32
    ensures Table(n, Code(d)) == d
  {
    if n - 1 != d { TableFinds(n - 1, d); }
  }

  /** Decoding undoes encoding, although a digit's code plus 32 lands on letters that the loop overwrites. */
  lemma DecodeInverts(d: Digit)
    ensures Decode(Code(d)) == d
  {
    TableFinds(32, d);
  }

  lemma {:induction false} TableKnows(n: nat, c: int)
    requires n <= 32
    ensures Table(n, c) != 255 <==> exists d: Digit :: d < n && (c == Code(d) || c == Code(d) + 32)
  {
    if n > 0 {
      TableKnows(n - 1, c);
      if c == Code(n - 1) + 32 || c == Code(n - 1) { assert 0 <= n - 1 < 32; }
    }
  }

  /** Among upper-case letters exactly I, L and O are rejected: U is accepted, and decodes to 5. */
  lemma LettersAccepted(c: int)
    requires 'A' as int <= c <= 'Z' as int
    ensures Decode(c) == 255 <==> c == 'I' as int || c == 'L' as int || c == 'O' as int
    ensures Decode('U' as int) == 5
  {
    TableKnows(32, c);
    assert 'U' as int == Code(5) + 32;
    TableOfU(32);
    if c != 'I' as int && c != 'L' as int && c != 'O' as int {
      if c == 'U' as int {
      } else {
        var d := DigitOf(c);
      }
    }
  }

  lemma DigitOf(c: int) returns (d: Digit)
    requires 'A' as int <= c <= 'Z' as int && c !in {'I' as int, 'L' as int, 'O' as int, 'U' as int}
    ensures Code(d) == c
  {
    var k := c - 'A' as int;
    d := if k < 8 then k + 10 else if k < 11 then k + 9 else if k < 14 then k + 8
         else if k < 20 then k + 7 else k + 6;
  }

  lemma {:induction false} TableOfU(n: nat)
    requires 6 <= n <= 32
    ensures Table(n, 'U' as int) == 5
  {
    if n > 6 { TableOfU(n - 1); }
  }

  /** The two loops of `init`. */
  method InitTable() returns (table: array<int>)
    ensures fresh(table) && table.Length == 256
    ensures forall c :: 0 <= c < 256 ==> table[c] == Decode(c)
  {
    table := new int[256](_ => 255);
    for i := 0 to 32
      invariant forall c :: 0 <= c < 256 ==> table[c] == Table(i, c)
    {
      CodeSpellsAlphabet(i);
      var c := ALPHABET[i] as int;
      table[c] := i;
      table[c + 32] := i;
    }
  }

  // ---------- encoding ----------

  function TimeDigits(ms: nat): (d: seq<Digit>)
    ensures |d| == 10
  {
    [(ms / 0x2000_0000_0000) % 32, (ms / 0x100_0000_0000) % 32, (ms / 0x8_0000_0000) % 32,
     (ms / 0x4000_0000) % 32, (ms / 0x200_0000) % 32, (ms / 0x10_0000) % 32, (ms / 0x8000) % 32,
     (ms / 0x400) % 32, (ms / 0x20) % 32, ms % 32]
  }

  /** Five bytes regrouped as eight digits. */
  function FiveBytes(r: seq<Byte>): (d: seq<Digit>)
    requires |r| == 5
    ensures |d| == 8
  {
    [r[0] / 8, (r[0] % 8) * 4 + r[1] / 64, (r[1] / 2) % 32, (r[1] % 2) * 16 + r[2] / 16,
     (r[2] % 16) * 2 + r[3] / 128, (r[3] / 4) % 32, (r[3] % 4) * 8 + r[4] / 32, r[4] % 32]
  }

  function RandDigits(r: Rand): (d: seq<Digit>)
    ensures |d| == 16
  {
    FiveBytes(r[..5]) + FiveBytes(r[5..])
  }

  function Text(d: seq<Digit>): (s: seq<int>)
    ensures |s| == |d|
    ensures forall i :: 0 <= i < |d| ==> s[i] == Code(d[i])
  {
    if d == [] then [] else [Code(d[0])] + Text(d[1..])
  }

  /** `encodeULID`, as a sequence of character codes. */
  function Encode(ms: nat, r: Rand): (s: seq<int>)
    ensures |s| == 26
  {
    Text(TimeDigits(ms) + RandDigits(r))
  }

  /** `strings.Compare` on bytes. */
  function Compare(s: seq<int>, t: seq<int>): int {
    if s == [] && t == [] then 0
    else if s == [] then -1
    else if t == [] then 1
    else if s[0] < t[0] then -1
    else if s[0] > t[0] then 1
    else Compare(s[1..], t[1..])
  }

  lemma CodeIncreasing(a: Digit, b: Digit)
    ensures a < b <==> Code(a) < Code(b)
  { }

  /** Comparing the strings is comparing the digits. */
  lemma {:induction false} CompareIsLess(a: seq<Digit>, b: seq<Digit>)
    requires |a| == |b|
    ensures Compare(Text(a), Text(b)) == -1 <==> Less(a, b)
  {
    if a != [] {
      CodeIncreasing(a[0], b[0]);
      CodeIncreasing(b[0], a[0]);
      CompareIsLess(a[1..], b[1..]);
      assert Text(a)[1..] == Text(a[1..]) && Text(b)[1..] == Text(b[1..]);
    }
  }

  /** Comparison is an order: zero exactly for equal strings, and reversed when the strings are. */
  lemma {:induction false} CompareIsOrder(s: seq<int>, t: seq<int>)
    ensures -1 <= Compare(s, t) <= 1 && (Compare(s, t) == 0 <==> s == t) && Compare(t, s) == -Compare(s, t)
    decreases |s|
  {
    if s != [] && t != [] {
      CompareIsOrder(s[1..], t[1..]);
      assert s == [s[0]] + s[1..] && t == [t[0]] + t[1..];
    }
  }

  // ---------- the number a ULID spells ----------

  lemma Powers()
    ensures Pow(32, 1) == 32 && Pow(32, 2) == 0x400 && Pow(32, 3) == 0x8000 && Pow(32, 4) == 0x10_0000
    ensures Pow(32, 5) == 0x200_0000 && Pow(32, 6) == 0x4000_0000 && Pow(32, 7) == 0x8_0000_0000
    ensures Pow(32, 8) == 0x100_0000_0000
    ensures Pow(256, 1) == 0x100 && Pow(256, 2) == 0x1_0000 && Pow(256, 3) == 0x100_0000
    ensures Pow(256, 4) == 0x1_0000_0000 && Pow(256, 5) == 0x100_0000_0000
  {
    assert Pow(32, 1) == 32 && Pow(32, 2) == 0x400 && Pow(32, 3) == 0x8000;
    assert Pow(32, 4) == 0x10_0000 && Pow(32, 5) == 0x200_0000 && Pow(32, 6) == 0x4000_0000;
    assert Pow(256, 1) == 0x100 && Pow(256, 2) == 0x1_0000 && Pow(256, 3) == 0x100_0000;
  }

  lemma Unfold(base: nat, d: seq<int>, k: nat)
    requires k < |d|
    ensures Value(base, d[k..]) == d[k] * Pow(base, |d| - 1 - k) + Value(base, d[k + 1..])
  {
    assert d[k..][1..] == d[k + 1..];
  }

  lemma FiveByteValue(r: seq<int>)
    requires |r| == 5
    ensures Value(256, r) == r[0] * 0x1_0000_0000 + r[1] * 0x100_0000 + r[2] * 0x1_0000 + r[3] * 0x100 + r[4]
  {
    Powers();
    assert r[0..] == r;
    Unfold(256, r, 0);
    Unfold(256, r, 1);
    Unfold(256, r, 2);
    Unfold(256, r, 3);
    Unfold(256, r, 4);
  }

  lemma EightDigitValue(d: seq<int>)
    requires |d| == 8
    ensures Value(32, d) == d[0] * 0x8_0000_0000 + d[1] * 0x4000_0000 + d[2] * 0x200_0000 + d[3] * 0x10_0000
                            + d[4] * 0x8000 + d[5] * 0x400 + d[6] * 32 + d[7]
  {
    Powers();
    assert d[0..] == d;
    Unfold(32, d, 0);
    Unfold(32, d, 1);
    Unfold(32, d, 2);
    Unfold(32, d, 3);
    Unfold(32, d, 4);
    Unfold(32, d, 5);
    Unfold(32, d, 6);
    Unfold(32, d, 7);
  }

  lemma OneThreeFour(b: Byte)
    ensures b == b / 64 * 64 + (b / 2) % 32 * 2 + b % 2
  { }

  lemma SixTwo(b: Byte)
    ensures b == b / 128 * 128 + (b / 4) % 32 * 4 + b % 4
  { }

  /** Regrouping five bytes into eight digits keeps the number. */
  lemma FiveBytesValue(r: seq<Byte>)
    requires |r| == 5
    ensures Value(32, FiveBytes(r)) == Value(256, r)
  {
    FiveByteValue(r);
    EightDigitValue(FiveBytes(r));
    OneThreeFour(r[1]);
    SixTwo(r[3]);
  }

  lemma RandDigitsValue(r: Rand)
    ensures Value(32, RandDigits(r)) == Value(256, r)
  {
    FiveBytesValue(r[..5]);
    FiveBytesValue(r[5..]);
    ValueConcat(32, FiveBytes(r[..5]), FiveBytes(r[5..]));
    ValueConcat(256, r[..5], r[5..]);
    assert r[..5] + r[5..] == r;
    Powers();
  }

  /** Dropping five more bits. */
  lemma Shift(ms: nat)
    ensures ms / 0x400 == ms / 0x20 / 32 && ms / 0x8000 == ms / 0x400 / 32 && ms / 0x10_0000 == ms / 0x8000 / 32
    ensures ms / 0x200_0000 == ms / 0x10_0000 / 32 && ms / 0x4000_0000 == ms / 0x200_0000 / 32
    ensures ms / 0x8_0000_0000 == ms / 0x4000_0000 / 32 && ms / 0x100_0000_0000 == ms / 0x8_0000_0000 / 32
    ensures ms / 0x2000_0000_0000 == ms / 0x100_0000_0000 / 32 && ms / TIME_LIMIT == ms / 0x2000_0000_0000 / 32
  { }

  lemma TenDigitValue(d: seq<int>)
    requires |d| == 10
    ensures Value(32, d) == d[0] * 0x2000_0000_0000 + d[1] * 0x100_0000_0000 + d[2] * 0x8_0000_0000
                            + d[3] * 0x4000_0000 + d[4] * 0x200_0000 + d[5] * 0x10_0000 + d[6] * 0x8000
                            + d[7] * 0x400 + d[8] * 32 + d[9]
  {
    Powers();
    assert Pow(32, 9) == 0x2000_0000_0000;
    assert d[0..] == d;
    Unfold(32, d, 0);
    Unfold(32, d, 1);
    EightDigitValue(d[2..]);
  }

  /** The ten time digits spell the low fifty bits of the timestamp. */
  lemma TimeDigitsValue(ms: nat)
    ensures Value(32, TimeDigits(ms)) == ms % TIME_LIMIT
  {
    TenDigitValue(TimeDigits(ms));
    Shift(ms);
  }

  /** The number a ULID spells: the timestamp's low fifty bits, then the eighty random bits. */
  function Key(ms: nat, r: Rand): int
  {
    (ms % TIME_LIMIT) * RAND_LIMIT + Value(256, r)
  }

  lemma EncodeSpellsKey(ms: nat, r: Rand)
    ensures Value(32, TimeDigits(ms) + RandDigits(r)) == Key(ms, r)
  {
    ValueConcat(32, TimeDigits(ms), RandDigits(r));
    TimeDigitsValue(ms);
    RandDigitsValue(r);
    Powers();
    PowAdds(32, 8, 8);
  }

  /** The byte order of two encoded ULIDs is the order of their numbers. */
  lemma {:induction false} CompareIsNumeric(ms: nat, r: Rand, ms': nat, r': Rand)
    ensures var k, k' := Key(ms, r), Key(ms', r');
            Compare(Encode(ms, r), Encode(ms', r')) == if k < k' then -1 else if k == k' then 0 else 1
  {
    CompareIsOrder(Encode(ms, r), Encode(ms', r'));
    EncodedLess(ms, r, ms', r');
    EncodedLess(ms', r', ms, r);
  }

  lemma {:induction false} EncodedLess(ms: nat, r: Rand, ms': nat, r': Rand)
    ensures Compare(Encode(ms, r), Encode(ms', r')) == -1 <==> Key(ms, r) < Key(ms', r')
  {
    var a, b := TimeDigits(ms) + RandDigits(r), TimeDigits(ms') + RandDigits(r');
    CompareIsLess(a, b);
    LessIffValue(32, a, b);
    EncodeSpellsKey(ms, r);
    EncodeSpellsKey(ms', r');
  }

  // ---------- parsing ----------

  datatype ParseResult = Parsed(value: seq<int>, time: nat) | WrongLength(n: nat) | WrongCharacter(c: int)

  predicate IsSpace(c: int) {
    c == 32 || 9 <= c <= 13
  }

  function TrimLeft(s: seq<int>): seq<int> {
    if s != [] && IsSpace(s[0]) then TrimLeft(s[1..]) else s
  }

  function TrimRight(s: seq<int>): seq<int> {
    if s != [] && IsSpace(s[|s| - 1]) then TrimRight(s[..|s| - 1]) else s
  }

  function Upper(s: seq<int>): (t: seq<int>)
    ensures |t| == |s|
    ensures forall i :: 0 <= i < |s| ==> t[i] == if 'a' as int <= s[i] <= 'z' as int then s[i] - 32 else s[i]
  {
    if s == [] then [] else
      [if 'a' as int <= s[0] <= 'z' as int then s[0] - 32 else s[0]] + Upper(s[1..])
  }

  predicate AllValid(s: seq<int>) {
    forall i :: 0 <= i < |s| ==> Decode(s[i]) != 255
  }

  /** The first character without a decode value. */
  function FirstInvalid(s: seq<int>): int
    requires !AllValid(s)
  {
    if Decode(s[0]) == 255 then s[0] else assert s == [s[0]] + s[1..]; FirstInvalid(s[1..])
  }

  /** `decodeULIDTime`: ten five-bit fields joined. */
  function DecodeTime(s: seq<int>): nat
    requires |s| >= 10 && AllValid(s)
  {
    Decode(s[0]) * 0x2000_0000_0000 + Decode(s[1]) * 0x100_0000_0000 + Decode(s[2]) * 0x8_0000_0000
    + Decode(s[3]) * 0x4000_0000 + Decode(s[4]) * 0x200_0000 + Decode(s[5]) * 0x10_0000 + Decode(s[6]) * 0x8000
    + Decode(s[7]) * 0x400 + Decode(s[8]) * 32 + Decode(s[9])
  }

  /** `ParseULID` on ASCII input. */
  function Parse(value: seq<int>): ParseResult {
    var s := Upper(TrimRight(TrimLeft(value)));
    if |s| != 26 then WrongLength(|s|)
    else if !AllValid(s) then WrongCharacter(FirstInvalid(s))
    else Parsed(s, DecodeTime(s))
  }

  // ---------- exactly what is accepted ----------

  /** Digits and capital letters other than I, L and O. */
  predicate Accepted(c: int) {
    || '0' as int <= c <= '9' as int
    || ('A' as int <= c <= 'Z' as int && c != 'I' as int && c != 'L' as int && c != 'O' as int)
  }

  lemma AcceptedIff(c: int)
    requires !('a' as int <= c <= 'z' as int)
    ensures Decode(c) != 255 <==> Accepted(c)
  {
    TableKnows(32, c);
    if '0' as int <= c <= '9' as int {
      assert Code(c - '0' as int) == c;
    } else if 'A' as int <= c <= 'Z' as int {
      LettersAccepted(c);
    }
  }

  /** The white space of ASCII: tab, the two feeds, vertical tab, return and blank. */
  ghost predicate White(c: int) {
    c == 0x09 || c == 0x0A || c == 0x0B || c == 0x0C || c == 0x0D || c == 0x20
  }

  ghost predicate Blank(s: seq<int>) {
    s == [] || (White(s[0]) && Blank(s[1..]))
  }

  ghost predicate Trimmed(s: seq<int>) {
    s == [] || (!White(s[0]) && !White(s[|s| - 1]))
  }

  lemma {:induction false} TrimLeftBlank(left: seq<int>, rest: seq<int>)
    requires Blank(left)
    ensures TrimLeft(left + rest) == TrimLeft(rest)
  {
    if left == [] {
      assert left + rest == rest;
    } else {
      TrimLeftBlank(left[1..], rest);
      assert (left + rest)[1..] == left[1..] + rest;
    }
  }

  lemma {:induction false} BlankLast(s: seq<int>)
    requires Blank(s) && s != []
    ensures IsSpace(s[|s| - 1]) && Blank(s[..|s| - 1])
  {
    if |s| > 1 {
      BlankLast(s[1..]);
      assert s[..|s| - 1][1..] == s[1..][..|s| - 2];
    }
  }

  lemma {:induction false} TrimRightBlank(rest: seq<int>, right: seq<int>)
    requires Blank(right)
    ensures TrimRight(rest + right) == TrimRight(rest)
    decreases |right|
  {
    if right == [] {
      assert rest + right == rest;
    } else {
      var n := |right| - 1;
      BlankLast(right);
      TrimRightBlank(rest, right[..n]);
      assert (rest + right)[..|rest| + n] == rest + right[..n];
    }
  }

  lemma {:induction false} TrimsTo(left: seq<int>, core: seq<int>, right: seq<int>)
    requires Blank(left) && Blank(right) && Trimmed(core)
    ensures TrimRight(TrimLeft(left + core + right)) == core
  {
    assert left + core + right == left + (core + right);
    TrimLeftBlank(left, core + right);
    if core == [] {
      assert core + right == right && right + [] == right;
      TrimLeftBlank(right, []);
    } else {
      TrimRightBlank(core, right);
    }
  }

  lemma {:induction false} LeftOf(s: seq<int>) returns (left: seq<int>, rest: seq<int>)
    ensures s == left + rest && Blank(left) && (rest == [] || !White(rest[0]))
  {
    if s != [] && White(s[0]) {
      left, rest := LeftOf(s[1..]);
      assert ([s[0]] + left)[1..] == left;
      left := [s[0]] + left;
    } else {
      left, rest := [], s;
    }
  }

  lemma {:induction false} RightOf(s: seq<int>) returns (rest: seq<int>, right: seq<int>)
    ensures s == rest + right && Blank(right) && (rest == [] || !White(rest[|rest| - 1]))
  {
    if s != [] && White(s[|s| - 1]) {
      rest, right := RightOf(s[..|s| - 1]);
      BlankSnoc(right, s[|s| - 1]);
      right := right + [s[|s| - 1]];
    } else {
      rest, right := s, [];
    }
  }

  lemma {:induction false} BlankSnoc(s: seq<int>, c: int)
    requires Blank(s) && White(c)
    ensures Blank(s + [c])
  {
    if s == [] {
      assert s + [c] == [c] && [c][1..] == [];
    } else {
      BlankSnoc(s[1..], c);
      assert (s + [c])[1..] == s[1..] + [c];
    }
  }

  /** Every input is a core between blanks ... */
  lemma {:induction false} Surrounded(value: seq<int>) returns (left: seq<int>, core: seq<int>, right: seq<int>)
    ensures value == left + core + right && Blank(left) && Blank(right) && Trimmed(core)
  {
    var rest;
    left, rest := LeftOf(value);
    core, right := RightOf(rest);
    CoreIsTrimmed(rest, core, right);
    assert left + core + right == left + (core + right);
  }

  lemma CoreIsTrimmed(rest: seq<int>, core: seq<int>, right: seq<int>)
    requires rest == core + right && (rest == [] || !White(rest[0])) && (core == [] || !White(core[|core| - 1]))
    ensures Trimmed(core)
  { }

  /** Character `i` is the first that is not accepted. */
  ghost predicate FirstBad(s: seq<int>, i: int) {
    0 <= i < |s| && !Accepted(s[i]) && forall j :: 0 <= j < i ==> Accepted(s[j])
  }

  lemma {:induction false} FirstInvalidIs(s: seq<int>, i: nat)
    requires FirstBad(s, i) && forall j :: 0 <= j < |s| ==> (Decode(s[j]) != 255 <==> Accepted(s[j]))
    ensures !AllValid(s) && FirstInvalid(s) == s[i]
  {
    assert Decode(s[i]) == 255;
    if i > 0 {
      assert Accepted(s[0]);
      FirstInvalidIs(s[1..], i - 1);
    }
  }

  lemma {:induction false} UpperIffAccepted(s: seq<int>)
    ensures forall j :: 0 <= j < |s| ==> (Decode(Upper(s)[j]) != 255 <==> Accepted(Upper(s)[j]))
  {
    forall j | 0 <= j < |s| ensures Decode(Upper(s)[j]) != 255 <==> Accepted(Upper(s)[j]) { AcceptedIff(Upper(s)[j]); }
  }

  function Decoded(s: seq<int>): (d: seq<int>)
    ensures |d| == |s| && forall i :: 0 <= i < |s| ==> d[i] == Decode(s[i])
  {
    if s == [] then [] else [Decode(s[0])] + Decoded(s[1..])
  }

  lemma {:induction false} TimeSpelled(s: seq<int>)
    requires |s| >= 10 && AllValid(s)
    ensures DecodeTime(s) == Value(32, Decoded(s[..10]))
  {
    TenDigitValue(Decoded(s[..10]));
  }

  /**
   ... and for each it is fixed whether `ParseULID` accepts it, and what it gives: blanks around it do not matter,
   nor does the case of letters; the core must have 26 characters, all of them digits or letters other than I, L and
   O; the value is the core in capitals, and the time the number that its first ten digits spell.
   */
  lemma {:induction false} ParseExact(left: seq<int>, core: seq<int>, right: seq<int>)
    requires Blank(left) && Blank(right) && Trimmed(core)
    ensures var r := Parse(left + core + right); var s := Upper(core);
            && (|s| != 26 ==> r == WrongLength(|core|))
            && (|s| == 26 && (forall i :: 0 <= i < 26 ==> Accepted(s[i]))
                ==> r.Parsed? && r.value == s && r.time == Value(32, Decoded(s[..10])))
            && (|s| == 26 ==> forall i :: FirstBad(s, i) ==> r == WrongCharacter(s[i]))
  {
    var s := Upper(core);
    TrimsTo(left, core, right);
    UpperIffAccepted(core);
    if |s| == 26 && AllValid(s) { TimeSpelled(s); }
    forall i | FirstBad(s, i) ensures !AllValid(s) && FirstInvalid(s) == s[i] { FirstInvalidIs(s, i); }
  }

  // ---------- parsing undoes encoding ----------

  lemma TextDecodes(d: seq<Digit>)
    ensures AllValid(Text(d)) && forall i :: 0 <= i < |d| ==> Decode(Text(d)[i]) == d[i]
  {
    forall i | 0 <= i < |d| ensures Decode(Text(d)[i]) == d[i] { DecodeInverts(d[i]); }
  }

  lemma CodeIsPlain(d: Digit)
    ensures !IsSpace(Code(d)) && !('a' as int <= Code(d) <= 'z' as int)
  { }

  /** Trimming and upper-casing leave encoded text alone. */
  lemma TextIsNormal(d: seq<Digit>)
    requires d != []
    ensures Upper(TrimRight(TrimLeft(Text(d)))) == Text(d)
  {
    var s := Text(d);
    CodeIsPlain(d[0]);
    CodeIsPlain(d[|d| - 1]);
    assert TrimLeft(s) == s;
    assert TrimRight(s) == s;
    forall i | 0 <= i < |d| ensures Upper(Text(d))[i] == Text(d)[i] { CodeIsPlain(d[i]); }
  }

  lemma DecodeTimeOfText(ms: nat, rest: seq<Digit>)
    ensures var s := Text(TimeDigits(ms) + rest); AllValid(s) && DecodeTime(s) == ms % TIME_LIMIT
  {
    TextDecodes(TimeDigits(ms) + rest);
    TenDigitValue(TimeDigits(ms));
    TimeDigitsValue(ms);
  }

  /** Parsing an encoded ULID gives back its text and the low fifty bits of its timestamp. */
  lemma ParseOfEncode(ms: nat, r: Rand)
    ensures Parse(Encode(ms, r)) == Parsed(Encode(ms, r), ms % TIME_LIMIT)
  {
    TextIsNormal(TimeDigits(ms) + RandDigits(r));
    DecodeTimeOfText(ms, RandDigits(r));
  }

  /** The timestamp is recovered exactly when it fits in fifty bits. */
  lemma TimeRecoveredIff(ms: nat, r: Rand)
    ensures Parse(Encode(ms, r)) == Parsed(Encode(ms, r), ms) <==> ms < TIME_LIMIT
  {
    ParseOfEncode(ms, r);
    LowBitsIff(Parse(Encode(ms, r)), Encode(ms, r), ms);
  }

  lemma LowBitsIff(p: ParseResult, s: seq<int>, ms: nat)
    requires p == Parsed(s, ms % TIME_LIMIT)
    ensures p == Parsed(s, ms) <==> ms < TIME_LIMIT
  { }

  // ---------- the generator ----------

  datatype Gen = Gen(lastTime: nat, lastRand: Rand)

  datatype Tick = Tick(ms: nat, random: Rand)

  /** The carry loop: add one to the last byte, and to the one before it when that wraps. */
  function Increment(r: seq<Byte>): (s: seq<Byte>)
    ensures |s| == |r|
  {
    if r == [] then [] else
      var n := |r| - 1;
      if r[n] < 255 then r[..n] + [r[n] + 1] else Increment(r[..n]) + [0]
  }

  predicate AllOnes(r: seq<Byte>) {
    forall i :: 0 <= i < |r| ==> r[i] == 255
  }

  lemma ValueSnoc(r: seq<int>, x: int)
    ensures Value(256, r + [x]) == Value(256, r) * 256 + x
  {
    ValueConcat(256, r, [x]);
    ValueOne(256, x);
    Powers();
  }

  /** Incrementing adds one, or wraps to zero from the largest value. */
  lemma {:induction false} IncrementAddsOne(r: seq<Byte>)
    ensures Value(256, Increment(r)) == if AllOnes(r) then 0 else Value(256, r) + 1
  {
    if r != [] {
      var n := |r| - 1;
      assert r == r[..n] + [r[n]];
      ValueSnoc(r[..n], r[n]);
      if r[n] < 255 {
        ValueSnoc(r[..n], r[n] + 1);
      } else {
        IncrementAddsOne(r[..n]);
        ValueSnoc(Increment(r[..n]), 0);
        assert AllOnes(r) <==> AllOnes(r[..n]);
      }
    }
  }

  function Next(g: Gen, t: Tick): Gen
  {
    if t.ms == g.lastTime then g.(lastRand := Increment(g.lastRand)) else Gen(t.ms, t.random)
  }

  ghost predicate Sound(g: Gen) {
    g.lastTime < TIME_LIMIT
  }

  ghost predicate SoundTick(t: Tick) {
    t.ms < TIME_LIMIT
  }

  /** The clock moved on, or it stood still and the random part was not at its maximum. */
  ghost predicate Advances(g: Gen, t: Tick) {
    t.ms > g.lastTime || (t.ms == g.lastTime && !AllOnes(g.lastRand))
  }

  function KeyOf(g: Gen): int
  {
    Key(g.lastTime, g.lastRand)
  }

  function TextOf(g: Gen): seq<int>
  {
    Encode(g.lastTime, g.lastRand)
  }

  lemma RandRange(r: Rand)
    ensures 0 <= Value(256, r) < RAND_LIMIT
  {
    ValueRange(256, r);
    Powers();
    PowAdds(256, 5, 5);
  }

  lemma KeyPlain(g: Gen)
    requires Sound(g)
    ensures KeyOf(g) == g.lastTime * RAND_LIMIT + Value(256, g.lastRand)
  { }

  /** Below 2^50 the numbers are ordered by time first, then by the random part. */
  lemma KeyLess(g: Gen, h: Gen)
    requires Sound(g) && Sound(h)
    ensures KeyOf(g) < KeyOf(h) <==>
            g.lastTime < h.lastTime
            || (g.lastTime == h.lastTime && Value(256, g.lastRand) < Value(256, h.lastRand))
  {
    KeyPlain(g);
    KeyPlain(h);
    RandRange(g.lastRand);
    RandRange(h.lastRand);
    Leading(g.lastTime, h.lastTime, Value(256, g.lastRand), Value(256, h.lastRand), RAND_LIMIT);
  }

  /** The number of the next ULID: in a new millisecond the time and the bytes delivered; in the same one the last
      number plus one, its random part wrapping to zero. */
  lemma {:induction false} NextSpells(g: Gen, t: Tick)
    ensures var low := if t.ms != g.lastTime then Value(256, t.random)
                       else if AllOnes(g.lastRand) then 0 else Value(256, g.lastRand) + 1;
            && KeyOf(Next(g, t)) == (t.ms % TIME_LIMIT) * RAND_LIMIT + low
            && 0 <= low < RAND_LIMIT
  {
    IncrementAddsOne(g.lastRand);
    RandRange(Next(g, t).lastRand);
  }

  lemma NextKey(g: Gen, t: Tick)
    requires Sound(g) && SoundTick(t)
    ensures Sound(Next(g, t)) && Next(g, t).lastTime == t.ms
    ensures KeyOf(g) < KeyOf(Next(g, t)) <==> Advances(g, t)
  {
    KeyLess(g, Next(g, t));
    IncrementAddsOne(g.lastRand);
    RandRange(g.lastRand);
  }

  /** Within fifty bits, each new ULID compares above the previous one exactly when the generator advances. */
  lemma NextIsGreaterIff(g: Gen, t: Tick)
    requires Sound(g) && SoundTick(t)
    ensures Compare(TextOf(g), TextOf(Next(g, t))) == -1 <==> Advances(g, t)
  {
    var h := Next(g, t);
    NextKey(g, t);
    CompareIsNumeric(g.lastTime, g.lastRand, h.lastTime, h.lastRand);
  }

  /** The generator after each tick of a run. */
  function Gens(g: Gen, ticks: seq<Tick>): (s: seq<Gen>)
    ensures |s| == |ticks|
    decreases |ticks|
  {
    if ticks == [] then [] else [Next(g, ticks[0])] + Gens(Next(g, ticks[0]), ticks[1..])
  }

  ghost predicate Steady(g: Gen, ticks: seq<Tick>)
    decreases |ticks|
  {
    ticks == [] || (SoundTick(ticks[0]) && Advances(g, ticks[0]) && Steady(Next(g, ticks[0]), ticks[1..]))
  }

  /** In a steady run every later number is above the one it started from. */
  lemma {:induction false} KeyAbove(g: Gen, ticks: seq<Tick>, j: nat)
    requires Sound(g) && Steady(g, ticks) && j < |ticks|
    ensures var h := Gens(g, ticks)[j]; Sound(h) && h.lastTime == ticks[j].ms && KeyOf(g) < KeyOf(h)
    decreases j
  {
    NextKey(g, ticks[0]);
    if j > 0 { KeyAbove(Next(g, ticks[0]), ticks[1..], j - 1); }
  }

  lemma {:induction false} KeysIncrease(g: Gen, ticks: seq<Tick>, i: nat, j: nat)
    requires i < j < |ticks| && SoundTick(ticks[0]) && Steady(Next(g, ticks[0]), ticks[1..])
    ensures var a, b := Gens(g, ticks)[i], Gens(g, ticks)[j];
            && Sound(a) && a.lastTime == ticks[i].ms && Sound(b) && b.lastTime == ticks[j].ms
            && KeyOf(a) < KeyOf(b)
    decreases i
  {
    var first := Next(g, ticks[0]);
    if i == 0 { KeyAbove(first, ticks[1..], j - 1); } else { KeysIncrease(first, ticks[1..], i - 1, j - 1); }
  }

  lemma TextOrder(g: Gen, h: Gen)
    requires KeyOf(g) < KeyOf(h)
    ensures Compare(TextOf(g), TextOf(h)) == -1
  {
    CompareIsNumeric(g.lastTime, g.lastRand, h.lastTime, h.lastRand);
  }

  lemma TextParses(g: Gen)
    requires Sound(g)
    ensures Parse(TextOf(g)) == Parsed(TextOf(g), g.lastTime)
  {
    TimeRecoveredIff(g.lastTime, g.lastRand);
  }

  /**
   For every run from any generator state in which the clock never goes back, stays below 2^50 milliseconds,
   and no random part wraps within one millisecond: any ULID compares below any later one in byte order.
   */
  lemma RunIsSorted(g: Gen, ticks: seq<Tick>, i: nat, j: nat)
    requires i < j < |ticks| && SoundTick(ticks[0]) && Steady(Next(g, ticks[0]), ticks[1..])
    ensures Compare(TextOf(Gens(g, ticks)[i]), TextOf(Gens(g, ticks)[j])) == -1
  {
    KeysIncrease(g, ticks, i, j);
    TextOrder(Gens(g, ticks)[i], Gens(g, ticks)[j]);
  }

  /** In the same runs, parsing recovers the text and the exact timestamp of every ULID. */
  lemma RunTimesRecovered(g: Gen, ticks: seq<Tick>, i: nat)
    requires i < |ticks| && SoundTick(ticks[0]) && Steady(Next(g, ticks[0]), ticks[1..])
    ensures var text := TextOf(Gens(g, ticks)[i]); Parse(text) == Parsed(text, ticks[i].ms)
  {
    if i > 0 { KeysIncrease(g, ticks, 0, i); }
    TextParses(Gens(g, ticks)[i]);
  }

  class Generator {
    var lastTime: nat
    const lastRand: array<Byte>

    ghost function State(): Gen
      requires lastRand.Length == 10
      reads this, lastRand
    {
      Gen(lastTime, lastRand[..])
    }

    constructor ()
      ensures lastRand.Length == 10 && fresh(lastRand) && State() == Gen(0, seq(10, _ => 0))
    {
      lastTime := 0;
      lastRand := new Byte[10](_ => 0);
      new;
      assert lastRand[..] == seq(10, _ => 0);
    }

    /** `NewULIDWithTime`; `random` is what `rand.Read` would deliver. */
    method NewULID(ms: nat, random: Rand) returns (value: seq<int>, time: nat)
      requires lastRand.Length == 10
      modifies this, lastRand
      ensures State() == Next(old(State()), Tick(ms, random))
      ensures value == Encode(ms, lastRand[..]) && time == ms
    {
      if ms == lastTime {
        IncrementInPlace(lastRand);
      } else {
        lastTime := ms;
        forall i | 0 <= i < 10 {
          lastRand[i] := random[i];
        }
        assert lastRand[..] == random;
      }
      value, time := Encode(ms, lastRand[..]), ms;
    }
  }

  /** Where the carry stops: the last byte that is not 255, with only wrapped bytes after it. */
  lemma {:induction false} IncrementShape(r: seq<Byte>, i: int)
    requires -1 <= i < |r| && (i >= 0 ==> r[i] < 255)
    requires forall k :: i < k < |r| ==> r[k] == 255
    ensures forall k :: 0 <= k < |r| ==> Increment(r)[k] == if k < i then r[k] else if k == i then r[k] + 1 else 0
  {
    if i < |r| - 1 { IncrementShape(r[..|r| - 1], i); }
  }

  method IncrementInPlace(a: array<Byte>)
    modifies a
    ensures a[..] == Increment(old(a[..]))
  {
    ghost var was := a[..];
    var i := a.Length - 1;
    while i >= 0
      invariant -1 <= i < a.Length
      invariant forall k :: 0 <= k <= i ==> a[k] == was[k]
      invariant forall k :: i < k < a.Length ==> was[k] == 255 && a[k] == 0
    {
      a[i] := if a[i] == 255 then 0 else a[i] + 1;
      if a[i] != 0 {
        break;
      }
      i := i - 1;
    }
    IncrementShape(was, i);
  }
}
