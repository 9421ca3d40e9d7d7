/**
 The string/int prism `StringToInt` (libs/go/src/optics/prism.go): a left-to-right parser and a printer that
 extracts digits and reverses them in place.  Integers are 64-bit and wrap around.
 */
module StringToInt {
  import opened Options

  const MIN: int := -0x8000_0000_0000_0000
  const MAX: int := 0x7FFF_FFFF_FFFF_FFFF

  /** The machine integer that `x` wraps around to. */
  function Wrap(x: int): (y: int)
    ensures MIN <= y <= MAX
    ensures MIN <= x <= MAX ==> y == x
  {
    (x - MIN) % 0x1_0000_0000_0000_0000 + MIN
  }

  predicate IsDigit(c: char) {
    '0' <= c <= '9'
  }

  function DigitOf(c: char): int
    requires IsDigit(c)
  {
    c as int - '0' as int
  }

  function CharOf(d: int): (c: char)
    requires 0 <= d < 10
    ensures IsDigit(c) && DigitOf(c) == d
  {
    ('0' as int + d) as char
  }

  // ---------- value model ----------

  /** The parser's loop: a minus sign is skipped as long as the number read so far is zero. */
  function Scan(s: string, n: int): Option<int> {
    if s == [] then Some(n)
    else if IsDigit(s[0]) then Scan(s[1..], Wrap(n * 10 + DigitOf(s[0])))
    else if s[0] == '-' && n == 0 then Scan(s[1..], n)
    else None
  }

  function Parse(s: string): Option<int> {
    match Scan(s, 0)
    case None => None
    case Some(n) => if s == [] then None else Some(if s[0] == '-' then Wrap(-n) else n)
  }

  /** The digits of a positive number, least significant first. */
  function RevDigits(m: int): string
    decreases if m < 0 then 0 else m
  {
    if m <= 0 then "" else [CharOf(m % 10)] + RevDigits(m / 10)
  }

  function Reverse(s: string): (r: string)
    ensures |r| == |s|
  {
    if s == [] then [] else Reverse(s[1..]) + [s[0]]
  }

  function Print(n: int): string {
    if n == 0 then "0"
    else Reverse(RevDigits(if n < 0 then Wrap(-n) else n) + (if n < 0 then "-" else ""))
  }

  // ---------- the round trip ----------

  /** The digits of a positive number, most significant first. */
  ghost function Text(m: nat): string {
    Reverse(RevDigits(m))
  }

  lemma {:induction false} ReverseSnoc(s: string, c: char)
    ensures Reverse(s + [c]) == [c] + Reverse(s)
  {
    if s == [] {
      assert s + [c] == [c] && [c][1..] == [];
    } else {
      ReverseSnoc(s[1..], c);
      assert (s + [c])[1..] == s[1..] + [c];
    }
  }

  lemma TextStep(m: nat)
    requires m > 0
    ensures Text(m) == Text(m / 10) + [CharOf(m % 10)]
  {
    assert RevDigits(m)[1..] == RevDigits(m / 10);
  }

  lemma ScanDigit(m: nat, rest: string)
    requires 0 < m <= MAX
    ensures Scan([CharOf(m % 10)] + rest, m / 10) == Scan(rest, m)
  {
    assert ([CharOf(m % 10)] + rest)[1..] == rest;
    assert m / 10 * 10 + m % 10 == m;
  }

  lemma TextThen(m: nat, rest: string)
    requires m > 0
    ensures Text(m) + rest == Text(m / 10) + ([CharOf(m % 10)] + rest)
  {
    TextStep(m);
  }

  /** Scanning the digits of `m` arrives at `m`, without wrapping on the way. */
  lemma {:induction false} ScanText(m: nat, rest: string)
    requires m <= MAX
    ensures Scan(Text(m) + rest, 0) == Scan(rest, m)
    decreases m
  {
    if m == 0 {
      assert Text(0) + rest == rest;
    } else {
      ScanText(m / 10, [CharOf(m % 10)] + rest);
      ScanDigit(m, rest);
      TextThen(m, rest);
    }
  }

  lemma {:induction false} TextIsDigits(m: nat)
    requires m > 0
    ensures Text(m) != [] && (forall i :: 0 <= i < |Text(m)| ==> IsDigit(Text(m)[i])) && Text(m)[0] != '0'
    decreases m
  {
    TextStep(m);
    if m / 10 > 0 { TextIsDigits(m / 10); }
  }

  lemma ParsePositive(m: nat)
    requires 0 < m <= MAX
    ensures Parse(Text(m)) == Some(m)
  {
    ScanText(m, "");
    assert Text(m) + "" == Text(m);
    TextIsDigits(m);
  }

  lemma ParseNegative(m: int)
    requires 0 < m <= MAX
    ensures Parse("-" + Text(m)) == Some(-m)
  {
    ScanText(m, "");
    assert Text(m) + "" == Text(m);
    assert ("-" + Text(m))[1..] == Text(m);
  }

  lemma PrintShape(n: int)
    requires MIN < n <= MAX
    ensures n > 0 ==> Print(n) == Text(n)
    ensures n < 0 ==> Print(n) == "-" + Text(-n)
  {
    if n > 0 {
      assert RevDigits(n) + "" == RevDigits(n);
    } else if n < 0 {
      ReverseSnoc(RevDigits(-n), '-');
    }
  }

  lemma ParseBareMinus()
    ensures Print(MIN) == "-" && Parse("-") == Some(0)
  {
    assert Wrap(-MIN) == MIN;
    assert RevDigits(MIN) + "-" == "-";
    assert "-"[1..] == "";
    assert Scan("-", 0) == Scan("", 0);
  }

  /** For every machine integer: parsing what was printed gives the number back, except for the smallest one,
      which prints as a lone minus sign. */
  lemma RoundTripIff(n: int)
    requires MIN <= n <= MAX
    ensures Parse(Print(n)) == Some(n) <==> n != MIN
  {
    if n == MIN {
      ParseBareMinus();
    } else if n == 0 {
      assert "0"[1..] == "";
      assert Scan("0", 0) == Scan("", 0);
    } else {
      PrintShape(n);
      if n > 0 { ParsePositive(n); } else { ParseNegative(-n); }
    }
  }

  // ---------- which strings are printed ----------

  /** The number a string of digits denotes, without a bound. */
  function Number(t: string): nat
    requires forall i :: 0 <= i < |t| ==> IsDigit(t[i])
  {
    if t == [] then 0 else Number(t[..|t| - 1]) * 10 + DigitOf(t[|t| - 1])
  }

  ghost predicate Numeral(t: string) {
    t != [] && (forall i :: 0 <= i < |t| ==> IsDigit(t[i])) && t[0] != '0'
  }

  /** No leading zero, at most one sign in front, a digit somewhere, and in range. */
  ghost predicate Canonical(s: string) {
    || s == "0"
    || (Numeral(s) && Number(s) <= MAX)
    || (s != [] && s[0] == '-' && Numeral(s[1..]) && Number(s[1..]) <= MAX)
  }

  lemma LastDigit(m: nat, d: nat)
    requires d < 10
    ensures (m * 10 + d) / 10 == m && (m * 10 + d) % 10 == d
  { }

  /** A numeral without leading zero is the text of its number. */
  lemma {:induction false} TextOfNumber(t: string)
    requires Numeral(t)
    ensures Number(t) > 0 && Text(Number(t)) == t
  {
    var n := |t| - 1;
    if n > 0 {
      TextOfNumber(t[..n]);
    } else {
      assert Text(0) == "";
    }
    LastDigit(Number(t[..n]), DigitOf(t[n]));
    TextStep(Number(t));
    assert t == t[..n] + [t[n]];
  }

  lemma {:induction false} NumberOfText(m: nat)
    ensures (forall i :: 0 <= i < |Text(m)| ==> IsDigit(Text(m)[i])) && Number(Text(m)) == m
    decreases m
  {
    if m > 0 {
      NumberOfText(m / 10);
      TextStep(m);
      assert Text(m)[..|Text(m)| - 1] == Text(m / 10);
    }
  }

  lemma PrintIsCanonical(n: int)
    requires MIN < n <= MAX
    ensures Canonical(Print(n))
  {
    PrintShape(n);
    if n != 0 {
      var m := if n > 0 then n else -n;
      TextIsDigits(m);
      NumberOfText(m);
      assert ("-" + Text(m))[1..] == Text(m);
    }
  }

  lemma CanonicalIsPrinted(s: string) returns (n: int)
    requires Canonical(s)
    ensures MIN < n <= MAX && Print(n) == s
  {
    if s == "0" {
      n := 0;
    } else if Numeral(s) {
      TextOfNumber(s);
      n := Number(s);
      PrintShape(n);
    } else {
      TextOfNumber(s[1..]);
      n := 0 - Number(s[1..]);
      PrintShape(n);
      assert s == "-" + s[1..];
    }
  }

  /** The other prism law, printing what was parsed, holds exactly for the canonical strings. */
  lemma PrintOfParseIff(s: string)
    ensures (Parse(s).Some? && Print(Parse(s).value) == s) <==> Canonical(s)
  {
    if Canonical(s) {
      var n := CanonicalIsPrinted(s);
      RoundTripIff(n);
    } else if Parse(s).Some? && Print(Parse(s).value) == s {
      var n := Parse(s).value;
      ParseInRange(s);
      if n == MIN { ParseBareMinus(); } else { PrintIsCanonical(n); }
    }
  }

  lemma {:induction false} ScanInRange(s: string, n: int)
    requires MIN <= n <= MAX
    ensures Scan(s, n).Some? ==> MIN <= Scan(s, n).value <= MAX
    decreases |s|
  {
    if s != [] {
      if IsDigit(s[0]) { ScanInRange(s[1..], Wrap(n * 10 + DigitOf(s[0]))); } else { ScanInRange(s[1..], n); }
    }
  }

  lemma ParseInRange(s: string)
    ensures Parse(s).Some? ==> MIN <= Parse(s).value <= MAX
  {
    ScanInRange(s, 0);
  }

  // ---------- which strings are parsed ----------

  /** The number spelled by the digits of a string, whatever is between them. */
  function Total(s: string): nat {
    if s == [] then 0 else
      var rest, c := s[..|s| - 1], s[|s| - 1];
      if IsDigit(c) then Total(rest) * 10 + DigitOf(c) else Total(rest)
  }

  /** Only digits, and minus signs where the digits before spell zero as a machine integer. */
  predicate Readable(s: string) {
    s == [] ||
    var rest, c := s[..|s| - 1], s[|s| - 1];
    Readable(rest) && (IsDigit(c) || (c == '-' && Wrap(Total(rest)) == 0))
  }

  /** What one more character does to the number read. */
  function Read(n: int, c: char): Option<int> {
    if IsDigit(c) then Some(Wrap(n * 10 + DigitOf(c))) else if c == '-' && n == 0 then Some(n) else None
  }

  lemma {:induction false} ScanSnoc(s: string, c: char, n: int)
    ensures Scan(s + [c], n) == if Scan(s, n).Some? then Read(Scan(s, n).value, c) else None
    decreases |s|
  {
    if s == [] {
      assert s + [c] == [c] && [c][1..] == [];
    } else {
      assert (s + [c])[1..] == s[1..] + [c];
      if IsDigit(s[0]) { ScanSnoc(s[1..], c, Wrap(n * 10 + DigitOf(s[0]))); } else { ScanSnoc(s[1..], c, n); }
    }
  }

  lemma WrapAgain(m: int, d: int)
    ensures Wrap(Wrap(m) * 10 + d) == Wrap(m * 10 + d)
  {
    var k := (m - MIN) / 0x1_0000_0000_0000_0000;
    assert Wrap(m) == m - k * 0x1_0000_0000_0000_0000;
    WrapPeriod(m * 10 + d, k * 10);
  }

  lemma WrapPeriod(x: int, k: int)
    ensures Wrap(x - k * 0x1_0000_0000_0000_0000) == Wrap(x)
  { }

  lemma {:induction false} ScanExact(s: string)
    ensures Scan(s, 0) == if Readable(s) then Some(Wrap(Total(s))) else None
  {
    if s != [] {
      var rest, c := s[..|s| - 1], s[|s| - 1];
      ScanExact(rest);
      assert s == rest + [c];
      ScanSnoc(rest, c, 0);
      if IsDigit(c) { WrapAgain(Total(rest), DigitOf(c)); }
    }
  }

  /** Exactly which strings parse, and to what: those not empty, of digits and of minus signs before which only zeros
      (or a multiple of 2^64) were read; the value is the number of the digits, negated when the first character is
      a minus sign, as a machine integer. */
  lemma {:induction false} ParsesIff(s: string)
    ensures Parse(s).Some? <==> s != [] && Readable(s)
    ensures Parse(s).Some? ==> Parse(s).value == Wrap(if s[0] == '-' then 0 - Total(s) else Total(s))
  {
    ScanExact(s);
    WrapNegated(Total(s));
  }

  lemma WrapNegated(m: int)
    ensures Wrap(-Wrap(m)) == Wrap(0 - m)
  {
    var k := (m - MIN) / 0x1_0000_0000_0000_0000;
    assert Wrap(m) == m - k * 0x1_0000_0000_0000_0000;
    WrapPeriod(-m, -k);
  }

  // ---------- the loops ----------

  method GetOption(s: string) returns (r: Option<int>)
    ensures r == Parse(s)
  {
    var n, i := 0, 0;
    while i < |s|
      invariant 0 <= i <= |s|
      invariant Scan(s[i..], n) == Scan(s, 0)
    {
      var c := s[i];
      assert s[i..][1..] == s[i + 1..];
      if c < '0' || c > '9' {
        if c == '-' && n == 0 {
          i := i + 1;
          continue;
        }
        return None;
      }
      n := Wrap(n * 10 + (c as int - '0' as int));
      i := i + 1;
    }
    if |s| > 0 && s[0] == '-' {
      n := Wrap(-n);
    }
    if |s| == 0 {
      return None;
    }
    return Some(n);
  }

  lemma {:induction false} ReverseAt(s: string, k: nat)
    requires k < |s|
    ensures Reverse(s)[k] == s[|s| - 1 - k]
  {
    if k < |s| - 1 { ReverseAt(s[1..], k); }
  }

  method ReverseInPlace(digits: array<char>)
    modifies digits
    ensures digits[..] == Reverse(old(digits[..]))
  {
    ghost var was := digits[..];
    var n := digits.Length;
    var i, j := 0, n - 1;
    while i < j
      invariant 0 <= i <= n && j == n - 1 - i && i <= j + 1
      invariant forall k :: 0 <= k < i ==> digits[k] == was[n - 1 - k] && digits[n - 1 - k] == was[k]
      invariant forall k :: i <= k <= j ==> digits[k] == was[k]
    {
      digits[i], digits[j] := digits[j], digits[i];
      i, j := i + 1, j - 1;
    }
    forall k | 0 <= k < n ensures digits[k] == Reverse(was)[k] { ReverseAt(was, k); }
  }

  method ReverseGet(n: int) returns (s: string)
    requires MIN <= n <= MAX
    ensures s == Print(n)
  {
    if n == 0 {
      return "0";
    }
    var neg, m := n < 0, n;
    if neg {
      m := Wrap(-m);
    }
    var digits: string := "";
    ghost var whole := RevDigits(m);
    while m > 0
      invariant digits + RevDigits(m) == whole
      decreases if m < 0 then 0 else m
    {
      ghost var before := digits;
      digits := digits + [CharOf(m % 10)];
      assert before + ([CharOf(m % 10)] + RevDigits(m / 10)) == digits + RevDigits(m / 10);
      m := m / 10;
    }
    assert digits == whole;
    if neg {
      digits := digits + "-";
    }
    var buffer := new char[|digits|](i requires 0 <= i < |digits| => digits[i]);
    assert buffer[..] == digits;
    ReverseInPlace(buffer);
    assert whole + "" == whole;
    return buffer[..];
  }
}
