/**
 The string operations of Go's standard library that the backend uses.
 A Go string is a byte string; a char here stands for one byte.
 */
module GoText {
  import opened Positional

  datatype Option<+T> = None | Some(value: T)

  type byte = b: nat | b < 256

  const MAX_INT64: int := 0x7FFF_FFFF_FFFF_FFFF
  const MIN_INT64: int := -0x8000_0000_0000_0000
  type int64 = x: int | MIN_INT64 <= x <= MAX_INT64

  // ---------- strings.Split, strings.Join, strings.Cut with a one-byte separator ----------

  function Split(s: string, sep: char): (parts: seq<string>)
    ensures |parts| >= 1
    ensures forall i :: 0 <= i < |parts| ==> sep !in parts[i]
  {
    if s == "" then [""]
    else
      var rest := Split(s[1..], sep);
      if s[0] == sep then [""] + rest else [[s[0]] + rest[0]] + rest[1..]
  }

  function Join(parts: seq<string>, sep: char): string {
    if parts == [] then ""
    else if |parts| == 1 then parts[0]
    else parts[0] + [sep] + Join(parts[1..], sep)
  }

  /** The text before and after the first sep, and whether there was one. */
  function Cut(s: string, sep: char): (r: (string, string, bool))
    ensures sep !in r.0
    ensures r.2 <==> sep in s
    ensures s == if r.2 then r.0 + [sep] + r.1 else r.0
  {
    if s == "" then ("", "", false)
    else if s[0] == sep then ("", s[1..], true)
    else
      var r := Cut(s[1..], sep);
      ([s[0]] + r.0, r.1, r.2)
  }

  lemma {:induction false} JoinOfSplit(s: string, sep: char)
    ensures Join(Split(s, sep), sep) == s
  {
    if s == "" {
    } else {
      JoinOfSplit(s[1..], sep);
      var rest := Split(s[1..], sep);
      if s[0] == sep {
        assert ([""] + rest)[1..] == rest;
        assert s == [sep] + s[1..];
      } else {
        var parts := Split(s, sep);
        assert parts[1..] == rest[1..];
        assert s == [s[0]] + s[1..];
      }
    }
  }

  lemma {:induction false} SplitAtFirst(p: string, t: string, sep: char)
    requires sep !in p
    ensures Split(p, sep) == [p]
    ensures Split(p + [sep] + t, sep) == [p] + Split(t, sep)
  {
    var s := p + [sep] + t;
    if p == "" {
      assert s == [sep] + t;
      assert s[1..] == t;
    } else {
      SplitAtFirst(p[1..], t, sep);
      assert s[1..] == p[1..] + [sep] + t;
      assert p == [p[0]] + p[1..];
    }
  }

  lemma {:induction false} SplitOfJoin(parts: seq<string>, sep: char)
    requires |parts| >= 1
    requires forall i :: 0 <= i < |parts| ==> sep !in parts[i]
    ensures Split(Join(parts, sep), sep) == parts
  {
    if |parts| == 1 {
      SplitAtFirst(parts[0], "", sep);
    } else {
      SplitOfJoin(parts[1..], sep);
      SplitAtFirst(parts[0], Join(parts[1..], sep), sep);
    }
  }

  /** Join introduces no character but the separator. */
  lemma {:induction false} JoinAvoids(parts: seq<string>, sep: char, c: char)
    requires c != sep
    requires forall i :: 0 <= i < |parts| ==> c !in parts[i]
    ensures c !in Join(parts, sep)
  {
    if |parts| <= 1 {
    } else {
      JoinAvoids(parts[1..], sep, c);
    }
  }

  /** A cut string without the separator is cut into itself. */
  lemma CutWhole(s: string, sep: char)
    requires sep !in s
    ensures Cut(s, sep) == (s, "", false)
  {
    var r := Cut(s, sep);
    CutUnfound(s, sep);
  }

  lemma {:induction false} CutUnfound(s: string, sep: char)
    requires sep !in s
    ensures Cut(s, sep).1 == ""
  {
    if s == "" {
    } else {
      CutUnfound(s[1..], sep);
    }
  }

  lemma CutAt(p: string, t: string, sep: char)
    requires sep !in p
    ensures Cut(p + [sep] + t, sep) == (p, t, true)
  {
    var s := p + [sep] + t;
    assert s[|p|] == sep;
    var r := Cut(s, sep);
    assert s[|r.0|] == sep;
    assert forall i :: 0 <= i < |p| ==> s[i] == p[i];
    assert forall i :: 0 <= i < |r.0| ==> s[i] == r.0[i];
    assert |r.0| == |p|;
    assert r.0 == s[..|p|] == p;
    assert r.1 == s[|p| + 1..] == t;
  }

  // ---------- strings.TrimPrefix, strings.ToLower ----------

  function TrimPrefix(s: string, prefix: string): string {
    if prefix <= s then s[|prefix|..] else s
  }

  function LowerChar(c: char): char {
    if 'A' <= c <= 'Z' then (c as int + 32) as char else c
  }

  /** strings.ToLower on ASCII text. */
  function ToLower(s: string): (r: string)
    ensures |r| == |s| && forall i :: 0 <= i < |s| ==> r[i] == LowerChar(s[i])
  {
    seq(|s|, i requires 0 <= i < |s| => LowerChar(s[i]))
  }

  // ---------- encoding/hex ----------

  function HexDigit(n: nat): (c: char)
    requires n < 16
    ensures HexValue(c) == Some(n)
  {
    if n < 10 then ('0' as int + n) as char else ('a' as int + n - 10) as char
  }

  function HexValue(c: char): (r: Option<nat>)
    ensures r.Some? ==> r.value < 16
    ensures r.Some? ==> c != 'x'
  {
    if '0' <= c <= '9' then Some(c as int - '0' as int)
    else if 'a' <= c <= 'f' then Some(c as int - 'a' as int + 10)
    else if 'A' <= c <= 'F' then Some(c as int - 'A' as int + 10)
    else None
  }

  /** Lowering a hex character gives the digit of its value. */
  lemma HexValueLower(c: char)
    ensures HexValue(c).Some? ==> LowerChar(c) == HexDigit(HexValue(c).value)
  {}

  function HexEncode(bs: seq<byte>): (s: string)
    ensures |s| == 2 * |bs|
  {
    if bs == [] then "" else [HexDigit(bs[0] / 16), HexDigit(bs[0] % 16)] + HexEncode(bs[1..])
  }

  /** None for an odd length or a character that is no hex digit. */
  function HexDecode(s: string): (r: Option<seq<byte>>)
    ensures r.Some? ==> |s| == 2 * |r.value|
  {
    if s == "" then Some([])
    else if |s| == 1 then None
    else
      var hi, lo, rest := HexValue(s[0]), HexValue(s[1]), HexDecode(s[2..]);
      if hi.None? || lo.None? || rest.None? then None
      else Some([16 * hi.value + lo.value] + rest.value)
  }

  lemma {:induction false} HexRoundTrip(bs: seq<byte>)
    ensures HexDecode(HexEncode(bs)) == Some(bs)
  {
    if bs == [] {
    } else {
      HexRoundTrip(bs[1..]);
      var s := HexEncode(bs);
      assert s[2..] == HexEncode(bs[1..]);
      assert bs == [bs[0]] + bs[1..];
    }
  }

  /** Decodable text is the encoding of its bytes up to case. */
  lemma {:induction false} HexDecodeIsUpToCase(s: string)
    requires HexDecode(s).Some?
    ensures ToLower(s) == HexEncode(HexDecode(s).value)
  {
    if s == "" {
    } else {
      var bs := HexDecode(s).value;
      HexDecodeIsUpToCase(s[2..]);
      assert bs[1..] == HexDecode(s[2..]).value;
      var hi, lo := HexValue(s[0]).value, HexValue(s[1]).value;
      assert bs[0] / 16 == hi && bs[0] % 16 == lo;
      HexValueLower(s[0]);
      HexValueLower(s[1]);
      assert ToLower(s) == [LowerChar(s[0]), LowerChar(s[1])] + ToLower(s[2..]);
    }
  }

  lemma HexValueIgnoresCase(c: char)
    ensures HexValue(LowerChar(c)) == HexValue(c)
  {}

  /** Hex is read in either case. */
  lemma {:induction false} HexDecodeIgnoresCase(s: string)
    ensures HexDecode(ToLower(s)) == HexDecode(s)
  {
    if |s| < 2 {
    } else {
      HexDecodeIgnoresCase(s[2..]);
      HexValueIgnoresCase(s[0]);
      HexValueIgnoresCase(s[1]);
      assert ToLower(s)[2..] == ToLower(s[2..]);
    }
  }

  /** Hex text never starts with "0x", so trimming that prefix leaves it alone. */
  lemma HexHasNoPrefix(bs: seq<byte>)
    ensures TrimPrefix(HexEncode(bs), "0x") == HexEncode(bs)
    ensures TrimPrefix("0x" + HexEncode(bs), "0x") == HexEncode(bs)
  {
    var s := HexEncode(bs);
    assert bs != [] ==> s[1] == HexDigit(bs[0] % 16);
    assert ("0x" + s)[2..] == s;
  }

  lemma {:induction false} HexAvoids(bs: seq<byte>, c: char)
    requires HexValue(c).None?
    ensures c !in HexEncode(bs)
  {
    if bs == [] {
    } else {
      HexAvoids(bs[1..], c);
    }
  }

  // ---------- strconv.FormatInt, strconv.Itoa, strconv.ParseInt in base 10 ----------

  function DigitChar(n: nat): (c: char)
    requires n < 10
    ensures '0' <= c <= '9' && c as int - '0' as int == n
  {
    ('0' as int + n) as char
  }

  predicate IsDigit(c: char) { '0' <= c <= '9' }

  ghost predicate AllDigits(s: string) { forall i :: 0 <= i < |s| ==> IsDigit(s[i]) }

  function FormatDigits(ds: seq<nat>): (s: string)
    requires AllBelow(ds, 10)
    ensures |s| == |ds| && AllDigits(s)
    ensures DigitValues(s) == ds
  {
    seq(|ds|, i requires 0 <= i < |ds| => DigitChar(ds[i]))
  }

  function DigitValues(s: string): (ds: seq<nat>)
    requires AllDigits(s)
    ensures |ds| == |s| && AllBelow(ds, 10)
  {
    seq(|s|, i requires 0 <= i < |s| => s[i] as int - '0' as int)
  }

  function FormatNat(n: nat): (s: string)
    ensures |s| >= 1 && AllDigits(s)
    ensures |s| > 1 ==> s[0] != '0'
  {
    if n == 0 then "0" else FormatDigits(Canon(n, 10))
  }

  function FormatInt(n: int): string {
    if n < 0 then "-" + FormatNat(-n) else FormatNat(n)
  }

  predicate Digits(s: string)
    ensures Digits(s) <==> AllDigits(s)
  {
    s == "" || (IsDigit(s[0]) && Digits(s[1..]))
  }

  function Magnitude(digits: string): nat
    requires AllDigits(digits)
  {
    Eval(DigitValues(digits), 10)
  }

  predicate IsSigned(s: string) { |s| > 0 && (s[0] == '+' || s[0] == '-') }

  predicate IsNegative(s: string) { |s| > 0 && s[0] == '-' }

  /** An optional sign and at least one digit, within 64 bits. */
  function ParseInt(s: string): (r: Option<int>)
    ensures r.Some? ==> MIN_INT64 <= r.value <= MAX_INT64
  {
    var digits := if IsSigned(s) then s[1..] else s;
    if digits == "" || !Digits(digits) then None
    else
      var v := if IsNegative(s) then -(Magnitude(digits) as int) else Magnitude(digits) as int;
      if MIN_INT64 <= v <= MAX_INT64 then Some(v) else None
  }

  lemma FormatNatValue(n: nat)
    ensures Magnitude(FormatNat(n)) == n
  {
    if n == 0 {
      assert DigitValues("0") == [0];
      assert [0][..0] == [];
    } else {
      EvalCanon(n, 10);
    }
  }

  lemma ParseFormatted(n: int)
    requires MIN_INT64 <= n <= MAX_INT64
    ensures ParseInt(FormatInt(n)) == Some(n)
  {
    var m: nat := if n < 0 then -n else n;
    FormatNatValue(m);
    var digits := FormatNat(m);
    assert IsDigit(digits[0]);
    if n < 0 {
      assert FormatInt(n) == "-" + digits;
      assert ("-" + digits)[1..] == digits;
    } else {
      assert FormatInt(n) == digits;
    }
  }

  /** Digits within 64 bits are read as their value, with '+' alike and with '-' negated. */
  lemma ParseSigned(digits: string)
    requires digits != "" && AllDigits(digits)
    ensures var n: int := Magnitude(digits);
      && ParseInt(digits) == (if n <= MAX_INT64 then Some(n) else None)
      && ParseInt("+" + digits) == (if n <= MAX_INT64 then Some(n) else None)
      && ParseInt("-" + digits) == (if -n >= MIN_INT64 then Some(-n) else None)
  {
    assert ("+" + digits)[1..] == digits && ("-" + digits)[1..] == digits;
  }

  /** Parseable text holds nothing but digits and a sign. */
  lemma ParsedAvoids(s: string, c: char)
    requires ParseInt(s).Some? && !IsDigit(c) && c != '+' && c != '-'
    ensures c !in s
  {
    var signed := s[0] == '+' || s[0] == '-';
    if signed {
      assert s == [s[0]] + s[1..];
    }
  }

  lemma FormattedAvoids(n: int, c: char)
    requires !IsDigit(c) && c != '-'
    ensures c !in FormatInt(n)
    ensures |FormatInt(n)| >= 1
  {}
}
