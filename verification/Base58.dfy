/** The Bitcoin-alphabet base58 text of a byte string, as cmd/vaultkey computes it. */
module Base58 {
  import opened GoText
  import opened Positional

  // The alphabet's runs; it leaves out 0, I, O and l.
  const DIGITS: string := "123456789"
  const UPPER_AH: string := "ABCDEFGH"
  const UPPER_JN: string := "JKLMN"
  const UPPER_PZ: string := "PQRSTUVWXYZ"
  const LOWER_AK: string := "abcdefghijk"
  const LOWER_MZ: string := "mnopqrstuvwxyz"
  const ALPHABET: string := DIGITS + UPPER_AH + UPPER_JN + UPPER_PZ + LOWER_AK + LOWER_MZ

  /** The position of c in the alphabet. */
  function SymbolValue(c: char): (r: Option<nat>)
    ensures r.Some? ==> r.value < 58 && Symbol(r.value) == c
  {
    if '1' <= c <= '9' then Some(c as int - '1' as int)
    else if 'A' <= c <= 'H' then Some(c as int - 'A' as int + 9)
    else if 'J' <= c <= 'N' then Some(c as int - 'J' as int + 17)
    else if 'P' <= c <= 'Z' then Some(c as int - 'P' as int + 22)
    else if 'a' <= c <= 'k' then Some(c as int - 'a' as int + 33)
    else if 'm' <= c <= 'z' then Some(c as int - 'm' as int + 44)
    else None
  }

  function Symbol(d: nat): char
    requires d < 58
  {
    if d < 9 then ('1' as int + d) as char
    else if d < 17 then ('A' as int + d - 9) as char
    else if d < 22 then ('J' as int + d - 17) as char
    else if d < 33 then ('P' as int + d - 22) as char
    else if d < 44 then ('a' as int + d - 33) as char
    else ('m' as int + d - 44) as char
  }

  /** A run of the alphabet, one character after the other. */
  ghost predicate IsRunFrom(run: string, first: char) {
    forall k :: 0 <= k < |run| ==> run[k] as int == first as int + k
  }

  lemma Runs()
    ensures |DIGITS| == 9 && IsRunFrom(DIGITS, '1')
    ensures |UPPER_AH| == 8 && IsRunFrom(UPPER_AH, 'A')
    ensures |UPPER_JN| == 5 && IsRunFrom(UPPER_JN, 'J')
    ensures |UPPER_PZ| == 11 && IsRunFrom(UPPER_PZ, 'P')
    ensures |LOWER_AK| == 11 && IsRunFrom(LOWER_AK, 'a')
    ensures |LOWER_MZ| == 14 && IsRunFrom(LOWER_MZ, 'm')
  {}

  /** Six runs of these lengths and starts, put together, list the symbols in order of value. */
  lemma RunsInOrder(a: string, b: string, c: string, d: string, e: string, f: string, k: nat)
    requires |a| == 9 && |b| == 8 && |c| == 5 && |d| == 11 && |e| == 11 && |f| == 14 && k < 58
    requires IsRunFrom(a, '1') && IsRunFrom(b, 'A') && IsRunFrom(c, 'J')
    requires IsRunFrom(d, 'P') && IsRunFrom(e, 'a') && IsRunFrom(f, 'm')
    ensures (a + b + c + d + e + f)[k] == Symbol(k) && SymbolValue(Symbol(k)) == Some(k)
  {
    assert (a + b + c + d + e + f)[k] ==
      if k < 9 then a[k] else if k < 17 then b[k - 9] else if k < 22 then c[k - 17]
      else if k < 33 then d[k - 22] else if k < 44 then e[k - 33] else f[k - 44];
  }

  /** The symbol of each value is the alphabet's character at that index. */
  lemma AlphabetAt(k: nat)
    requires k < 58
    ensures |ALPHABET| == 58 && ALPHABET[k] == Symbol(k) && SymbolValue(ALPHABET[k]) == Some(k)
  {
    Runs();
    RunsInOrder(DIGITS, UPPER_AH, UPPER_JN, UPPER_PZ, LOWER_AK, LOWER_MZ, k);
  }

  lemma AlphabetText()
    ensures ALPHABET == "123456789ABCDEFGHJKLMNPQRSTUVWXYZabcdefghijkmnopqrstuvwxyz"
  {
    assert DIGITS + UPPER_AH == "123456789ABCDEFGH";
    assert DIGITS + UPPER_AH + UPPER_JN == "123456789ABCDEFGHJKLMN";
    assert DIGITS + UPPER_AH + UPPER_JN + UPPER_PZ == "123456789ABCDEFGHJKLMNPQRSTUVWXYZ";
    assert DIGITS + UPPER_AH + UPPER_JN + UPPER_PZ + LOWER_AK == "123456789ABCDEFGHJKLMNPQRSTUVWXYZabcdefghijk";
  }

  function Symbols(ds: seq<nat>): (s: string)
    requires AllBelow(ds, 58)
    ensures |s| == |ds|
  {
    seq(|ds|, i requires 0 <= i < |ds| => Symbol(ds[i]))
  }

  predicate IsBase58(s: string) {
    forall i :: 0 <= i < |s| ==> SymbolValue(s[i]).Some?
  }

  function Values(s: string): (ds: seq<nat>)
    requires IsBase58(s)
    ensures |ds| == |s| && AllBelow(ds, 58)
  {
    seq(|s|, i requires 0 <= i < |s| => SymbolValue(s[i]).value)
  }

  /** Leading zero bytes become leading '1's; the rest is the number in base 58. */
  function Encoding(input: seq<byte>): string {
    Symbols(Rebase(input, 256, 58))
  }

  function Decode(s: string): Option<seq<byte>> {
    if IsBase58(s) then Some(Rebase(Values(s), 58, 256)) else None
  }

  lemma SymbolsRoundTrip(ds: seq<nat>)
    requires AllBelow(ds, 58)
    ensures IsBase58(Symbols(ds)) && Values(Symbols(ds)) == ds
  {}

  lemma ValuesRoundTrip(s: string)
    requires IsBase58(s)
    ensures Symbols(Values(s)) == s
  {
    forall i | 0 <= i < |s| ensures Symbols(Values(s))[i] == s[i] {
      assert SymbolValue(s[i]).Some?;
    }
  }

  /** Decoding an encoding gives the input back, leading zero bytes included. */
  lemma DecodeEncoding(input: seq<byte>)
    ensures Decode(Encoding(input)) == Some(input)
  {
    SymbolsRoundTrip(Rebase(input, 256, 58));
    RebaseRoundTrip(input, 256, 58);
  }

  /** Every string over the alphabet is the encoding of exactly its decoding: encoding is a bijection. */
  lemma EncodeDecoding(s: string)
    requires IsBase58(s)
    ensures Encoding(Decode(s).value) == s
  {
    RebaseRoundTrip(Values(s), 58, 256);
    ValuesRoundTrip(s);
  }

  lemma EncodingInjective(a: seq<byte>, b: seq<byte>)
    requires Encoding(a) == Encoding(b)
    ensures a == b
  {
    DecodeEncoding(a);
    DecodeEncoding(b);
  }

  // ---------- the loops ----------

  function Reverse(s: string): (r: string)
    ensures |r| == |s| && forall i :: 0 <= i < |s| ==> r[i] == s[|s| - 1 - i]
  {
    seq(|s|, i requires 0 <= i < |s| => s[|s| - 1 - i])
  }

  /** Appending a symbol to the buffer is prepending it to the text read backwards. */
  lemma ReverseSnoc(out: string, c: char)
    ensures Reverse(out + [c]) == [c] + Reverse(out)
  {}

  lemma SymbolsSplit(a: seq<nat>, b: seq<nat>)
    requires AllBelow(a + b, 58)
    ensures AllBelow(a, 58) && AllBelow(b, 58)
    ensures Symbols(a + b) == Symbols(a) + Symbols(b)
  {
    assert forall i :: 0 <= i < |a| ==> a[i] == (a + b)[i];
    assert forall i :: 0 <= i < |b| ==> b[i] == (a + b)[|a| + i];
  }

  /** The division loop: least significant symbol first. */
  method DivideDown(value: nat) returns (out: string)
    ensures Reverse(out) == Symbols(Canon(value, 58))
  {
    var x := value;
    out := [];
    while x > 0
      invariant Symbols(Canon(value, 58)) == Symbols(Canon(x, 58)) + Reverse(out)
      decreases x
    {
      DivShrinks(x, 58);
      var mod := x % 58;
      assert Canon(x, 58) == Canon(x / 58, 58) + [mod];
      SymbolsSplit(Canon(x / 58, 58), [mod]);
      AlphabetAt(mod);
      ReverseSnoc(out, ALPHABET[mod]);
      x := x / 58;
      out := out + [ALPHABET[mod]];
    }
  }

  /** The reversal loop, swapping from both ends. */
  method ReverseInPlace(out: array<char>)
    modifies out
    ensures out[..] == Reverse(old(out[..]))
  {
    ghost var was := out[..];
    var i, j := 0, out.Length - 1;
    while i < j
      invariant 0 <= i && j == out.Length - 1 - i && i <= j + 1
      invariant forall m :: i <= m <= j ==> out[m] == was[m]
      invariant forall m :: 0 <= m < i || j < m < out.Length ==> out[m] == was[out.Length - 1 - m]
    {
      out[i], out[j] := out[j], out[i];
      i, j := i + 1, j - 1;
    }
  }

  lemma OneMoreZero(out: string, i: nat)
    ensures |ALPHABET| == 58 && Reverse(out + [ALPHABET[0]]) == [Symbol(0)] + Reverse(out)
    ensures Symbols(Zeros(i + 1)) == [Symbol(0)] + Symbols(Zeros(i))
  {
    AlphabetAt(0);
    ReverseSnoc(out, ALPHABET[0]);
  }

  /** The leading-zero loop: one '1' per leading zero byte. */
  method AppendZeros(input: seq<byte>, buffer: string) returns (out: string)
    ensures Reverse(out) == Symbols(Zeros(LeadingZeros(input))) + Reverse(buffer)
  {
    out := buffer;
    var i := 0;
    while i < |input| && input[i] == 0
      invariant i <= |input|
      invariant forall k :: 0 <= k < i ==> input[k] == 0
      invariant Reverse(out) == Symbols(Zeros(i)) + Reverse(buffer)
    {
      OneMoreZero(out, i);
      out := out + [ALPHABET[0]];
      i := i + 1;
    }
    CountedZeros(input, i);
  }

  method Base58Encode(input: seq<byte>) returns (text: string)
    ensures text == Encoding(input)
    ensures Decode(text) == Some(input)
  {
    var x := Eval(input, 256);
    var out := DivideDown(x);
    out := AppendZeros(input, out);
    var buffer := new char[|out|](i requires 0 <= i < |out| => out[i]);
    assert buffer[..] == out;
    ReverseInPlace(buffer);
    text := buffer[..];
    SymbolsSplit(Zeros(LeadingZeros(input)), Canon(x, 58));
    DecodeEncoding(input);
  }

  lemma {:induction false} CountedZeros(ds: seq<nat>, i: nat)
    requires i <= |ds| && (forall k :: 0 <= k < i ==> ds[k] == 0) && (i < |ds| ==> ds[i] != 0)
    ensures LeadingZeros(ds) == i
  {
    if i == 0 {
    } else {
      CountedZeros(ds[1..], i - 1);
    }
  }
}
