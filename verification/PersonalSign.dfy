/** The EIP-191 (version 0x45) preimage of personalSignHash and the EIP-55 address checksum. */
module PersonalSign {
  import opened GoText
  import opened Positional

  const PREFIX: string := "\U{19}Ethereum Signed Message:\n"

  /** What is hashed: the decimal length runs straight into the message. */
  function Preimage(msg: string): string {
    PREFIX + FormatNat(|msg|) + msg
  }

  /**
   The preimage is the byte 0x19, the text up to its newline, the length in decimal digits, and the
   message.
   */
  lemma PreimageIs(msg: string)
    ensures var p, digits := Preimage(msg), FormatNat(|msg|);
      && |p| == 26 + |digits| + |msg|
      && p[0] as int == 0x19 && p[1..25] == "Ethereum Signed Message:" && p[25] == '\n'
      && p[26..26 + |digits|] == digits && Magnitude(digits) == |msg|
      && p[26 + |digits|..] == msg
  {
    FormatNatValue(|msg|);
    PrefixIs(PREFIX);
    var p, digits := Preimage(msg), FormatNat(|msg|);
    assert p[..26] == PREFIX;
    assert p[1..25] == p[..26][1..25];
  }

  lemma PrefixIs(prefix: string)
    requires prefix == PREFIX
    ensures |prefix| == 26 && prefix[0] as int == 0x19 && prefix[25] == '\n'
    ensures prefix[1..25] == "Ethereum Signed Message:"
  {
    var text := "Ethereum Signed Message:";
    assert |text| == 24 && |prefix| == 26;
    forall i | 0 <= i < 24 ensures prefix[1..25][i] == text[i] {
      assert prefix[1..25][i] == prefix[1 + i];
    }
  }

  lemma {:induction false} DigitCountGrows(m: nat, n: nat)
    requires m <= n
    ensures |Canon(m, 10)| <= |Canon(n, 10)|
    decreases n
  {
    if m == 0 {
    } else {
      DivShrinks(n, 10);
      DigitCountGrows(m / 10, n / 10);
    }
  }

  /** A longer message has a longer preimage: the length's digits never shrink. */
  lemma PreimageLengthGrows(a: string, b: string)
    requires |a| < |b|
    ensures |Preimage(a)| < |Preimage(b)|
  {
    DigitCountGrows(|a|, |b|);
    assert |a| == 0 ==> |FormatNat(|b|)| >= 1;
  }

  /** No message's preimage is another's, although no separator follows the length. */
  lemma PreimageInjective(a: string, b: string)
    requires Preimage(a) == Preimage(b)
    ensures a == b
  {
    if |a| < |b| {
      PreimageLengthGrows(a, b);
    } else if |b| < |a| {
      PreimageLengthGrows(b, a);
    }
    var n := |Preimage(a)| - |a|;
    assert Preimage(a)[n..] == a;
    assert Preimage(b)[n..] == b;
  }

  predicate IsLowerHexLetter(c: char) { 'a' <= c <= 'f' }

  /** An address digit is raised exactly when it is a letter and the hash digit is 8 or more. */
  ghost predicate IsChecksumOf(r: string, addr: string, hash: string)
    requires |hash| >= |addr|
  {
    && |r| == |addr|
    && forall i :: 0 <= i < |addr| ==>
         (if IsLowerHexLetter(addr[i]) && hash[i] >= '8' then 'A' <= r[i] <= 'F' && LowerChar(r[i]) == addr[i]
          else r[i] == addr[i])
  }

  /** The checksum loop. */
  method Checksum(addrHex: string, hashHex: string) returns (r: string)
    requires |hashHex| >= |addrHex|
    ensures IsChecksumOf(r, addrHex, hashHex)
  {
    var checksummed := new char[|addrHex|](i requires 0 <= i < |addrHex| => '0');
    for i := 0 to |addrHex|
      invariant forall k :: 0 <= k < i ==>
        if IsLowerHexLetter(addrHex[k]) && hashHex[k] >= '8'
        then 'A' <= checksummed[k] <= 'F' && LowerChar(checksummed[k]) == addrHex[k]
        else checksummed[k] == addrHex[k]
    {
      var c := addrHex[i];
      if 'a' <= c <= 'f' && hashHex[i] >= '8' {
        checksummed[i] := (c as int - 32) as char;
      } else {
        checksummed[i] := c;
      }
    }
    r := checksummed[..];
  }

  /** Lowering undoes the raising of letters. */
  lemma ChecksumLowers(r: string, addrHex: string, hash: string)
    requires |hash| >= |addrHex| && IsChecksumOf(r, addrHex, hash) && ToLower(addrHex) == addrHex
    ensures ToLower(r) == addrHex
  {
    forall i | 0 <= i < |r| ensures ToLower(r)[i] == addrHex[i] {
      assert ToLower(addrHex)[i] == LowerChar(addrHex[i]);
    }
  }

  /** Raising letters loses nothing: the bytes can be read back. */
  lemma ChecksumReadsBack(r: string, addr: seq<byte>, hash: string)
    requires |hash| >= 2 * |addr| && IsChecksumOf(r, HexEncode(addr), hash)
    ensures HexDecode(ToLower(r)) == Some(addr)
  {
    HexIsLower(addr);
    ChecksumLowers(r, HexEncode(addr), hash);
    HexRoundTrip(addr);
  }

  /** The bytes of ASCII text. */
  function Bytes(s: string): (bs: seq<byte>)
    ensures |bs| == |s|
  {
    seq(|s|, i requires 0 <= i < |s| => s[i] as int % 256)
  }

  /**
   ethAddress of an uncompressed public key: the last 20 bytes of the Keccak hash of the key without
   its first byte, as hex text whose letters are raised by the hash of that text.
   */
  method EthAddress(serialized: seq<byte>, keccak: seq<byte> -> seq<byte>) returns (text: string)
    requires |serialized| == 65 && forall data :: |keccak(data)| == 32
    ensures var addr := keccak(serialized[1..])[12..];
      && |text| == 42 && text[..2] == "0x"
      && IsChecksumOf(text[2..], HexEncode(addr), HexEncode(keccak(Bytes(HexEncode(addr)))))
      && HexDecode(ToLower(text[2..])) == Some(addr)
  {
    var addr := keccak(serialized[1..])[12..];
    var addrHex := HexEncode(addr);
    var hashHex := HexEncode(keccak(Bytes(addrHex)));
    var r := Checksum(addrHex, hashHex);
    ChecksumReadsBack(r, addr, hashHex);
    text := "0x" + r;
    assert text[2..] == r;
  }

  /** Encoded hex is lowercase already. */
  lemma HexIsLower(bs: seq<byte>)
    ensures ToLower(HexEncode(bs)) == HexEncode(bs)
  {
    HexRoundTrip(bs);
    HexDecodeIsUpToCase(HexEncode(bs));
  }
}
