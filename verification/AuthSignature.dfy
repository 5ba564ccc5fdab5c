/**
 verifySignature, the server's check of an authentication request, and the command-line client that
 produces such requests. Point parsing, SHA-256, ECDSA and DER are parameters constrained by laws.
 */
module AuthSignature {
  import opened GoText
  import opened Positional
  import opened Bip32
  import ReapMapping

  datatype Scheme<!P, !S> = Scheme(
    curve: Primitives<P>,
    parsePoint: seq<byte> -> Option<P>,
    sha256: string -> seq<byte>,
    sign: (nat, seq<byte>) -> S,
    verify: (S, seq<byte>, P) -> bool,
    der: S -> seq<byte>,
    parseDer: seq<byte> -> Option<S>)

  /** Serialized keys and signatures parse back, and a signature verifies under its own key. */
  ghost predicate LawfulScheme<P(!new), S(!new)>(sc: Scheme<P, S>) {
    var c := sc.curve;
    && Lawful(c)
    && (forall k: nat :: 0 < k < c.n ==> sc.parsePoint(c.serialize(c.baseMul(k))) == Some(c.baseMul(k)))
    && (forall k: nat, h :: 0 < k < c.n ==> sc.parseDer(sc.der(sc.sign(k, h))) == Some(sc.sign(k, h)))
    && (forall k: nat, h :: 0 < k < c.n ==> sc.verify(sc.sign(k, h), h, c.baseMul(k)))
  }

  function Unhex(s: string): Option<seq<byte>> {
    HexDecode(TrimPrefix(s, "0x"))
  }

  function VerifySignature<P, S>(sc: Scheme<P, S>, publicKey: string, chainCodeHex: string, nonce: int64,
                                 signatureHex: string): bool
  {
    var pubKeyBytes := Unhex(publicKey);
    if pubKeyBytes.None? then false
    else
      var rootPubKey := sc.parsePoint(pubKeyBytes.value);
      if rootPubKey.None? then false
      else
        var chainCode := Unhex(chainCodeHex);
        if chainCode.None? || |chainCode.value| != 32 then false
        else
          var ethKey := DerivePublic(sc.curve, PublicKey(rootPubKey.value, chainCode.value), ETH_PATH);
          if ethKey.Err? then false
          else
            var sigBytes := Unhex(signatureHex);
            if sigBytes.None? then false
            else
              var sig := sc.parseDer(sigBytes.value);
              sig.Some? && sc.verify(sig.value, sc.sha256(FormatInt(nonce)), ethKey.value.point)
  }

  /** A verified request carries a chain code of exactly 32 bytes of hex. */
  lemma VerifiedChainCode<P, S>(sc: Scheme<P, S>, publicKey: string, chainCodeHex: string, nonce: int64,
                                signatureHex: string)
    requires VerifySignature(sc, publicKey, chainCodeHex, nonce, signatureHex)
    ensures ReapMapping.AcceptedChainCode(chainCodeHex)
  {}

  /** The verdict sees the chain code's bytes only: how its hex is written does not matter. */
  lemma VerdictIgnoresSpelling<P, S>(sc: Scheme<P, S>, publicKey: string, cc: string, dd: string, nonce: int64,
                                     signatureHex: string)
    requires ReapMapping.AcceptedChainCode(cc) && ReapMapping.AcceptedChainCode(dd)
    requires ReapMapping.NormalizeChainCode(cc) == ReapMapping.NormalizeChainCode(dd)
    ensures VerifySignature(sc, publicKey, cc, nonce, signatureHex)
         == VerifySignature(sc, publicKey, dd, nonce, signatureHex)
  {
    var a, b := TrimPrefix(cc, "0x"), TrimPrefix(dd, "0x");
    HexDecodeIsUpToCase(a);
    HexDecodeIsUpToCase(b);
    HexRoundTrip(HexDecode(a).value);
    HexRoundTrip(HexDecode(b).value);
  }

  /** The body vaultkey prints for POST /auth: keys derived privately, the nonce signed with the ETH key. */
  datatype AuthBody = AuthBody(publicKey: string, chainCode: string, nonce: int64, signature: string)

  function ClientBody<P, S>(sc: Scheme<P, S>, root: PrivateKey, eth: PrivateKey, nonce: int64): AuthBody {
    var signature := sc.sign(eth.key, sc.sha256(FormatInt(nonce)));
    AuthBody(
      HexEncode(sc.curve.serialize(sc.curve.baseMul(root.key))),
      HexEncode(root.chainCode),
      nonce,
      HexEncode(sc.der(signature)))
  }

  function WithPrefix(hex: string, prefixed: bool): string {
    if prefixed then "0x" + hex else hex
  }

  lemma UnhexEncoded(bs: seq<byte>, prefixed: bool)
    ensures Unhex(WithPrefix(HexEncode(bs), prefixed)) == Some(bs)
  {
    HexHasNoPrefix(bs);
    HexRoundTrip(bs);
  }

  /**
   Every request the client can produce is accepted: whenever private derivation of the ETH key
   succeeds, the server, deriving publicly from the root key alone, verifies the signature, with or
   without "0x" on any of the three hex fields.
   */
  lemma ClientRequestVerifies<P(!new), S(!new)>(sc: Scheme<P, S>, root: PrivateKey, nonce: int64,
                                                p1: bool, p2: bool, p3: bool)
    requires LawfulScheme(sc)
    requires 0 < root.key < sc.curve.n && |root.chainCode| == 32
    requires DerivePrivate(sc.curve, root, ETH_PATH).Ok?
    ensures var body := ClientBody(sc, root, DerivePrivate(sc.curve, root, ETH_PATH).value, nonce);
      VerifySignature(sc, WithPrefix(body.publicKey, p1), WithPrefix(body.chainCode, p2), nonce,
                      WithPrefix(body.signature, p3))
  {
    var eth := DerivePrivate(sc.curve, root, ETH_PATH).value;
    var signature := sc.sign(eth.key, sc.sha256(FormatInt(nonce)));
    DerivationCommutes(sc.curve, root, ETH_PATH);
    UnhexEncoded(sc.curve.serialize(sc.curve.baseMul(root.key)), p1);
    UnhexEncoded(root.chainCode, p2);
    UnhexEncoded(sc.der(signature), p3);
  }

  // ---------- what an accepted signature is ----------

  /** The text is the hex of a signature that the scalar's public key verifies for the nonce's decimal text. */
  ghost predicate SignedBy<P, S>(sc: Scheme<P, S>, scalar: nat, nonce: int64, signatureHex: string) {
    var bytes := HexDecode(TrimPrefix(signatureHex, "0x"));
    && bytes.Some?
    && sc.parseDer(bytes.value).Some?
    && sc.verify(sc.parseDer(bytes.value).value, sc.sha256(FormatInt(nonce)), sc.curve.baseMul(scalar))
  }

  /** The request names root's public key and chain code, with or without "0x". */
  ghost predicate NamesRoot<P, S>(sc: Scheme<P, S>, root: PrivateKey, publicKey: string, chainCodeHex: string) {
    && 0 < root.key < sc.curve.n && |root.chainCode| == 32
    && (publicKey == HexEncode(sc.curve.serialize(sc.curve.baseMul(root.key)))
        || publicKey == "0x" + HexEncode(sc.curve.serialize(sc.curve.baseMul(root.key))))
    && (chainCodeHex == HexEncode(root.chainCode) || chainCodeHex == "0x" + HexEncode(root.chainCode))
  }

  /**
   For a root key whose key at m/44/60/0/0/0 exists, a request with that root's public key and chain
   code is verified exactly when it carries a signature of the nonce by that derived key.
   */
  lemma VerifiedExactly<P(!new), S(!new)>(sc: Scheme<P, S>, root: PrivateKey, publicKey: string, chainCodeHex: string,
                                          nonce: int64, signatureHex: string)
    requires LawfulScheme(sc) && NamesRoot(sc, root, publicKey, chainCodeHex)
    requires DerivePrivate(sc.curve, root, [44, 60, 0, 0, 0]).Ok?
    ensures VerifySignature(sc, publicKey, chainCodeHex, nonce, signatureHex)
       <==> SignedBy(sc, DerivePrivate(sc.curve, root, [44, 60, 0, 0, 0]).value.key, nonce, signatureHex)
  {
    DerivationCommutes(sc.curve, root, ETH_PATH);
    var key := sc.curve.serialize(sc.curve.baseMul(root.key));
    UnhexEncoded(key, false);
    UnhexEncoded(key, true);
    UnhexEncoded(root.chainCode, false);
    UnhexEncoded(root.chainCode, true);
  }

  /** Whatever the key, a verified request has one that parses, 32 bytes of chain code, and derives publicly. */
  lemma VerifiedDerives<P, S>(sc: Scheme<P, S>, publicKey: string, chainCodeHex: string, nonce: int64,
                                signatureHex: string)
    requires VerifySignature(sc, publicKey, chainCodeHex, nonce, signatureHex)
    ensures var key, code := HexDecode(TrimPrefix(publicKey, "0x")), HexDecode(TrimPrefix(chainCodeHex, "0x"));
      && key.Some? && sc.parsePoint(key.value).Some?
      && code.Some? && |code.value| == 32
      && DerivePublic(sc.curve, PublicKey(sc.parsePoint(key.value).value, code.value), [44, 60, 0, 0, 0]).Ok?
  {}

  // ---------- the laws are consistent ----------

  /** A signature that says which key signed which hash. */
  datatype PlainSignature = PlainSignature(key: nat, hash: seq<byte>)

  /** The key's digits, counted by as many ones and a zero, then the hash. */
  function PlainDer(s: PlainSignature): seq<byte> {
    var digits: seq<byte> := Canon(s.key, 256);
    var ones: seq<byte> := seq(|digits|, i => 1);
    ones + [0] + digits + s.hash
  }

  function CountOnes(bs: seq<byte>): (n: nat)
    ensures n <= |bs|
  {
    if bs != [] && bs[0] == 1 then 1 + CountOnes(bs[1..]) else 0
  }

  function PlainParse(bs: seq<byte>): Option<PlainSignature> {
    var n := CountOnes(bs);
    if 2 * n + 1 > |bs| then None
    else Some(PlainSignature(Eval(bs[n + 1..2 * n + 1], 256), bs[2 * n + 1..]))
  }

  lemma {:induction false} CountOnesOf(ones: seq<byte>, rest: seq<byte>)
    requires (forall i :: 0 <= i < |ones| ==> ones[i] == 1) && rest != [] && rest[0] != 1
    ensures CountOnes(ones + rest) == |ones|
  {
    if ones == [] {
      assert ones + rest == rest;
    } else {
      CountOnesOf(ones[1..], rest);
      assert (ones + rest)[1..] == ones[1..] + rest;
    }
  }

  lemma PlainRoundTrip(s: PlainSignature)
    ensures PlainParse(PlainDer(s)) == Some(s)
  {
    var digits: seq<byte> := Canon(s.key, 256);
    var ones: seq<byte> := seq(|digits|, i => 1);
    var rest := [0] + digits + s.hash;
    var n, all := |digits|, PlainDer(s);
    assert all == ones + rest;
    CountOnesOf(ones, rest);
    assert all[n + 1..2 * n + 1] == digits && all[2 * n + 1..] == s.hash;
    EvalCanon(s.key, 256);
  }

  /** The bytes of a decimal text. */
  function PlainHash(s: string): seq<byte> {
    seq(|s|, i requires 0 <= i < |s| => s[i] as int % 256)
  }

  /** Over the integers modulo n; a signature is verified under the key it names, for the hash it names. */
  function ZmodScheme(n: nat): Scheme<int, PlainSignature>
    requires n >= 2
  {
    Scheme(
      ZmodInstance(n),
      (bs: seq<byte>) => Some(Eval(bs, 256)),
      PlainHash,
      (k: nat, h: seq<byte>) => PlainSignature(k, h),
      (s: PlainSignature, h: seq<byte>, p: int) => s.key == p && s.hash == h,
      PlainDer,
      PlainParse)
  }

  lemma ZmodSchemeIsLawful(n: nat)
    requires n >= 2
    ensures LawfulScheme(ZmodScheme(n))
  {
    ZmodIsLawful(n);
    var sc := ZmodScheme(n);
    forall k: nat | 0 < k < n
      ensures sc.parsePoint(sc.curve.serialize(sc.curve.baseMul(k))) == Some(sc.curve.baseMul(k))
    {
      EvalCanon(k, 256);
    }
    forall k: nat, h: seq<byte> | 0 < k < n
      ensures sc.parseDer(sc.der(sc.sign(k, h))) == Some(sc.sign(k, h))
    {
      PlainRoundTrip(PlainSignature(k, h));
    }
  }

  lemma PlainHashOfText(a: string, b: string)
    requires PlainHash(a) == PlainHash(b)
    requires forall i :: 0 <= i < |a| ==> a[i] as int < 128
    requires forall i :: 0 <= i < |b| ==> b[i] as int < 128
    ensures a == b
  {
    assert |a| == |PlainHash(a)| && |b| == |PlainHash(b)|;
    forall i | 0 <= i < |a| ensures a[i] == b[i] {
      assert PlainHash(a)[i] == PlainHash(b)[i];
    }
  }

  /** Decimal texts of different nonces have different hashes there. */
  lemma PlainHashInjective(m: int64, n: int64)
    requires PlainHash(FormatInt(m)) == PlainHash(FormatInt(n))
    ensures m == n
  {
    FormattedIsAscii(m);
    FormattedIsAscii(n);
    PlainHashOfText(FormatInt(m), FormatInt(n));
    ParseFormatted(m);
    ParseFormatted(n);
  }

  lemma FormattedIsAscii(n: int)
    ensures forall i :: 0 <= i < |FormatInt(n)| ==> FormatInt(n)[i] as int < 128
  {}

  /** In that scheme a signature is accepted exactly if the derived key made it for this very nonce. */
  lemma OtherSignatureRefused(n: nat, root: PrivateKey, publicKey: string, chainCodeHex: string, nonce: int64,
                              signer: nat, signed: int64)
    requires n >= 2 && NamesRoot(ZmodScheme(n), root, publicKey, chainCodeHex)
    requires DerivePrivate(ZmodScheme(n).curve, root, [44, 60, 0, 0, 0]).Ok?
    ensures var sc := ZmodScheme(n);
      LawfulScheme(sc) &&
      (VerifySignature(sc, publicKey, chainCodeHex, nonce,
                       HexEncode(sc.der(sc.sign(signer, sc.sha256(FormatInt(signed))))))
       <==> signer == DerivePrivate(sc.curve, root, [44, 60, 0, 0, 0]).value.key && signed == nonce)
  {
    var sc := ZmodScheme(n);
    ZmodSchemeIsLawful(n);
    var signature := sc.sign(signer, sc.sha256(FormatInt(signed)));
    var text := HexEncode(sc.der(signature));
    VerifiedExactly(sc, root, publicKey, chainCodeHex, nonce, text);
    UnhexEncoded(sc.der(signature), false);
    PlainRoundTrip(signature);
    DerivationCommutes(sc.curve, root, [44, 60, 0, 0, 0]);
    ZmodIsLawful(n);
    if PlainHash(FormatInt(signed)) == PlainHash(FormatInt(nonce)) {
      PlainHashInjective(signed, nonce);
    }
  }
}
