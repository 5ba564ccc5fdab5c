/**
 Unhardened BIP-0032 derivation ("Child key derivation (CKD) functions"). The curve, HMAC-SHA512 and
 point serialization are parameters constrained by laws; ZmodInstance shows the laws consistent.
 A point equal to the identity is what the affine pair (0, 0) stands for in the Go library.
 */
module Bip32 {
  import opened GoText
  import opened Positional

  const HARDENED_OFFSET: nat := 0x8000_0000

  type uint32 = x: nat | x < 0x1_0000_0000

  const ETH_PATH: seq<uint32> := [44, 60, 0, 0, 0]

  /** n is the group order, baseMul(k) is k times the generator. */
  datatype Primitives<!P> = Primitives(
    n: nat,
    baseMul: nat -> P,
    add: (P, P) -> P,
    serialize: P -> seq<byte>,
    hmac512: (seq<byte>, seq<byte>) -> seq<byte>)

  /** Scalar multiplication of the generator is a faithful homomorphism, and HMAC yields 64 bytes. */
  ghost predicate Lawful<P(!new)>(c: Primitives<P>) {
    && c.n >= 2
    && (forall a: nat, b: nat :: a < c.n && b < c.n ==> c.add(c.baseMul(a), c.baseMul(b)) == c.baseMul((a + b) % c.n))
    && (forall a: nat, b: nat :: a < c.n && b < c.n && c.baseMul(a) == c.baseMul(b) ==> a == b)
    && (forall key, data :: |c.hmac512(key, data)| == 64)
  }

  ghost function Identity<P>(c: Primitives<P>): P {
    c.baseMul(0)
  }

  datatype PrivateKey = PrivateKey(key: nat, chainCode: seq<byte>)
  datatype PublicKey<P> = PublicKey(point: P, chainCode: seq<byte>)

  datatype DeriveError = Hardened | InvalidDerivedKey
  datatype Result<+T> = Ok(value: T) | Err(error: DeriveError)

  /** A scalar is in range; 0 is possible for a master key, as nothing rejects it. */
  ghost predicate InRange<P>(c: Primitives<P>, k: PrivateKey) {
    k.key < c.n
  }

  function Neuter<P>(c: Primitives<P>, k: PrivateKey): PublicKey<P> {
    PublicKey(c.baseMul(k.key), k.chainCode)
  }

  function BigEndian32(x: uint32): (bs: seq<byte>)
    ensures |bs| == 4
  {
    [x / 0x100_0000, x / 0x1_0000 % 0x100, x / 0x100 % 0x100, x % 0x100]
  }

  /** HMAC of the serialized point and the index: 32 bytes of tweak, 32 bytes of chain code. */
  function Digest<P>(c: Primitives<P>, point: P, chainCode: seq<byte>, index: uint32): seq<byte> {
    c.hmac512(chainCode, c.serialize(point) + BigEndian32(index))
  }

  function Left(sum: seq<byte>): nat {
    Eval(if |sum| >= 32 then sum[..32] else sum, 256)
  }

  function Right(sum: seq<byte>): seq<byte> {
    if |sum| >= 32 then sum[32..] else []
  }

  function ChildPrivate<P>(c: Primitives<P>, k: PrivateKey, index: uint32): Result<PrivateKey>
    requires c.n > 0
  {
    if index >= HARDENED_OFFSET then Err(Hardened)
    else
      var sum := Digest(c, c.baseMul(k.key), k.chainCode, index);
      var il := Left(sum);
      if il >= c.n || il == 0 then Err(InvalidDerivedKey)
      else
        var child := (il + k.key) % c.n;
        if child == 0 then Err(InvalidDerivedKey) else Ok(PrivateKey(child, Right(sum)))
  }

  /** The sum of points is not checked for the identity. */
  function ChildPublic<P>(c: Primitives<P>, k: PublicKey<P>, index: uint32): Result<PublicKey<P>> {
    if index >= HARDENED_OFFSET then Err(Hardened)
    else
      var sum := Digest(c, k.point, k.chainCode, index);
      var il := Left(sum);
      if il >= c.n || il == 0 then Err(InvalidDerivedKey)
      else Ok(PublicKey(c.add(c.baseMul(il), k.point), Right(sum)))
  }

  function DerivePrivate<P>(c: Primitives<P>, k: PrivateKey, path: seq<uint32>): Result<PrivateKey>
    requires c.n > 0
    decreases |path|
  {
    if path == [] then Ok(k)
    else
      var child := ChildPrivate(c, k, path[0]);
      if child.Err? then child else DerivePrivate(c, child.value, path[1..])
  }

  function DerivePublic<P>(c: Primitives<P>, k: PublicKey<P>, path: seq<uint32>): Result<PublicKey<P>>
    decreases |path|
  {
    if path == [] then Ok(k)
    else
      var child := ChildPublic(c, k, path[0]);
      if child.Err? then child else DerivePublic(c, child.value, path[1..])
  }

  // ---------- the loops ----------

  /** DerivePath on a private key: walks the path from k, leaving k alone. */
  method DerivePathPrivate<P>(c: Primitives<P>, k: PrivateKey, path: seq<uint32>) returns (r: Result<PrivateKey>)
    requires c.n > 0
    ensures r == DerivePrivate(c, k, path)
  {
    var cur := k;
    for i := 0 to |path|
      invariant DerivePrivate(c, k, path) == DerivePrivate(c, cur, path[i..])
    {
      assert path[i..][1..] == path[i + 1..];
      var next := ChildPrivate(c, cur, path[i]);
      if next.Err? {
        return next;
      }
      cur := next.value;
    }
    r := Ok(cur);
  }

  method DerivePathPublic<P>(c: Primitives<P>, k: PublicKey<P>, path: seq<uint32>) returns (r: Result<PublicKey<P>>)
    ensures r == DerivePublic(c, k, path)
  {
    var cur := k;
    for i := 0 to |path|
      invariant DerivePublic(c, k, path) == DerivePublic(c, cur, path[i..])
    {
      assert path[i..][1..] == path[i + 1..];
      var next := ChildPublic(c, cur, path[i]);
      if next.Err? {
        return next;
      }
      cur := next.value;
    }
    r := Ok(cur);
  }

  // ---------- commutation ----------

  /** Is this step's tweak the negation of the parent scalar? */
  ghost predicate CancelsAt<P>(c: Primitives<P>, k: PrivateKey, index: uint32) {
    Left(Digest(c, c.baseMul(k.key), k.chainCode, index)) + k.key == c.n
  }

  /** Does private derivation along path reach a key whose next tweak cancels it? */
  ghost predicate CancelsOnPath<P>(c: Primitives<P>, k: PrivateKey, path: seq<uint32>)
    requires c.n > 0
    decreases |path|
  {
    path != [] &&
    (CancelsAt(c, k, path[0]) ||
     (ChildPrivate(c, k, path[0]).Ok? && CancelsOnPath(c, ChildPrivate(c, k, path[0]).value, path[1..])))
  }

  lemma SumModulo(a: nat, b: nat, n: nat)
    requires 0 < a < n && b < n
    ensures (a + b) % n == if a + b >= n then a + b - n else a + b
    ensures (a + b) % n == 0 <==> a + b == n
  {
    if a + b >= n {
      DivModUnique(1, n, a + b - n);
    } else {
      DivModUnique(0, n, a + b);
    }
  }

  /** One level: both fail alike, both succeed alike, or the tweak cancels the key. */
  lemma ChildCommutes<P(!new)>(c: Primitives<P>, k: PrivateKey, index: uint32)
    requires Lawful(c) && InRange(c, k)
    ensures var private, public := ChildPrivate(c, k, index), ChildPublic(c, Neuter(c, k), index);
      && (private.Ok? ==> InRange(c, private.value) && private.value.key != 0
                          && public == Ok(Neuter(c, private.value)))
      && (public.Err? ==> private == Err(public.error))
      && (private.Err? && public.Ok? <==> public.Ok? && CancelsAt(c, k, index))
      && (private.Err? && public.Ok? ==> public.value.point == Identity(c))
      && (private.Ok? ==> public.value.point != Identity(c))
  {
    var il := Left(Digest(c, c.baseMul(k.key), k.chainCode, index));
    if 0 < il < c.n {
      SumModulo(il, k.key, c.n);
    }
  }

  /** Private success is public success with the matching key and chain code. */
  lemma {:induction false} DerivationCommutes<P(!new)>(c: Primitives<P>, k: PrivateKey, path: seq<uint32>)
    requires Lawful(c) && InRange(c, k)
    requires DerivePrivate(c, k, path).Ok?
    ensures DerivePublic(c, Neuter(c, k), path) == Ok(Neuter(c, DerivePrivate(c, k, path).value))
    ensures InRange(c, DerivePrivate(c, k, path).value)
    ensures path != [] ==> DerivePrivate(c, k, path).value.key != 0
    decreases |path|
  {
    if path == [] {
    } else {
      ChildCommutes(c, k, path[0]);
      DerivationCommutes(c, ChildPrivate(c, k, path[0]).value, path[1..]);
    }
  }

  /**
   Private derivation succeeds exactly when public derivation does and no step's tweak is the
   negation of the parent scalar; a public failure is a private failure with the same error.
   */
  lemma {:induction false} DerivationAgreement<P(!new)>(c: Primitives<P>, k: PrivateKey, path: seq<uint32>)
    requires Lawful(c) && InRange(c, k)
    ensures DerivePrivate(c, k, path).Ok?
       <==> DerivePublic(c, Neuter(c, k), path).Ok? && !CancelsOnPath(c, k, path)
    ensures DerivePublic(c, Neuter(c, k), path).Err? && !CancelsOnPath(c, k, path) ==>
      DerivePrivate(c, k, path) == Err(DerivePublic(c, Neuter(c, k), path).error)
    decreases |path|
  {
    if path == [] {
    } else {
      ChildCommutes(c, k, path[0]);
      var child := ChildPrivate(c, k, path[0]);
      if child.Ok? {
        DerivationAgreement(c, child.value, path[1..]);
      }
    }
  }

  /** Does public derivation along path pass through the identity? */
  ghost predicate MeetsIdentity<P>(c: Primitives<P>, k: PublicKey<P>, path: seq<uint32>)
    decreases |path|
  {
    path != [] && ChildPublic(c, k, path[0]).Ok? &&
    var child := ChildPublic(c, k, path[0]).value;
    child.point == Identity(c) || MeetsIdentity(c, child, path[1..])
  }

  /** The same condition as the public side sees it: no intermediate or final point is the identity. */
  lemma {:induction false} AgreementFromPublicSide<P(!new)>(c: Primitives<P>, k: PrivateKey, path: seq<uint32>)
    requires Lawful(c) && InRange(c, k)
    ensures DerivePrivate(c, k, path).Ok?
       <==> DerivePublic(c, Neuter(c, k), path).Ok? && !MeetsIdentity(c, Neuter(c, k), path)
    decreases |path|
  {
    if path == [] {
    } else {
      ChildCommutes(c, k, path[0]);
      var child := ChildPrivate(c, k, path[0]);
      if child.Ok? {
        AgreementFromPublicSide(c, child.value, path[1..]);
      }
    }
  }

  /** Deriving along a + b is deriving along a, then along b. */
  lemma {:induction false} PathsCompose<P>(c: Primitives<P>, k: PublicKey<P>, a: seq<uint32>, b: seq<uint32>)
    ensures DerivePublic(c, k, a + b)
         == if DerivePublic(c, k, a).Ok? then DerivePublic(c, DerivePublic(c, k, a).value, b)
            else DerivePublic(c, k, a)
    decreases |a|
  {
    if a == [] {
      assert a + b == b;
    } else {
      assert (a + b)[1..] == a[1..] + b;
      var child := ChildPublic(c, k, a[0]);
      if child.Ok? {
        PathsCompose(c, child.value, a[1..], b);
      }
    }
  }

  // ---------- the children in terms of the HMAC ----------

  lemma EvalFour(bs: seq<nat>)
    requires |bs| == 4
    ensures Eval(bs, 256) == ((bs[0] * 256 + bs[1]) * 256 + bs[2]) * 256 + bs[3]
  {
    assert bs[..3][..2][..1] == [bs[0]] && bs[..3][..2] == [bs[0], bs[1]];
    assert bs[..3] == [bs[0], bs[1], bs[2]];
    assert [bs[0]][..0] == [];
    assert Eval([bs[0]], 256) == bs[0];
    assert Eval([bs[0], bs[1]], 256) == bs[0] * 256 + bs[1];
    assert Eval([bs[0], bs[1], bs[2]], 256) == (bs[0] * 256 + bs[1]) * 256 + bs[2];
  }

  lemma BigEndianOf(a: nat, b: nat, c: nat, d: nat, index: uint32)
    requires a < 256 && b < 256 && c < 256 && d < 256
    requires index == ((a * 256 + b) * 256 + c) * 256 + d
    ensures BigEndian32(index) == [a, b, c, d]
  {
    DivModUnique(a, 0x100_0000, (b * 256 + c) * 256 + d);
    DivModUnique(a * 256 + b, 0x1_0000, c * 256 + d);
    DivModUnique((a * 256 + b) * 256 + c, 0x100, d);
    DivModUnique(a, 0x100, b);
    DivModUnique(a * 256 + b, 0x100, c);
  }

  /** Four bytes are the big-endian text of their value. */
  lemma FourBytes(bs: seq<byte>, index: uint32)
    requires |bs| == 4 && Eval(bs, 256) == index
    ensures bs == BigEndian32(index)
  {
    EvalFour(bs);
    BigEndianOf(bs[0], bs[1], bs[2], bs[3], index);
    assert bs == [bs[0], bs[1], bs[2], bs[3]];
  }

  /**
   The private child at index, with h the HMAC-SHA512 under the chain code of the serialized public
   key and the index in four big-endian bytes: the first 32 bytes of h, as a number that must be in
   1..n - 1, are added to the key, a zero sum is refused, and the last 32 bytes are the chain code.
   */
  lemma ChildPrivateIs<P>(c: Primitives<P>, k: PrivateKey, index: uint32, bs: seq<byte>, h: seq<byte>)
    requires c.n > 0 && |bs| == 4 && Eval(bs, 256) == index
    requires h == c.hmac512(k.chainCode, c.serialize(c.baseMul(k.key)) + bs) && |h| == 64
    ensures var tweak, child := Eval(h[..32], 256), ChildPrivate(c, k, index);
      && (child.Ok? <==> index < 0x8000_0000 && 0 < tweak < c.n && (tweak + k.key) % c.n != 0)
      && (child.Ok? ==> child.value == PrivateKey((tweak + k.key) % c.n, h[32..]))
      && (child.Err? ==> child.error == if index >= 0x8000_0000 then Hardened else InvalidDerivedKey)
  {
    FourBytes(bs, index);
  }

  /** The public child: the same tweak's point is added to the key's point, whatever the sum. */
  lemma ChildPublicIs<P>(c: Primitives<P>, k: PublicKey<P>, index: uint32, bs: seq<byte>, h: seq<byte>)
    requires |bs| == 4 && Eval(bs, 256) == index
    requires h == c.hmac512(k.chainCode, c.serialize(k.point) + bs) && |h| == 64
    ensures var tweak, child := Eval(h[..32], 256), ChildPublic(c, k, index);
      && (child.Ok? <==> index < 0x8000_0000 && 0 < tweak < c.n)
      && (child.Ok? ==> child.value == PublicKey(c.add(c.baseMul(tweak), k.point), h[32..]))
      && (child.Err? ==> child.error == if index >= 0x8000_0000 then Hardened else InvalidDerivedKey)
  {
    FourBytes(bs, index);
  }

  /** The empty path is the key itself, one level is the child; with PathsCompose that is every path. */
  lemma ShortPublicPaths<P>(c: Primitives<P>, k: PublicKey<P>, index: uint32)
    ensures DerivePublic(c, k, []) == Ok(k) && DerivePublic(c, k, [index]) == ChildPublic(c, k, index)
  {
    assert [index][1..] == [];
  }

  lemma ShortPrivatePaths<P>(c: Primitives<P>, k: PrivateKey, index: uint32)
    requires c.n > 0
    ensures DerivePrivate(c, k, []) == Ok(k) && DerivePrivate(c, k, [index]) == ChildPrivate(c, k, index)
  {
    assert [index][1..] == [];
  }

  lemma {:induction false} PrivatePathsCompose<P>(c: Primitives<P>, k: PrivateKey, a: seq<uint32>, b: seq<uint32>)
    requires c.n > 0
    ensures DerivePrivate(c, k, a + b)
         == if DerivePrivate(c, k, a).Ok? then DerivePrivate(c, DerivePrivate(c, k, a).value, b)
            else DerivePrivate(c, k, a)
    decreases |a|
  {
    if a == [] {
      assert a + b == b;
    } else {
      assert (a + b)[1..] == a[1..] + b;
      var child := ChildPrivate(c, k, a[0]);
      if child.Ok? {
        PrivatePathsCompose(c, child.value, a[1..], b);
      }
    }
  }

  // ---------- the laws are consistent ----------

  /** The integers modulo any n >= 2, such as the order of secp256k1, with a constant HMAC. */
  function ZmodInstance(n: nat): Primitives<int>
    requires n >= 2
  {
    Primitives(
      n,
      (k: nat) => k % n,
      (a: int, b: int) => (a + b) % n,
      (p: int) => if p < 0 then [] else Canon(p, 256),
      (key: seq<byte>, data: seq<byte>) => seq(64, i => 1))
  }

  lemma ModSmall(k: nat, n: nat)
    requires k < n
    ensures k % n == k
  {
    DivModUnique(0, n, k);
  }

  lemma ZmodIsLawful(n: nat)
    requires n >= 2
    ensures Lawful(ZmodInstance(n))
    ensures forall k: nat :: k < n ==> ZmodInstance(n).baseMul(k) == k
  {
    var c := ZmodInstance(n);
    forall k: nat | k < n ensures c.baseMul(k) == k {
      ModSmall(k, n);
    }
    forall a: nat, b: nat | a < n && b < n ensures c.add(c.baseMul(a), c.baseMul(b)) == c.baseMul((a + b) % n) {
      ModSmall((a + b) % n, n);
    }
  }

  // ---------- the sides do differ ----------

  /** The tweak of every step under ZmodInstance's HMAC. */
  function Tweak(): (t: nat)
    ensures t > 0
  {
    var half: seq<byte> := seq(32, i => 1);
    assert half[|half| - 1] == 1;
    Eval(half, 256)
  }

  lemma ConstantTweak(n: nat, key: nat, chainCode: seq<byte>, index: uint32)
    requires n >= 2
    ensures var c := ZmodInstance(n); Left(Digest(c, c.baseMul(key), chainCode, index)) == Tweak()
  {
    var ones: seq<byte> := seq(64, i => 1);
    var half: seq<byte> := seq(32, i => 1);
    assert ones[..32] == half;
  }

  /**
   The condition is met: over a lawful instance the key 1 has a child on the public side, the
   identity, and none on the private side.
   */
  lemma PublicOnlyChild(chainCode: seq<byte>)
    ensures var c, k := ZmodInstance(Tweak() + 1), PrivateKey(1, chainCode);
      && Lawful(c) && InRange(c, k) && CancelsOnPath(c, k, [0])
      && DerivePublic(c, Neuter(c, k), [0]).Ok?
      && DerivePublic(c, Neuter(c, k), [0]).value.point == Identity(c)
      && DerivePrivate(c, k, [0]) == Err(InvalidDerivedKey)
  {
    var c, k := ZmodInstance(Tweak() + 1), PrivateKey(1, chainCode);
    ZmodIsLawful(c.n);
    ConstantTweak(c.n, 1, chainCode, 0);
    assert CancelsAt(c, k, 0);
    ChildCommutes(c, k, 0);
    assert [0][1..] == [];
  }
}
