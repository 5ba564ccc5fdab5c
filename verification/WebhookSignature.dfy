/** VerifyWebhookSignature: the "t=<unix>,v1=<hex>" header, its time window and its signed preimage. */
module WebhookSignature {
  import opened GoText

  /** Clock readings are in nanoseconds, timestamps in seconds. */
  const SECOND: int := 1_000_000_000
  const TOLERANCE: int := 300 * SECOND

  /** The value of the last part whose key is `key`; "" when there is none. */
  function LastValue(parts: seq<string>, key: string): string {
    if parts == [] then ""
    else
      var (k, v, ok) := Cut(parts[|parts| - 1], '=');
      if ok && k == key then v else LastValue(parts[..|parts| - 1], key)
  }

  function Preimage(timestamp: string, body: string): string {
    timestamp + "." + body
  }

  predicate InWindow(ts: int, now: int) {
    -TOLERANCE <= now - ts * SECOND <= TOLERANCE
  }

  /** `hmac` is HMAC-SHA256 of a message under a secret. */
  predicate Accepts(hmac: (string, string) -> seq<byte>, secret: string, body: string, header: string, now: int) {
    var parts := Split(header, ',');
    var timestamp, signature := LastValue(parts, "t"), LastValue(parts, "v1");
    var ts, sig := ParseInt(timestamp), HexDecode(signature);
    && signature != ""
    && ts.Some? && InWindow(ts.value, now)
    && sig.Some? && sig.value == hmac(secret, Preimage(timestamp, body))
  }

  /** The header loop. */
  method HeaderValues(header: string) returns (timestamp: string, signature: string)
    ensures timestamp == LastValue(Split(header, ','), "t") && signature == LastValue(Split(header, ','), "v1")
  {
    timestamp, signature := "", "";
    var parts := Split(header, ',');
    for i := 0 to |parts|
      invariant timestamp == LastValue(parts[..i], "t")
      invariant signature == LastValue(parts[..i], "v1")
    {
      assert parts[..i + 1][..i] == parts[..i];
      var (key, value, ok) := Cut(parts[i], '=');
      if ok {
        if key == "t" {
          timestamp := value;
        } else if key == "v1" {
          signature := value;
        }
      }
    }
    assert parts[..|parts|] == parts;
  }

  method VerifyWebhookSignature(hmac: (string, string) -> seq<byte>, secret: string, body: string, header: string,
                                now: int)
    returns (valid: bool)
    ensures valid == Accepts(hmac, secret, body, header, now)
    ensures valid <==> SomeFit(hmac, secret, body, Split(header, ','), now)
  {
    AcceptsExactly(hmac, secret, body, header, now);
    var timestamp, signature := HeaderValues(header);
    if timestamp == "" || signature == "" {
      return false;
    }
    var ts := ParseInt(timestamp);
    if ts.None? {
      return false;
    }
    var age := now - ts.value * SECOND;
    if (if age < 0 then -age else age) > TOLERANCE {
      return false;
    }
    var sig := HexDecode(signature);
    if sig.None? {
      return false;
    }
    valid := hmac(secret, timestamp + "." + body) == sig.value;
  }

  predicate HasKey(part: string, key: string) {
    key + "=" <= part
  }

  /** parts[i] is the last part that starts with key and '='. */
  ghost predicate IsLastWith(parts: seq<string>, key: string, i: nat) {
    i < |parts| && HasKey(parts[i], key) && forall j :: i < j < |parts| ==> !HasKey(parts[j], key)
  }

  lemma CutsAtKey(part: string, key: string)
    requires '=' !in key
    ensures Cut(part, '=').2 && Cut(part, '=').0 == key <==> HasKey(part, key)
    ensures HasKey(part, key) ==> Cut(part, '=').1 == part[|key| + 1..]
  {
    if HasKey(part, key) {
      assert part == key + ['='] + part[|key| + 1..];
      CutAt(key, part[|key| + 1..], '=');
    }
  }

  /** The last part with a key decides its value. */
  lemma {:induction false} LastValueIsLast(parts: seq<string>, key: string, i: nat)
    requires '=' !in key && IsLastWith(parts, key, i)
    ensures LastValue(parts, key) == parts[i][|key| + 1..]
  {
    var n := |parts| - 1;
    LastValueStep(parts, key);
    if i < n {
      assert !HasKey(parts[n], key);
      assert IsLastWith(parts[..n], key, i);
      LastValueIsLast(parts[..n], key, i);
    }
  }

  /** The last part either has the key and decides the value, or is skipped. */
  lemma LastValueStep(parts: seq<string>, key: string)
    requires '=' !in key && parts != []
    ensures var part, before := parts[|parts| - 1], parts[..|parts| - 1];
      LastValue(parts, key) == if HasKey(part, key) then part[|key| + 1..] else LastValue(before, key)
  {
    CutsAtKey(parts[|parts| - 1], key);
  }

  /** A value that was found comes from a last part with that key. */
  lemma {:induction false} LastValueFound(parts: seq<string>, key: string) returns (i: nat)
    requires '=' !in key && LastValue(parts, key) != ""
    ensures IsLastWith(parts, key, i)
    ensures LastValue(parts, key) == parts[i][|key| + 1..]
  {
    var n := |parts| - 1;
    LastValueStep(parts, key);
    if HasKey(parts[n], key) {
      i := n;
    } else {
      var before := parts[..n];
      i := LastValueFound(before, key);
      assert forall j :: 0 <= j < n ==> before[j] == parts[j];
    }
  }

  function Header(hmac: (string, string) -> seq<byte>, secret: string, body: string, ts: int): string {
    ("t=" + FormatInt(ts)) + [','] + ("v1=" + HexEncode(hmac(secret, Preimage(FormatInt(ts), body))))
  }

  /** Neither part of a built header holds a comma. */
  lemma NoCommas(ts: int, mac: seq<byte>)
    ensures ',' !in "t=" + FormatInt(ts) && ',' !in "v1=" + HexEncode(mac)
  {
    FormattedAvoids(ts, ',');
    HexAvoids(mac, ',');
  }

  lemma TwoParts(t: string, v: string)
    requires ',' !in t && ',' !in v
    ensures Split(t + [','] + v, ',') == [t, v]
  {
    SplitAtFirst(t, v, ',');
    SplitAtFirst(v, "", ',');
  }

  lemma BuiltValues(ts: string, sig: string)
    ensures LastValue(["t=" + ts, "v1=" + sig], "t") == ts
    ensures LastValue(["t=" + ts, "v1=" + sig], "v1") == sig
  {
    var parts := ["t=" + ts, "v1=" + sig];
    assert parts[0][0] == 't' && parts[1][0] == 'v';
    assert IsLastWith(parts, "t", 0);
    LastValueIsLast(parts, "t", 0);
    assert IsLastWith(parts, "v1", 1);
    LastValueIsLast(parts, "v1", 1);
  }

  /** A header built as documented is accepted, for every body and every timestamp in the window. */
  lemma BuiltHeaderAccepted(hmac: (string, string) -> seq<byte>, secret: string, body: string, ts: int, now: int)
    requires MIN_INT64 <= ts <= MAX_INT64 && Within300s(ts, now)
    requires |hmac(secret, FormatInt(ts) + "." + body)| == 32
    ensures Accepts(hmac, secret, body, Header(hmac, secret, body, ts), now)
  {
    var mac := hmac(secret, Preimage(FormatInt(ts), body));
    NoCommas(ts, mac);
    TwoParts("t=" + FormatInt(ts), "v1=" + HexEncode(mac));
    BuiltValues(FormatInt(ts), HexEncode(mac));
    ParseFormatted(ts);
    HexRoundTrip(mac);
  }

  /**
   Every accepted header has a last "t=" part and a last "v1=" part, the former within the window
   and the latter the hex of the HMAC over exactly that timestamp text, a dot and the body.
   */
  lemma AcceptedHeaderSigned(hmac: (string, string) -> seq<byte>, secret: string, body: string, header: string,
                             now: int)
    returns (i: nat, j: nat)
    requires Accepts(hmac, secret, body, header, now)
    ensures var parts := Split(header, ',');
      && IsLastWith(parts, "t", i) && IsLastWith(parts, "v1", j)
      && ParseInt(parts[i][2..]).Some? && InWindow(ParseInt(parts[i][2..]).value, now)
      && HexDecode(parts[j][3..]) == Some(hmac(secret, Preimage(parts[i][2..], body)))
  {
    var parts := Split(header, ',');
    i := LastValueFound(parts, "t");
    j := LastValueFound(parts, "v1");
  }

  /** The reading `now`, in nanoseconds, is at most 300 seconds from the timestamp, either way. */
  predicate Within300s(ts: int, now: int) {
    now - ts * 1_000_000_000 <= 300_000_000_000 && ts * 1_000_000_000 - now <= 300_000_000_000
  }

  /** Part i is the last "t", part j the last "v1", and they fit the body and the time. */
  ghost predicate Fits(hmac: (string, string) -> seq<byte>, secret: string, body: string, parts: seq<string>, now: int,
                       i: nat, j: nat)
  {
    && IsLastWith(parts, "t", i) && IsLastWith(parts, "v1", j)
    && ParseInt(parts[i][2..]).Some? && Within300s(ParseInt(parts[i][2..]).value, now)
    && parts[j] != "v1="
    && HexDecode(parts[j][3..]) == Some(hmac(secret, parts[i][2..] + "." + body))
  }

  /** A "v1" part without text has no value, and no other. */
  lemma ValueGiven(part: string)
    requires HasKey(part, "v1")
    ensures part[3..] == "" <==> part == "v1="
  {
    assert part == "v1=" + part[3..];
  }

  lemma FittingAccepted(hmac: (string, string) -> seq<byte>, secret: string, body: string, header: string, now: int,
                        i: nat, j: nat)
    requires Fits(hmac, secret, body, Split(header, ','), now, i, j)
    ensures Accepts(hmac, secret, body, header, now)
  {
    var parts := Split(header, ',');
    LastValueIsLast(parts, "t", i);
    LastValueIsLast(parts, "v1", j);
    ValueGiven(parts[j]);
  }

  lemma AcceptedFits(hmac: (string, string) -> seq<byte>, secret: string, body: string, header: string, now: int)
    returns (i: nat, j: nat)
    requires Accepts(hmac, secret, body, header, now)
    ensures Fits(hmac, secret, body, Split(header, ','), now, i, j)
  {
    var parts := Split(header, ',');
    i := LastValueFound(parts, "t");
    j := LastValueFound(parts, "v1");
    ValueGiven(parts[j]);
  }

  ghost predicate SomeFit(hmac: (string, string) -> seq<byte>, secret: string, body: string, parts: seq<string>,
                          now: int)
  {
    exists i: nat, j: nat :: Fits(hmac, secret, body, parts, now, i, j)
  }

  /** Exactly the headers whose last "t" and last "v1" fit are accepted. */
  lemma AcceptsExactly(hmac: (string, string) -> seq<byte>, secret: string, body: string, header: string, now: int)
    ensures Accepts(hmac, secret, body, header, now) <==> SomeFit(hmac, secret, body, Split(header, ','), now)
  {
    if SomeFit(hmac, secret, body, Split(header, ','), now) {
      var i: nat, j: nat :| Fits(hmac, secret, body, Split(header, ','), now, i, j);
      FittingAccepted(hmac, secret, body, header, now, i, j);
    } else if Accepts(hmac, secret, body, header, now) {
      var i, j := AcceptedFits(hmac, secret, body, header, now);
    }
  }

  /** The signed text determines both the timestamp text and the body, as no timestamp has a dot. */
  lemma PreimageDetermines(t: string, u: string, body: string, body': string)
    requires ParseInt(t).Some? && ParseInt(u).Some?
    requires Preimage(t, body) == Preimage(u, body')
    ensures t == u && body == body'
  {
    ParsedAvoids(t, '.');
    ParsedAvoids(u, '.');
    CutAt(t, body, '.');
    CutAt(u, body', '.');
    assert Preimage(t, body) == t + ['.'] + body;
    assert Preimage(u, body') == u + ['.'] + body';
  }
}
