/**
 pathf, which fills escaped IDs into a path template, and metricPath, which collapses ID segments
 for metric tags. Characters stand for the bytes of Go strings.
 */
module RequestPath {
  import opened GoText

  type ByteString = s: string | forall i :: 0 <= i < |s| ==> s[i] as int < 256

  // ---------- metricPath ----------

  /** strings.ReplaceAll(s, "3ds", ""). */
  function Strip3ds(s: string): string {
    if s == "" then ""
    else if "3ds" <= s then Strip3ds(s[3..])
    else [s[0]] + Strip3ds(s[1..])
  }

  predicate HasDigit(s: string) {
    exists i :: 0 <= i < |s| && IsDigit(s[i])
  }

  function Collapse(seg: string): string {
    if HasDigit(Strip3ds(seg)) then ":id" else seg
  }

  function CollapseAll(segs: seq<string>): (r: seq<string>)
    ensures |r| == |segs| && forall i :: 0 <= i < |segs| ==> r[i] == Collapse(segs[i])
  {
    seq(|segs|, i requires 0 <= i < |segs| => Collapse(segs[i]))
  }

  function MetricPath(path: string): string {
    Join(CollapseAll(Split(Cut(path, '?').0, '/')), '/')
  }

  /** The loop: segments rewritten in place. */
  method CollapseInPlace(segments: array<string>)
    modifies segments
    ensures segments[..] == CollapseAll(old(segments[..]))
  {
    ghost var was := segments[..];
    for i := 0 to segments.Length
      invariant forall k :: 0 <= k < i ==> segments[k] == Collapse(was[k])
      invariant forall k :: i <= k < segments.Length ==> segments[k] == was[k]
    {
      if HasDigit(Strip3ds(segments[i])) {
        segments[i] := ":id";
      }
    }
  }

  method MetricPathInPlace(path: string) returns (tag: string)
    ensures tag == MetricPath(path)
  {
    var (base, _, _) := Cut(path, '?');
    var split := Split(base, '/');
    var segments := new string[|split|](i requires 0 <= i < |split| => split[i]);
    assert segments[..] == split;
    CollapseInPlace(segments);
    tag := Join(segments[..], '/');
  }

  /** A digit of s that no "3ds" covers, given the characters after it. */
  predicate Survives(s: string, i: nat) {
    i < |s| && IsDigit(s[i]) && !(s[i] == '3' && i + 2 < |s| && s[i + 1] == 'd' && s[i + 2] == 's')
  }

  ghost predicate HasSurvivor(s: string) {
    exists i: nat :: Survives(s, i)
  }

  /** Stripping "3ds" leaves a digit exactly when some digit is not the 3 of a "3ds". */
  lemma {:induction false} StripKeepsSurvivors(s: string)
    ensures HasDigit(Strip3ds(s)) <==> HasSurvivor(s)
  {
    if s == "" {
    } else if "3ds" <= s {
      StripKeepsSurvivors(s[3..]);
      SurvivorsShift(s, 3);
    } else {
      StripKeepsSurvivors(s[1..]);
      SurvivorsShift(s, 1);
      HeadDigit(s[0], Strip3ds(s[1..]));
      assert !Survives(s, 0) ==> !IsDigit(s[0]) by { NoPrefix(s); }
    }
  }

  lemma NoPrefix(s: string)
    requires s != "" && !("3ds" <= s)
    ensures !(s[0] == '3' && 2 < |s| && s[1] == 'd' && s[2] == 's')
  {
    if 2 < |s| {
      assert s[..3] == [s[0], s[1], s[2]];
    }
  }

  lemma HeadDigit(c: char, s: string)
    ensures HasDigit([c] + s) <==> IsDigit(c) || HasDigit(s)
  {
    var t := [c] + s;
    if HasDigit(s) {
      var i :| 0 <= i < |s| && IsDigit(s[i]);
      assert t[i + 1] == s[i];
    }
    if IsDigit(c) {
      assert IsDigit(t[0]);
    }
    if HasDigit(t) && !IsDigit(c) {
      var i :| 0 <= i < |t| && IsDigit(t[i]);
      assert s[i - 1] == t[i];
    }
  }

  lemma SurvivorsShift(s: string, n: nat)
    requires n <= |s|
    ensures HasSurvivor(s) <==> HasSurvivor(s[n..]) || exists i: nat :: i < n && Survives(s, i)
  {
    if HasSurvivor(s[n..]) {
      var i: nat :| Survives(s[n..], i);
      assert Survives(s, n + i);
    }
    if HasSurvivor(s) {
      var i: nat :| Survives(s, i);
      assert i >= n ==> Survives(s[n..], i - n);
    }
  }

  lemma SurvivorAtEnd(s: string, t: string)
    requires HasSurvivor(t)
    ensures HasSurvivor(s + t)
  {
    assert (s + t)[|s|..] == t;
    SurvivorsShift(s + t, |s|);
  }

  // ---------- properties of metricPath ----------

  /** No '?' and the segments of the path, each collapsed. */
  lemma MetricSegments(path: string)
    ensures Split(MetricPath(path), '/') == CollapseAll(Split(Cut(path, '?').0, '/'))
    ensures '?' !in MetricPath(path)
  {
    var base := Cut(path, '?').0;
    var segs := Split(base, '/');
    SplitOfJoin(CollapseAll(segs), '/');
    SplitAvoids(base, '/', '?');
    JoinAvoids(CollapseAll(segs), '/', '?');
  }

  lemma {:induction false} SplitAvoids(s: string, sep: char, c: char)
    requires c !in s
    ensures forall i :: 0 <= i < |Split(s, sep)| ==> c !in Split(s, sep)[i]
  {
    if s == "" {
    } else {
      SplitAvoids(s[1..], sep, c);
    }
  }

  lemma CollapsedIsFixed(seg: string)
    ensures Collapse(Collapse(seg)) == Collapse(seg)
    ensures Collapse(seg) == ":id" || (Collapse(seg) == seg && !HasSurvivor(seg))
    ensures Collapse(seg) == ":id" <==> HasSurvivor(seg) || seg == ":id"
  {
    StripKeepsSurvivors(":id");
    StripKeepsSurvivors(seg);
  }

  /**
   The tag has as many segments as the path had before its query, each ":id" or an original segment
   without a digit outside "3ds"; tagging a tag changes nothing.
   */
  lemma MetricPathShape(path: string)
    ensures |Split(MetricPath(path), '/')| == |Split(Cut(path, '?').0, '/')|
    ensures forall i :: 0 <= i < |Split(MetricPath(path), '/')| ==>
      var seg := Split(MetricPath(path), '/')[i];
      seg == ":id" || (seg == Split(Cut(path, '?').0, '/')[i] && !HasSurvivor(seg))
    ensures forall i :: 0 <= i < |Split(MetricPath(path), '/')| ==>
      var was := Split(Cut(path, '?').0, '/')[i];
      Split(MetricPath(path), '/')[i] == ":id" <==> HasSurvivor(was) || was == ":id"
    ensures MetricPath(MetricPath(path)) == MetricPath(path)
  {
    MetricSegments(path);
    var segs := Split(Cut(path, '?').0, '/');
    forall i | 0 <= i < |segs|
      ensures Collapse(Collapse(segs[i])) == Collapse(segs[i])
      ensures Collapse(segs[i]) == ":id" || (Collapse(segs[i]) == segs[i] && !HasSurvivor(segs[i]))
      ensures Collapse(segs[i]) == ":id" <==> HasSurvivor(segs[i]) || segs[i] == ":id"
    {
      CollapsedIsFixed(segs[i]);
    }
    CutWhole(MetricPath(path), '?');
    assert CollapseAll(CollapseAll(segs)) == CollapseAll(segs);
  }

  lemma MetricPathOne(seg: string, rest: string)
    requires '/' !in seg && '?' !in seg
    ensures MetricPath(seg) == Collapse(seg)
    ensures MetricPath(seg + "?" + rest) == Collapse(seg)
  {
    CutWhole(seg, '?');
    CutAt(seg, rest, '?');
    SplitAtFirst(seg, "", '/');
    assert CollapseAll([seg]) == [Collapse(seg)];
  }

  lemma SegmentsCons(seg: string, base: string)
    requires '/' !in seg
    ensures Join(CollapseAll(Split(seg + "/" + base, '/')), '/')
         == Collapse(seg) + "/" + Join(CollapseAll(Split(base, '/')), '/')
  {
    SplitAtFirst(seg, base, '/');
    var tail := CollapseAll(Split(base, '/'));
    assert seg + "/" + base == seg + ['/'] + base;
    assert CollapseAll([seg] + Split(base, '/')) == [Collapse(seg)] + tail;
    assert ([Collapse(seg)] + tail)[1..] == tail;
  }

  /** One segment, then the rest of the path. */
  lemma MetricPathCons(seg: string, rest: string)
    requires '/' !in seg && '?' !in seg
    ensures MetricPath(seg + "/" + rest) == Collapse(seg) + "/" + MetricPath(rest)
  {
    CutPastPrefix(seg + "/", rest, '?');
    SegmentsCons(seg, Cut(rest, '?').0);
  }

  lemma CutPastPrefix(p: string, s: string, sep: char)
    requires sep !in p
    ensures Cut(p + s, sep).0 == p + Cut(s, sep).0
  {
    var r := Cut(s, sep);
    if r.2 {
      assert p + s == (p + r.0) + [sep] + r.1;
      CutAt(p + r.0, r.1, sep);
    } else {
      CutWhole(p + s, sep);
    }
  }

  // ---------- url.PathEscape ----------

  predicate IsAlnum(c: char) { '0' <= c <= '9' || 'a' <= c <= 'z' || 'A' <= c <= 'Z' }

  /** Kept as is in a path segment: unreserved characters and $ & + = : @. */
  predicate IsKept(c: char) { IsAlnum(c) || c in "-_.~$&+=:@" }

  function UpperHex(n: nat): (c: char)
    requires n < 16
    ensures HexValue(c) == Some(n) && c != '/' && c != '?'
  {
    if n < 10 then ('0' as int + n) as char else ('A' as int + n - 10) as char
  }

  /**
   Of the 256 bytes exactly the unreserved characters of section 2.3 of RFC 3986 and $ & + = : @ are
   kept; all others become '%' and their two hex digits, in upper case.
   */
  lemma KeptExactly(c: char)
    requires c as int < 256
    ensures EscapeChar(c) == [c] <==>
      || 'a' <= c <= 'z' || 'A' <= c <= 'Z' || '0' <= c <= '9'
      || c == '-' || c == '.' || c == '_' || c == '~'
      || c == '$' || c == '&' || c == '+' || c == '=' || c == ':' || c == '@'
    ensures EscapeChar(c) != [c] ==>
      && |EscapeChar(c)| == 3 && EscapeChar(c)[0] == '%'
      && HexValue(EscapeChar(c)[1]) == Some(c as int / 16) && HexValue(EscapeChar(c)[2]) == Some(c as int % 16)
      && EscapeChar(c)[1] < 'a' && EscapeChar(c)[2] < 'a'
  {}

  function EscapeChar(c: char): string
    requires c as int < 256
  {
    if IsKept(c) then [c] else ['%', UpperHex(c as int / 16), UpperHex(c as int % 16)]
  }

  function PathEscape(s: ByteString): string {
    if s == "" then "" else EscapeChar(s[0]) + PathEscape(s[1..])
  }

  /** What a server reads back from an escaped segment. */
  function PathUnescape(s: string): Option<string> {
    if s == "" then Some("")
    else if s[0] == '%' then
      if |s| < 3 || HexValue(s[1]).None? || HexValue(s[2]).None? then None
      else
        var rest := PathUnescape(s[3..]);
        if rest.None? then None
        else Some([(16 * HexValue(s[1]).value + HexValue(s[2]).value) as char] + rest.value)
    else
      var rest := PathUnescape(s[1..]);
      if rest.None? then None else Some([s[0]] + rest.value)
  }

  lemma UnescapeChar(c: char, rest: string)
    requires c as int < 256 && PathUnescape(rest).Some?
    ensures PathUnescape(EscapeChar(c) + rest) == Some([c] + PathUnescape(rest).value)
  {
    var e := EscapeChar(c);
    if IsKept(c) {
      assert (e + rest)[1..] == rest;
    } else {
      assert (e + rest)[3..] == rest;
    }
  }

  lemma {:induction false} EscapeRoundTrip(s: ByteString)
    ensures PathUnescape(PathEscape(s)) == Some(s)
  {
    if s == "" {
    } else {
      EscapeRoundTrip(s[1..]);
      UnescapeChar(s[0], PathEscape(s[1..]));
      assert s == [s[0]] + s[1..];
    }
  }

  lemma {:induction false} EscapeAvoids(s: ByteString)
    ensures '/' !in PathEscape(s) && '?' !in PathEscape(s)
  {
    if s == "" {
    } else {
      EscapeAvoids(s[1..]);
    }
  }

  /** Escapes begin with '%', so an escape that starts with a lowercase letter is of an ID that does. */
  lemma EscapeHead(s: ByteString, c: char)
    requires 'a' <= c <= 'z' && PathEscape(s) != "" && PathEscape(s)[0] == c
    ensures s != "" && s[0] == c && PathEscape(s)[1..] == PathEscape(s[1..])
  {
    assert PathEscape(s) == EscapeChar(s[0]) + PathEscape(s[1..]);
  }

  lemma EscapeMakesNoDs(s: ByteString)
    ensures "ds" <= PathEscape(s) ==> "ds" <= s
  {
    var e := PathEscape(s);
    if |e| >= 1 && e[0] == 'd' {
      EscapeHead(s, 'd');
      if |e| >= 2 && e[1] == 's' {
        EscapeHead(s[1..], 's');
      }
    }
  }

  /** Percent-encoding cannot turn a surviving digit into the 3 of a new "3ds". */
  lemma {:induction false} EscapeKeepsSurvivors(s: ByteString)
    requires HasSurvivor(s)
    ensures HasSurvivor(PathEscape(s))
  {
    var e, rest := EscapeChar(s[0]), PathEscape(s[1..]);
    var all := PathEscape(s);
    assert all == e + rest;
    if Survives(s, 0) {
      assert all[0] == s[0] && all[1..] == rest;
      EscapeMakesNoDs(s[1..]);
      assert Survives(all, 0);
    } else {
      SurvivorsShift(s, 1);
      EscapeKeepsSurvivors(s[1..]);
      assert all[|e|..] == rest;
      SurvivorsShift(all, |e|);
    }
  }

  // ---------- pathf ----------

  /** A format of literal characters and %s verbs. */
  predicate IsFormat(f: string) {
    f == "" || (if "%s" <= f then IsFormat(f[2..]) else f[0] != '%' && IsFormat(f[1..]))
  }

  function Holes(f: string): nat {
    if f == "" then 0 else if "%s" <= f then 1 + Holes(f[2..]) else Holes(f[1..])
  }

  /** fmt.Sprintf on such a format with one argument per verb. */
  function Sprintf(f: string, args: seq<string>): string
    requires Holes(f) == |args|
  {
    if f == "" then ""
    else if "%s" <= f then args[0] + Sprintf(f[2..], args[1..])
    else [f[0]] + Sprintf(f[1..], args)
  }

  function EscapeAll(ids: seq<ByteString>): (r: seq<string>)
    ensures |r| == |ids| && forall i :: 0 <= i < |ids| ==> r[i] == PathEscape(ids[i])
  {
    seq(|ids|, i requires 0 <= i < |ids| => PathEscape(ids[i]))
  }

  function Path(f: string, ids: seq<ByteString>): string
    requires Holes(f) == |ids|
  {
    Sprintf(f, EscapeAll(ids))
  }

  /** pathf: the escaped slice filled in a loop, then formatted. */
  method Pathf(f: string, ids: seq<ByteString>) returns (path: string)
    requires IsFormat(f) && Holes(f) == |ids|
    ensures path == Path(f, ids)
  {
    var escaped := new string[|ids|](i => "");
    for i := 0 to |ids|
      invariant forall k :: 0 <= k < i ==> escaped[k] == PathEscape(ids[k])
    {
      escaped[i] := PathEscape(ids[i]);
    }
    assert escaped[..] == EscapeAll(ids);
    path := Sprintf(f, escaped[..]);
  }

  function Count(s: string, c: char): nat {
    if s == "" then 0 else (if s[0] == c then 1 else 0) + Count(s[1..], c)
  }

  lemma {:induction false} CountConcat(a: string, b: string, c: char)
    ensures Count(a + b, c) == Count(a, c) + Count(b, c)
  {
    if a == "" {
      assert a + b == b;
    } else {
      CountConcat(a[1..], b, c);
      assert (a + b)[1..] == a[1..] + b;
    }
  }

  lemma {:induction false} CountAbsent(s: string, c: char)
    requires c !in s
    ensures Count(s, c) == 0
  {
    if s == "" {
    } else {
      CountAbsent(s[1..], c);
    }
  }

  lemma PathHole(f: string, ids: seq<ByteString>)
    requires Holes(f) == |ids| && "%s" <= f
    ensures |ids| > 0 && Holes(f[2..]) == |ids[1..]|
    ensures Path(f, ids) == PathEscape(ids[0]) + Path(f[2..], ids[1..])
  {
    assert EscapeAll(ids)[1..] == EscapeAll(ids[1..]);
  }

  lemma PathLiteral(f: string, ids: seq<ByteString>)
    requires Holes(f) == |ids| && f != "" && !("%s" <= f)
    ensures Holes(f[1..]) == |ids|
    ensures Path(f, ids) == [f[0]] + Path(f[1..], ids)
  {}

  /** No ID can add a path separator or start a query: their number is the template's. */
  lemma {:induction false} PathKeepsStructure(f: string, ids: seq<ByteString>, c: char)
    requires IsFormat(f) && Holes(f) == |ids| && (c == '/' || c == '?')
    ensures Count(Path(f, ids), c) == Count(f, c)
  {
    if f == "" {
    } else if "%s" <= f {
      PathHole(f, ids);
      PathKeepsStructure(f[2..], ids[1..], c);
      EscapeAvoids(ids[0]);
      CountAbsent(PathEscape(ids[0]), c);
      CountConcat(PathEscape(ids[0]), Path(f[2..], ids[1..]), c);
      assert Count(f, c) == Count(f[1..], c) == Count(f[1..][1..], c);
      assert f[1..][1..] == f[2..];
    } else {
      PathLiteral(f, ids);
      PathKeepsStructure(f[1..], ids, c);
      CountConcat([f[0]], Path(f[1..], ids), c);
      CountConcat([f[0]], f[1..], c);
      assert f == [f[0]] + f[1..];
    }
  }
}
