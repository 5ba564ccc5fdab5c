/**
 Which path templates give every request one metric tag: metricPath applied to what pathf builds,
 for IDs that all keep a digit once "3ds" is removed.
 */
module PathTemplates {
  import opened GoText
  import opened RequestPath

  predicate Plain(seg: string) { '/' !in seg && '?' !in seg }

  ghost predicate AllKeep(ids: seq<ByteString>) {
    forall i :: 0 <= i < |ids| ==> HasDigit(Strip3ds(ids[i]))
  }

  /** One ID per hole, each keeping a digit of its own. */
  ghost predicate Fills(f: string, ids: seq<ByteString>) {
    Holes(f) == |ids| && AllKeep(ids)
  }

  /** Can a filling of the segment template g begin with w, an end of "ds"? */
  predicate MayStart(g: string, w: string) {
    w == "" || "%s" <= g || (g != "" && g[0] == w[0] && MayStart(g[1..], w[1..]))
  }

  /**
   Can the digits of a filling of g all be taken by "3ds"? Each hole must run into an "s" or "ds",
   and each literal digit must be a 3 that runs into a "ds".
   */
  predicate MayVanish(g: string) {
    g == "" ||
    if "%s" <= g then (MayStart(g[2..], "s") || MayStart(g[2..], "ds")) && MayVanish(g[2..])
    else (IsDigit(g[0]) ==> g[0] == '3' && MayStart(g[1..], "ds")) && MayVanish(g[1..])
  }

  predicate Leaks(seg: string) {
    Holes(seg) > 0 && MayVanish(seg)
  }

  predicate AnyLeaks(segs: seq<string>) {
    exists i :: 0 <= i < |segs| && Leaks(segs[i])
  }

  function Segments(f: string): seq<string> {
    Split(Cut(f, '?').0, '/')
  }

  // ---------- one segment ----------

  lemma {:induction false} StartsAs(g: string, ids: seq<ByteString>, w: string)
    requires IsFormat(g) && Holes(g) == |ids| && w <= Path(g, ids)
    ensures MayStart(g, w)
  {
    if w != "" && g != "" && !("%s" <= g) {
      PathLiteral(g, ids);
      assert w[1..] <= Path(g[1..], ids);
      StartsAs(g[1..], ids, w[1..]);
    }
  }

  /** A surviving digit stays one before text that completes no "3ds". */
  lemma SurvivorBefore(s: string, t: string)
    requires HasSurvivor(s) && !("s" <= t) && !("ds" <= t)
    ensures HasSurvivor(s + t)
  {
    var i: nat :| Survives(s, i);
    assert |t| > 0 ==> t[0] != 's';
    assert |t| > 1 && t[0] == 'd' ==> t[1] != 's' by {
      assert |t| > 1 ==> t[..2] == [t[0], t[1]];
    }
    assert Survives(s + t, i);
  }

  /** In a segment that cannot vanish some digit survives, whatever the IDs. */
  lemma {:induction false} SegmentKeeps(g: string, ids: seq<ByteString>)
    requires IsFormat(g) && Fills(g, ids) && !MayVanish(g)
    ensures HasSurvivor(Path(g, ids))
  {
    if "%s" <= g {
      PathHole(g, ids);
      var e, rest := PathEscape(ids[0]), Path(g[2..], ids[1..]);
      if MayVanish(g[2..]) {
        StripKeepsSurvivors(ids[0]);
        EscapeKeepsSurvivors(ids[0]);
        if "s" <= rest { StartsAs(g[2..], ids[1..], "s"); }
        if "ds" <= rest { StartsAs(g[2..], ids[1..], "ds"); }
        SurvivorBefore(e, rest);
      } else {
        SegmentKeeps(g[2..], ids[1..]);
        SurvivorAtEnd(e, rest);
      }
    } else {
      PathLiteral(g, ids);
      var rest := Path(g[1..], ids);
      if MayVanish(g[1..]) {
        assert Survives([g[0]], 0);
        if g[0] != '3' {
          assert Survives([g[0]] + rest, 0);
        } else {
          if "ds" <= rest { StartsAs(g[1..], ids, "ds"); }
          assert |rest| > 1 ==> rest[..2] == [rest[0], rest[1]];
          assert Survives([g[0]] + rest, 0);
        }
      } else {
        SegmentKeeps(g[1..], ids);
        SurvivorAtEnd([g[0]], rest);
      }
    }
  }

  /** An ID made to lose its digit: w, then a "3" or "3d" that the following text completes. */
  function Vanishing(w: string, next: string): (id: ByteString)
    requires w == "" || w == "s" || w == "ds"
  {
    w + (if next == "s" then "3d" else "3")
  }

  lemma VanishingEscapes(w: string, next: string)
    requires w == "" || w == "s" || w == "ds"
    requires next == "s" || next == "ds"
    ensures var id := Vanishing(w, next); PathEscape(id) == id && HasDigit(Strip3ds(id))
  {
    var id := Vanishing(w, next);
    KeptEscape(id);
    StripKeepsSurvivors(id);
    assert Survives(id, |w|);
  }

  lemma {:induction false} KeptEscape(id: ByteString)
    requires forall i :: 0 <= i < |id| ==> IsKept(id[i])
    ensures PathEscape(id) == id
  {
    if id == "" {
    } else {
      KeptEscape(id[1..]);
      assert id == [id[0]] + id[1..];
    }
  }

  /** Text after a vanishing ID completes its "3ds". */
  lemma VanishingCompletes(w: string, next: string, t: string)
    requires w == "" || w == "s" || w == "ds"
    requires next == "s" || next == "ds"
    requires next <= t && !HasSurvivor(t)
    ensures !HasSurvivor(Vanishing(w, next) + t)
  {
    var id := Vanishing(w, next);
    var all := id + t;
    assert all[|id|..] == t;
    SurvivorsShift(all, |id|);
    assert all[|w|] == '3' && all[|w| + 1] == 'd' && all[|w| + 2] == 's';
    assert forall i :: 0 <= i < |id| && i != |w| ==> !IsDigit(all[i]);
  }

  /** A segment that may vanish has a filling without surviving digits; a filled one is not ":id". */
  lemma {:induction false} Vanish(g: string, w: string) returns (ids: seq<ByteString>)
    requires IsFormat(g) && MayVanish(g) && MayStart(g, w)
    requires w == "" || w == "s" || w == "ds"
    ensures Fills(g, ids) && w <= Path(g, ids) && !HasSurvivor(Path(g, ids))
    ensures |ids| > 0 ==> '3' in Path(g, ids)
  {
    if g == "" {
      ids := [];
      assert Path(g, ids) == "";
    } else if "%s" <= g {
      var next := if MayStart(g[2..], "s") then "s" else "ds";
      var rest := Vanish(g[2..], next);
      ids := [Vanishing(w, next)] + rest;
      VanishingEscapes(w, next);
      PathHole(g, ids);
      assert ids[1..] == rest;
      VanishingCompletes(w, next, Path(g[2..], rest));
      assert Vanishing(w, next)[|w|] == '3';
    } else {
      var next := if w != "" then w[1..] else if g[0] == '3' then "ds" else "";
      ids := Vanish(g[1..], next);
      PathLiteral(g, ids);
      LiteralVanishes(g[0], Path(g[1..], ids), next, w);
    }
  }

  lemma LiteralVanishes(c: char, t: string, next: string, w: string)
    requires next <= t && !HasSurvivor(t) && (IsDigit(c) ==> c == '3' && "ds" <= t)
    requires w == "" || (w[0] == c && w[1..] == next)
    ensures !HasSurvivor([c] + t) && w <= [c] + t
  {
    assert ([c] + t)[1..] == t;
    SurvivorsShift([c] + t, 1);
    if w != "" {
      assert w == [c] + next;
    }
  }

  // ---------- a template segment by segment ----------

  lemma {:induction false} PathAvoids(g: string, ids: seq<ByteString>, c: char)
    requires Holes(g) == |ids| && c !in g && (c == '/' || c == '?')
    ensures c !in Path(g, ids)
  {
    if g == "" {
      assert Path(g, ids) == "";
    } else if "%s" <= g {
      PathHole(g, ids);
      EscapeAvoids(ids[0]);
      PathAvoids(g[2..], ids[1..], c);
    } else {
      PathLiteral(g, ids);
      PathAvoids(g[1..], ids, c);
    }
  }

  /** A format ends before a separator, and another starts after it. */
  lemma {:induction false} FormatParts(a: string, c: char, rest: string)
    requires IsFormat(a + [c] + rest) && c != 's' && c != '%'
    ensures IsFormat(a) && IsFormat(rest)
    ensures Holes(a + [c] + rest) == Holes(a) + Holes(rest)
  {
    var f := a + [c] + rest;
    if a == "" {
      assert f[1..] == rest && f[0] == c;
    } else if "%s" <= f {
      assert f[0] == '%' && f[1] == 's';
      assert |a| > 1 && "%s" <= a;
      assert f[2..] == a[2..] + [c] + rest;
      FormatParts(a[2..], c, rest);
    } else {
      assert f[0] == a[0];
      assert f[1..] == a[1..] + [c] + rest;
      FormatParts(a[1..], c, rest);
    }
  }

  lemma Assoc(a: string, b: string, c: string)
    ensures a + b + c == a + (b + c)
  {}

  /** The text of two formats, one after the other. */
  lemma {:induction false} PathParts(a: string, b: string, ids: seq<ByteString>, more: seq<ByteString>)
    requires IsFormat(a) && Holes(a) == |ids| && Holes(b) == |more|
    ensures Holes(a + b) == |ids + more|
    ensures Path(a + b, ids + more) == Path(a, ids) + Path(b, more)
    decreases |a|, 1
  {
    if a == "" {
      assert a + b == b && ids + more == more;
      assert Path(a, ids) == "";
    } else if "%s" <= a {
      PathPartsAtHole(a, b, ids, more);
    } else {
      PathPartsAtLiteral(a, b, ids, more);
    }
  }

  lemma {:induction false} PathPartsAtHole(a: string, b: string, ids: seq<ByteString>, more: seq<ByteString>)
    requires IsFormat(a) && Holes(a) == |ids| && Holes(b) == |more| && "%s" <= a
    ensures Holes(a + b) == |ids + more|
    ensures Path(a + b, ids + more) == Path(a, ids) + Path(b, more)
    decreases |a|, 0
  {
    var f, all := a + b, ids + more;
    assert f[2..] == a[2..] + b && "%s" <= f && all[1..] == ids[1..] + more && all[0] == ids[0];
    PathParts(a[2..], b, ids[1..], more);
    PathHole(a, ids);
    PathHole(f, all);
    Assoc(PathEscape(ids[0]), Path(a[2..], ids[1..]), Path(b, more));
  }

  lemma {:induction false} PathPartsAtLiteral(a: string, b: string, ids: seq<ByteString>, more: seq<ByteString>)
    requires IsFormat(a) && Holes(a) == |ids| && Holes(b) == |more| && a != "" && !("%s" <= a)
    ensures Holes(a + b) == |ids + more|
    ensures Path(a + b, ids + more) == Path(a, ids) + Path(b, more)
    decreases |a|, 0
  {
    var f := a + b;
    assert f[1..] == a[1..] + b && f[0] == a[0] != '%';
    PathParts(a[1..], b, ids, more);
    PathLiteral(a, ids);
    PathLiteral(f, ids + more);
    Assoc([a[0]], Path(a[1..], ids), Path(b, more));
  }

  function HolesOf(segs: seq<string>): nat {
    if segs == [] then 0 else Holes(segs[0]) + HolesOf(segs[1..])
  }

  /** The tag, segment by segment; IDs left over go to the query. */
  function Tag(segs: seq<string>, ids: seq<ByteString>): string
    requires segs != [] && HolesOf(segs) <= |ids|
  {
    var k := Holes(segs[0]);
    var head := Collapse(Path(segs[0], ids[..k]));
    head + if |segs| == 1 then "" else "/" + Tag(segs[1..], ids[k..])
  }

  ghost predicate AllFormats(segs: seq<string>) {
    forall i :: 0 <= i < |segs| ==> IsFormat(segs[i])
  }

  ghost predicate Tagged(f: string, ids: seq<ByteString>)
    requires Holes(f) == |ids|
  {
    && AllFormats(Segments(f)) && HolesOf(Segments(f)) <= |ids|
    && MetricPath(Path(f, ids)) == Tag(Segments(f), ids)
  }

  lemma PlainPath(g: string, ids: seq<ByteString>)
    requires Plain(g) && Holes(g) == |ids|
    ensures Plain(Path(g, ids))
  {
    PathAvoids(g, ids, '/');
    PathAvoids(g, ids, '?');
  }

  lemma OneSegment(seg: string, ids: seq<ByteString>)
    requires Holes(seg) <= |ids|
    ensures HolesOf([seg]) == Holes(seg) && Tag([seg], ids) == Collapse(Path(seg, ids[..Holes(seg)]))
  {
    assert [seg][1..] == [];
  }

  lemma MoreSegments(seg: string, segs: seq<string>, ids: seq<ByteString>)
    requires segs != [] && Holes(seg) + HolesOf(segs) <= |ids|
    ensures HolesOf([seg] + segs) == Holes(seg) + HolesOf(segs)
    ensures Tag([seg] + segs, ids) == Collapse(Path(seg, ids[..Holes(seg)])) + "/" + Tag(segs, ids[Holes(seg)..])
  {
    assert ([seg] + segs)[1..] == segs;
    Assoc(Collapse(Path(seg, ids[..Holes(seg)])), "/", Tag(segs, ids[Holes(seg)..]));
  }

  lemma WholeTagged(f: string, ids: seq<ByteString>)
    requires IsFormat(f) && Plain(f) && Holes(f) == |ids|
    ensures Tagged(f, ids)
  {
    CutWhole(f, '?');
    SplitAtFirst(f, "", '/');
    PlainPath(f, ids);
    OneSegment(f, ids);
    assert ids[..Holes(f)] == ids;
    MetricPathOne(Path(f, ids), "");
  }

  lemma PathFrom(c: char, rest: string, ids: seq<ByteString>)
    requires Holes(rest) == |ids| && (c == '/' || c == '?')
    ensures Holes([c] + rest) == |ids| && Path([c] + rest, ids) == [c] + Path(rest, ids)
  {
    var b := [c] + rest;
    assert b[1..] == rest && b[0] == c && !("%s" <= b);
    PathLiteral(b, ids);
  }

  lemma PathBefore(seg: string, c: char, rest: string, ids: seq<ByteString>)
    requires IsFormat(seg) && Holes(seg) + Holes(rest) == |ids| && (c == '/' || c == '?')
    ensures Holes(seg + ([c] + rest)) == |ids|
    ensures var k := Holes(seg); Path(seg + ([c] + rest), ids) == Path(seg, ids[..k]) + ([c] + Path(rest, ids[k..]))
  {
    var k := Holes(seg);
    PathFrom(c, rest, ids[k..]);
    PathParts(seg, [c] + rest, ids[..k], ids[k..]);
    assert ids[..k] + ids[k..] == ids;
  }

  /** The text of a segment, its separator and the rest. */
  lemma PathAround(seg: string, c: char, rest: string, ids: seq<ByteString>)
    requires IsFormat(seg + [c] + rest) && Holes(seg + [c] + rest) == |ids| && (c == '/' || c == '?')
    ensures IsFormat(seg) && IsFormat(rest) && Holes(seg) + Holes(rest) == |ids|
    ensures var k := Holes(seg);
      Path(seg + [c] + rest, ids) == Path(seg, ids[..k]) + [c] + Path(rest, ids[k..])
  {
    FormatParts(seg, c, rest);
    PathBefore(seg, c, rest, ids);
    var k := Holes(seg);
    Assoc(seg, [c], rest);
    Assoc(Path(seg, ids[..k]), [c], Path(rest, ids[k..]));
  }

  lemma QueryTagged(f: string, seg: string, query: string, ids: seq<ByteString>)
    requires IsFormat(f) && Holes(f) == |ids| && f == seg + ['?'] + query && Plain(seg)
    ensures Tagged(f, ids)
  {
    PathAround(seg, '?', query, ids);
    CutAt(seg, query, '?');
    SplitAtFirst(seg, "", '/');
    var k := Holes(seg);
    PlainPath(seg, ids[..k]);
    OneSegment(seg, ids);
    MetricPathOne(Path(seg, ids[..k]), Path(query, ids[k..]));
    assert Path(f, ids) == Path(seg, ids[..k]) + "?" + Path(query, ids[k..]);
  }

  lemma SegmentsOf(seg: string, rest: string)
    requires Plain(seg)
    ensures Segments(seg + ['/'] + rest) == [seg] + Segments(rest)
  {
    CutPastPrefix(seg + ['/'], rest, '?');
    SplitAtFirst(seg, Cut(rest, '?').0, '/');
  }

  lemma SlashTag(seg: string, rest: string, ids: seq<ByteString>)
    requires IsFormat(seg + ['/'] + rest) && Holes(seg + ['/'] + rest) == |ids| && Plain(seg)
    ensures Holes(seg) + Holes(rest) == |ids|
    ensures var k := Holes(seg);
      MetricPath(Path(seg + ['/'] + rest, ids))
        == Collapse(Path(seg, ids[..k])) + "/" + MetricPath(Path(rest, ids[k..]))
  {
    var k := Holes(seg);
    PathAround(seg, '/', rest, ids);
    PlainPath(seg, ids[..k]);
    MetricPathCons(Path(seg, ids[..k]), Path(rest, ids[k..]));
  }

  lemma TagCons(seg: string, segs: seq<string>, ids: seq<ByteString>, tag: string)
    requires IsFormat(seg) && segs != [] && AllFormats(segs) && Holes(seg) + HolesOf(segs) <= |ids|
    requires tag == Tag(segs, ids[Holes(seg)..])
    ensures AllFormats([seg] + segs) && HolesOf([seg] + segs) <= |ids|
    ensures Tag([seg] + segs, ids) == Collapse(Path(seg, ids[..Holes(seg)])) + "/" + tag
  {
    MoreSegments(seg, segs, ids);
  }

  lemma TaggedBy(f: string, ids: seq<ByteString>, segs: seq<string>)
    requires Holes(f) == |ids| && Segments(f) == segs && segs != [] && AllFormats(segs) && HolesOf(segs) <= |ids|
    requires MetricPath(Path(f, ids)) == Tag(segs, ids)
    ensures Tagged(f, ids)
  {}

  lemma SlashTagged(f: string, seg: string, rest: string, ids: seq<ByteString>)
    requires IsFormat(f) && Holes(f) == |ids| && f == seg + ['/'] + rest && Plain(seg) && IsFormat(seg)
    requires Holes(seg) + Holes(rest) == |ids| && Tagged(rest, ids[Holes(seg)..])
    ensures Tagged(f, ids)
  {
    SlashTag(seg, rest, ids);
    SegmentsOf(seg, rest);
    var more := Segments(rest);
    TagCons(seg, more, ids, MetricPath(Path(rest, ids[Holes(seg)..])));
    TaggedBy(f, ids, [seg] + more);
  }

  lemma Assoc5(a: string, b: string, c: string, d: string, e: string)
    ensures a + b + c + d + e == a + b + (c + d + e)
  {}

  /** f cut at its first '?' and then at the first '/' before it. */
  lemma FirstCut(f: string, base: string, query: string, seg: string, more: string)
    requires f == base + ['?'] + query && base == seg + ['/'] + more
    ensures f == seg + ['/'] + (more + ['?'] + query)
  {
    Assoc5(seg, ['/'], more, ['?'], query);
  }

  lemma {:induction false} TagOfPath(f: string, ids: seq<ByteString>)
    requires IsFormat(f) && Holes(f) == |ids|
    ensures Tagged(f, ids)
    decreases |f|, 0
  {
    var (base, query, found) := Cut(f, '?');
    var (seg, more, split) := Cut(base, '/');
    if split && found {
      FirstCut(f, base, query, seg, more);
      TagPastSlash(f, seg, more + ['?'] + query, ids);
    } else if split {
      TagPastSlash(f, seg, more, ids);
    } else if found {
      QueryTagged(f, seg, query, ids);
    } else {
      WholeTagged(f, ids);
    }
  }

  lemma {:induction false} TagPastSlash(f: string, seg: string, rest: string, ids: seq<ByteString>)
    requires IsFormat(f) && Holes(f) == |ids| && f == seg + ['/'] + rest && Plain(seg)
    ensures Tagged(f, ids)
    decreases |rest|, 1
  {
    PathAround(seg, '/', rest, ids);
    TagOfPath(rest, ids[Holes(seg)..]);
    SlashTagged(f, seg, rest, ids);
  }

  // ---------- stable templates ----------

  lemma SameSegmentTag(g: string, ids: seq<ByteString>, ids': seq<ByteString>)
    requires IsFormat(g) && Fills(g, ids) && Fills(g, ids') && !Leaks(g)
    ensures Collapse(Path(g, ids)) == Collapse(Path(g, ids'))
  {
    if Holes(g) == 0 {
      assert ids == ids';
    } else {
      SegmentKeeps(g, ids);
      SegmentKeeps(g, ids');
      StripKeepsSurvivors(Path(g, ids));
      StripKeepsSurvivors(Path(g, ids'));
    }
  }

  lemma {:induction false} SameTag(segs: seq<string>, ids: seq<ByteString>, ids': seq<ByteString>)
    requires segs != [] && AllFormats(segs) && !AnyLeaks(segs)
    requires HolesOf(segs) <= |ids| && HolesOf(segs) <= |ids'| && AllKeep(ids) && AllKeep(ids')
    ensures Tag(segs, ids) == Tag(segs, ids')
  {
    var k := Holes(segs[0]);
    SameSegmentTag(segs[0], ids[..k], ids'[..k]);
    if |segs| > 1 {
      SameTag(segs[1..], ids[k..], ids'[k..]);
    }
  }

  // ---------- leaking templates ----------

  function Ones(n: nat): (ids: seq<ByteString>)
    ensures |ids| == n && forall i :: 0 <= i < n ==> ids[i] == "1"
  {
    seq(n, i => "1")
  }

  lemma OnesKeep(n: nat)
    ensures AllKeep(Ones(n))
  {
    assert Survives("1", 0);
    StripKeepsSurvivors("1");
  }

  lemma {:induction false} OneSurvives(g: string, ids: seq<ByteString>)
    requires Holes(g) == |ids| > 0 && forall i :: 0 <= i < |ids| ==> ids[i] == "1"
    ensures HasSurvivor(Path(g, ids))
  {
    if "%s" <= g {
      PathHole(g, ids);
      KeptEscape("1");
      assert Survives("1" + Path(g[2..], ids[1..]), 0);
    } else {
      PathLiteral(g, ids);
      OneSurvives(g[1..], ids);
      SurvivorAtEnd([g[0]], Path(g[1..], ids));
    }
  }

  /** A leaking segment has two fillings with different tags. */
  lemma SegmentLeak(g: string) returns (ids: seq<ByteString>, ids': seq<ByteString>)
    requires IsFormat(g) && Leaks(g)
    ensures Fills(g, ids) && Fills(g, ids')
    ensures Collapse(Path(g, ids)) != Collapse(Path(g, ids'))
  {
    ids := Ones(Holes(g));
    OnesKeep(Holes(g));
    OneSurvives(g, ids);
    ids' := Vanish(g, "");
    StripKeepsSurvivors(Path(g, ids));
    StripKeepsSurvivors(Path(g, ids'));
    assert '3' !in ":id";
  }

  /** One leaking segment gives the whole path two tags; the other IDs are the same in both. */
  lemma {:induction false} Leak(segs: seq<string>, n: nat) returns (ids: seq<ByteString>, ids': seq<ByteString>)
    requires AllFormats(segs) && AnyLeaks(segs) && HolesOf(segs) <= n
    ensures |ids| == |ids'| == n && AllKeep(ids) && AllKeep(ids')
    ensures Tag(segs, ids) != Tag(segs, ids')
  {
    var k := Holes(segs[0]);
    if Leaks(segs[0]) {
      var a, a' := SegmentLeak(segs[0]);
      var more := Ones(n - k);
      OnesKeep(n - k);
      ids, ids' := a + more, a' + more;
      assert ids[..k] == a && ids'[..k] == a' && ids[k..] == more == ids'[k..];
      DifferentParts(Collapse(Path(segs[0], a)), Collapse(Path(segs[0], a')),
                     if |segs| == 1 then "" else "/" + Tag(segs[1..], more));
    } else {
      var b, b' := Leak(segs[1..], n - k);
      var a := Ones(k);
      OnesKeep(k);
      ids, ids' := a + b, a + b';
      assert ids[..k] == a == ids'[..k] && ids[k..] == b && ids'[k..] == b';
      DifferentTails(Collapse(Path(segs[0], a)), Tag(segs[1..], b), Tag(segs[1..], b'));
    }
  }

  lemma DifferentParts(a: string, b: string, t: string)
    requires a != b
    ensures a + t != b + t
  {
    assert |a| == |b| ==> (a + t)[..|a|] == a && (b + t)[..|a|] == b;
    assert |a + t| == |a| + |t| && |b + t| == |b| + |t|;
  }

  lemma DifferentTails(h: string, a: string, b: string)
    requires a != b
    ensures h + ("/" + a) != h + ("/" + b)
  {
    assert (h + ("/" + a))[|h| + 1..] == a && (h + ("/" + b))[|h| + 1..] == b;
  }

  // ---------- the theorem ----------

  /** Do all requests built from f share one tag? */
  ghost predicate OneTag(f: string) {
    forall ids: seq<ByteString>, ids': seq<ByteString> :: Fills(f, ids) && Fills(f, ids') ==>
      MetricPath(Path(f, ids)) == MetricPath(Path(f, ids'))
  }

  /**
   The tag of a filled template depends only on the template, for all IDs that keep a digit once
   "3ds" is removed, exactly when no segment with a hole can have all its digits taken by "3ds".
   */
  lemma TemplatesCollapse(f: string)
    requires IsFormat(f)
    ensures OneTag(f) <==> !AnyLeaks(Segments(f))
  {
    var segs := Segments(f);
    forall ids: seq<ByteString> | Fills(f, ids) ensures Tagged(f, ids) {
      TagOfPath(f, ids);
    }
    TagOfPath(f, Ones(Holes(f)));
    if AnyLeaks(segs) {
      var ids, ids' := Leak(segs, Holes(f));
      assert Fills(f, ids) && Fills(f, ids');
    } else {
      forall ids: seq<ByteString>, ids': seq<ByteString> | Fills(f, ids) && Fills(f, ids')
        ensures MetricPath(Path(f, ids)) == MetricPath(Path(f, ids'))
      {
        SameTag(segs, ids, ids');
      }
    }
  }

  /** Each segment is a hole or free of verbs, as in every template the client uses. */
  ghost predicate WholeSegmentHoles(segs: seq<string>) {
    segs != [] && forall i :: 0 <= i < |segs| ==> Plain(segs[i]) && (segs[i] == "%s" || '%' !in segs[i])
  }

  lemma {:induction false} LiteralFormat(seg: string, rest: string)
    requires '%' !in seg && IsFormat(rest)
    ensures IsFormat(seg + rest) && Holes(seg) == 0
  {
    if seg == "" {
      assert seg + rest == rest;
    } else {
      LiteralFormat(seg[1..], rest);
      assert (seg + rest)[1..] == seg[1..] + rest && (seg + rest)[0] == seg[0] != '%';
    }
  }

  lemma {:induction false} JoinIsFormat(segs: seq<string>)
    requires WholeSegmentHoles(segs)
    ensures IsFormat(Join(segs, '/'))
  {
    var tail := if |segs| == 1 then "" else ['/'] + Join(segs[1..], '/');
    if |segs| > 1 {
      JoinIsFormat(segs[1..]);
      assert tail[1..] == Join(segs[1..], '/') && !("%s" <= tail);
    }
    assert Join(segs, '/') == segs[0] + tail;
    if segs[0] == "%s" {
      assert ("%s" + tail)[2..] == tail;
    } else {
      LiteralFormat(segs[0], tail);
    }
  }

  /** Templates whose holes are whole segments give one tag each. */
  lemma WholeSegmentHolesCollapse(segs: seq<string>)
    requires WholeSegmentHoles(segs)
    ensures IsFormat(Join(segs, '/')) && OneTag(Join(segs, '/'))
  {
    var f := Join(segs, '/');
    JoinIsFormat(segs);
    JoinAvoids(segs, '/', '?');
    CutWhole(f, '?');
    SplitOfJoin(segs, '/');
    forall i | 0 <= i < |segs| ensures !Leaks(segs[i]) {
      if segs[i] == "%s" {
        assert segs[i][2..] == "";
      } else {
        LiteralFormat(segs[i], "");
      }
    }
    TemplatesCollapse(f);
  }

  // ---------- a template that leaks ----------

  const LEAKING: string := "/%sds"

  /** LEAKING character by character. */
  lemma LeakingIs(f: string)
    requires f == LEAKING
    ensures |f| == 5 && f[0] == '/' && f[1] == '%' && f[2] == 's' && f[3] == 'd' && f[4] == 's'
  {}

  lemma LeakingPath(f: string, id: ByteString)
    requires f == LEAKING && |id| == 1 && IsKept(id[0])
    ensures IsFormat(f) && Holes(f) == 1
    ensures Path(f, [id]) == ['/'] + (id + ['d', 's'])
  {
    LeakingIs(f);
    var none: seq<ByteString> := [];
    var g := f[1..];
    var h := g[2..];
    var k := h[1..];
    assert g == ['%', 's', 'd', 's'] && h == ['d', 's'] && k == ['s'] && k[1..] == [];
    assert "%s" <= g;
    LastLiteral(k);
    PathLiteral(h, none);
    PathHole(g, [id]);
    assert [id][1..] == none;
    SingleEscape(id);
    PathLiteral(f, [id]);
  }

  lemma LastLiteral(k: string)
    requires |k| == 1 && k[0] != '%'
    ensures IsFormat(k) && Holes(k) == 0 && Path(k, []) == k
  {
    var none: seq<ByteString> := [];
    assert k[1..] == "";
    PathLiteral(k, none);
    assert Path("", none) == "";
  }

  lemma SingleEscape(id: ByteString)
    requires |id| == 1 && IsKept(id[0])
    ensures PathEscape(id) == id
  {
    assert id[1..] == "";
  }

  /**
   With "ds" after a hole, of the one-digit IDs, which all keep their digit on their own, "3" and
   only "3" is not collapsed.
   */
  lemma LeakingTemplate(f: string, id: ByteString)
    requires f == LEAKING && |id| == 1 && IsDigit(id[0])
    ensures Holes(f) == 1 && HasDigit(Strip3ds(id))
    ensures MetricPath(Path(f, [id])) == "/" + if id == "3" then "3ds" else ":id"
  {
    LeakingPath(f, id);
    OneDigit(id);
    LeadingSlash(id + ['d', 's']);
    assert ['/'] == "/";
  }

  lemma OneDigit(id: string)
    requires |id| == 1 && IsDigit(id[0])
    ensures HasDigit(Strip3ds(id))
    ensures Plain(id + ['d', 's']) && (id == "3" ==> id + ['d', 's'] == "3ds")
    ensures HasSurvivor(id + ['d', 's']) <==> id != "3"
  {
    assert Survives(id, 0);
    StripKeepsSurvivors(id);
    var seg := id + ['d', 's'];
    assert seg == [id[0], 'd', 's'];
    assert Survives(seg, 0) <==> id[0] != '3';
  }

  lemma LeadingSlash(seg: string)
    requires Plain(seg)
    ensures MetricPath("/" + seg) == "/" + if HasSurvivor(seg) then ":id" else seg
  {
    StripKeepsSurvivors(seg);
    MetricPathCons("", seg);
    MetricPathOne(seg, "");
    assert "" + "/" + seg == "/" + seg;
  }
}
