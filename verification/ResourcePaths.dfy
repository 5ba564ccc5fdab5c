/**
 What a path built by pathf from a template of the client's form says: its IDs can be read back, its
 metric tag is the template's, and it names the template's resource exactly when no ID is empty or a
 dot segment (section 5.2.4 of RFC 3986).
 */
module ResourcePaths {
  import opened GoText
  import opened RequestPath
  import opened PathTemplates

  // ---------- the IDs can be read back ----------

  /** The segments of a filled path: each hole escaped, every other segment as it is. */
  function Filled(segs: seq<string>, ids: seq<ByteString>): (r: seq<string>)
    requires HolesOf(segs) == |ids|
    ensures |r| == |segs|
  {
    if segs == [] then []
    else
      var k := Holes(segs[0]);
      [Path(segs[0], ids[..k])] + Filled(segs[1..], ids[k..])
  }

  /** What a server reads in one segment: the ID of a hole, nothing of other text. */
  function ReadHere(seg: string, part: string): seq<string> {
    if seg == "%s" && PathUnescape(part).Some? then [PathUnescape(part).value] else []
  }

  /** What a server reads at the template's holes. */
  function ReadBack(segs: seq<string>, parts: seq<string>): seq<string>
    requires |segs| == |parts|
  {
    if segs == [] then [] else ReadHere(segs[0], parts[0]) + ReadBack(segs[1..], parts[1..])
  }

  lemma {:induction false} FilledSegments(segs: seq<string>, ids: seq<ByteString>)
    requires WholeSegmentHoles(segs) && HolesOf(segs) == |ids|
    ensures Holes(Join(segs, '/')) == |ids| && Split(Path(Join(segs, '/'), ids), '/') == Filled(segs, ids)
  {
    var k := Holes(segs[0]);
    PlainPath(segs[0], ids[..k]);
    if |segs| == 1 {
      assert ids[..k] == ids;
      SplitAtFirst(Path(segs[0], ids), "", '/');
    } else {
      var rest := Join(segs[1..], '/');
      FilledSegments(segs[1..], ids[k..]);
      JoinIsFormat(segs);
      FormatParts(segs[0], '/', rest);
      PathAround(segs[0], '/', rest, ids);
      SplitAtFirst(Path(segs[0], ids[..k]), Path(rest, ids[k..]), '/');
    }
  }

  lemma HolePath(id: ByteString)
    ensures Holes("%s") == 1 && Path("%s", [id]) == PathEscape(id)
  {
    assert "%s"[2..] == "" && [id][1..] == [];
    PathHole("%s", [id]);
  }

  lemma SegmentReadsBack(seg: string, ids: seq<ByteString>)
    requires seg == "%s" || '%' !in seg
    requires Holes(seg) == |ids|
    ensures ReadHere(seg, Path(seg, ids)) == ids
  {
    if seg == "%s" {
      HolePath(ids[0]);
      EscapeRoundTrip(ids[0]);
      assert ids == [ids[0]];
    } else {
      LiteralFormat(seg, "");
    }
  }

  lemma FilledStep(seg: string, rest: seq<string>, ids: seq<ByteString>, more: seq<ByteString>)
    requires Holes(seg) == |ids| && HolesOf(rest) == |more|
    ensures HolesOf([seg] + rest) == |ids + more|
    ensures Filled([seg] + rest, ids + more) == [Path(seg, ids)] + Filled(rest, more)
  {
    assert ([seg] + rest)[1..] == rest && (ids + more)[..|ids|] == ids && (ids + more)[|ids|..] == more;
  }

  lemma ReadStep(seg: string, rest: seq<string>, part: string, parts: seq<string>)
    requires |rest| == |parts|
    ensures ReadBack([seg] + rest, [part] + parts) == ReadHere(seg, part) + ReadBack(rest, parts)
  {
    assert ([seg] + rest)[1..] == rest && ([part] + parts)[1..] == parts;
  }

  lemma {:induction false} FilledReadsBack(segs: seq<string>, ids: seq<ByteString>)
    requires forall i :: 0 <= i < |segs| ==> segs[i] == "%s" || '%' !in segs[i]
    requires HolesOf(segs) == |ids|
    ensures ReadBack(segs, Filled(segs, ids)) == ids
  {
    if segs == [] {
    } else {
      var k, rest := Holes(segs[0]), segs[1..];
      assert segs == [segs[0]] + rest && ids == ids[..k] + ids[k..];
      FilledReadsBack(rest, ids[k..]);
      SegmentReadsBack(segs[0], ids[..k]);
      FilledStep(segs[0], rest, ids[..k], ids[k..]);
      ReadStep(segs[0], rest, Path(segs[0], ids[..k]), Filled(rest, ids[k..]));
    }
  }

  /**
   Splitting the path and unescaping its holes gives back exactly the IDs, whatever they contain; so
   different IDs never make the same path.
   */
  lemma IdsReadBack(segs: seq<string>, ids: seq<ByteString>)
    requires WholeSegmentHoles(segs) && HolesOf(segs) == |ids|
    ensures Holes(Join(segs, '/')) == |ids|
    ensures var parts := Split(Path(Join(segs, '/'), ids), '/');
      |parts| == |segs| && ReadBack(segs, parts) == ids
  {
    FilledSegments(segs, ids);
    FilledReadsBack(segs, ids);
  }

  // ---------- the tag ----------

  /** The template with ":id" at each hole and every other segment collapsed. */
  function TagSegments(segs: seq<string>): (r: seq<string>)
    ensures |r| == |segs|
  {
    seq(|segs|, i requires 0 <= i < |segs| => if segs[i] == "%s" then ":id" else Collapse(segs[i]))
  }

  lemma {:induction false} LiteralPath(seg: string)
    requires '%' !in seg
    ensures Holes(seg) == 0 && Path(seg, []) == seg
  {
    var none: seq<ByteString> := [];
    if seg == "" {
      assert Path(seg, none) == "";
    } else {
      LiteralPath(seg[1..]);
      assert seg[0] in seg;
      PathLiteral(seg, none);
      assert seg == [seg[0]] + seg[1..];
    }
  }

  lemma SegmentTag(seg: string, ids: seq<ByteString>)
    requires seg == "%s" || '%' !in seg
    requires Fills(seg, ids)
    ensures Collapse(Path(seg, ids)) == if seg == "%s" then ":id" else Collapse(seg)
  {
    if seg == "%s" {
      HolePath(ids[0]);
      assert ids == [ids[0]];
      StripKeepsSurvivors(ids[0]);
      EscapeKeepsSurvivors(ids[0]);
      StripKeepsSurvivors(PathEscape(ids[0]));
    } else {
      LiteralPath(seg);
      assert ids == [];
    }
  }

  lemma {:induction false} TagIsTemplate(segs: seq<string>, ids: seq<ByteString>)
    requires segs != [] && (forall i :: 0 <= i < |segs| ==> segs[i] == "%s" || '%' !in segs[i])
    requires HolesOf(segs) == |ids| && AllKeep(ids)
    ensures Tag(segs, ids) == Join(TagSegments(segs), '/')
  {
    var k := Holes(segs[0]);
    var tags := TagSegments(segs);
    SegmentTag(segs[0], ids[..k]);
    if |segs| == 1 {
      assert tags == [tags[0]];
      assert tags[0] + "" == tags[0];
    } else {
      TagIsTemplate(segs[1..], ids[k..]);
      assert tags[1..] == TagSegments(segs[1..]);
      Assoc(tags[0], "/", Join(tags[1..], '/'));
    }
  }

  /** The tag of a filled template is the template with ":id" at each hole. */
  lemma TagOfTemplate(segs: seq<string>, ids: seq<ByteString>)
    requires WholeSegmentHoles(segs) && HolesOf(segs) == |ids| && AllKeep(ids)
    ensures Holes(Join(segs, '/')) == |ids|
    ensures MetricPath(Path(Join(segs, '/'), ids)) == Join(TagSegments(segs), '/')
  {
    FilledSegments(segs, ids);
    JoinIsFormat(segs);
    TagOfPath(Join(segs, '/'), ids);
    JoinAvoids(segs, '/', '?');
    CutWhole(Join(segs, '/'), '?');
    SplitOfJoin(segs, '/');
    TagIsTemplate(segs, ids);
  }

  /** The query never shows in a tag. */
  lemma QueryDropped(p: string, q: string)
    ensures MetricPath(p + "?" + q) == MetricPath(p)
  {
    var (base, rest, found) := Cut(p, '?');
    if found {
      assert p + "?" + q == base + ['?'] + (rest + "?" + q);
      CutAt(base, rest + "?" + q, '?');
    } else {
      assert p + "?" + q == p + ['?'] + q;
      CutAt(p, q, '?');
    }
  }

  // ---------- dot segments ----------

  predicate IsDots(seg: string) { seg == "." || seg == ".." }

  /**
   Dot-segment removal on the segments of a path, after those already kept: "." goes, ".." takes the
   segment before it along, except the one before the first '/', and a final one leaves its '/'.
   */
  function RemoveDots(kept: seq<string>, segs: seq<string>): seq<string>
    decreases |segs|
  {
    if segs == [] then kept
    else
      var base :=
        if segs[0] == "." then kept
        else if segs[0] == ".." then if |kept| > 1 then kept[..|kept| - 1] else kept
        else kept + [segs[0]];
      RemoveDots(if IsDots(segs[0]) && |segs| == 1 then base + [""] else base, segs[1..])
  }

  ghost predicate NoDots(segs: seq<string>) {
    forall i :: 0 <= i < |segs| ==> !IsDots(segs[i])
  }

  lemma {:induction false} RemovalLeavesNone(kept: seq<string>, segs: seq<string>)
    requires NoDots(kept)
    ensures NoDots(RemoveDots(kept, segs))
    decreases |segs|
  {
    if segs == [] {
    } else {
      var base :=
        if segs[0] == "." then kept
        else if segs[0] == ".." then if |kept| > 1 then kept[..|kept| - 1] else kept
        else kept + [segs[0]];
      RemovalLeavesNone(if IsDots(segs[0]) && |segs| == 1 then base + [""] else base, segs[1..]);
    }
  }

  lemma {:induction false} NothingToRemove(kept: seq<string>, segs: seq<string>)
    requires NoDots(segs)
    ensures RemoveDots(kept, segs) == kept + segs
    decreases |segs|
  {
    if segs == [] {
    } else {
      NothingToRemove(kept + [segs[0]], segs[1..]);
      assert kept + [segs[0]] + segs[1..] == kept + segs;
    }
  }

  /** Removal leaves a path as it is exactly when it has no dot segment. */
  lemma RemovalKeepsExactly(segs: seq<string>)
    ensures RemoveDots([], segs) == segs <==> NoDots(segs)
  {
    RemovalLeavesNone([], segs);
    if NoDots(segs) {
      NothingToRemove([], segs);
    }
  }

  // ---------- what a filled path names ----------

  /** A text of unescaped characters is the escape of itself only. */
  lemma EscapeIs(id: ByteString, w: ByteString)
    requires forall i :: 0 <= i < |w| ==> IsKept(w[i])
    ensures PathEscape(id) == w <==> id == w
  {
    KeptEscape(w);
    EscapeRoundTrip(id);
    EscapeRoundTrip(w);
  }

  /** Some hole of the path, filled with parts, holds w. */
  ghost predicate HoleHolds(segs: seq<string>, parts: seq<string>, w: string)
    requires |segs| == |parts|
  {
    exists i :: 0 <= i < |segs| && segs[i] == "%s" && parts[i] == w
  }

  lemma HoleHoldsShift(segs: seq<string>, parts: seq<string>, w: string)
    requires |segs| == |parts| > 0
    ensures HoleHolds(segs, parts, w) <==> (segs[0] == "%s" && parts[0] == w) || HoleHolds(segs[1..], parts[1..], w)
  {
    if HoleHolds(segs[1..], parts[1..], w) {
      var i :| 0 <= i < |segs[1..]| && segs[1..][i] == "%s" && parts[1..][i] == w;
      assert segs[i + 1] == "%s" && parts[i + 1] == w;
    }
    if HoleHolds(segs, parts, w) {
      var i :| 0 <= i < |segs| && segs[i] == "%s" && parts[i] == w;
      assert i > 0 ==> segs[1..][i - 1] == "%s" && parts[1..][i - 1] == w;
    }
  }

  /** A hole holds w exactly when w is one of the IDs. */
  lemma {:induction false} HolesHoldIds(segs: seq<string>, ids: seq<ByteString>, w: ByteString)
    requires forall i :: 0 <= i < |segs| ==> segs[i] == "%s" || '%' !in segs[i]
    requires HolesOf(segs) == |ids| && forall i :: 0 <= i < |w| ==> IsKept(w[i])
    ensures HoleHolds(segs, Filled(segs, ids), w) <==> w in ids
  {
    if segs == [] {
    } else {
      var k := Holes(segs[0]);
      HoleHoldsShift(segs, Filled(segs, ids), w);
      HolesHoldIds(segs[1..], ids[k..], w);
      assert Filled(segs, ids)[1..] == Filled(segs[1..], ids[k..]);
      assert ids == ids[..k] + ids[k..];
      if segs[0] == "%s" {
        HolePath(ids[0]);
        assert ids[..k] == [ids[0]];
        EscapeIs(ids[0], w);
      } else {
        LiteralPath(segs[0]);
      }
    }
  }

  lemma {:induction false} LiteralsInPlace(segs: seq<string>, ids: seq<ByteString>, i: nat)
    requires i < |segs| && '%' !in segs[i]
    requires forall j :: 0 <= j < |segs| ==> segs[j] == "%s" || '%' !in segs[j]
    requires HolesOf(segs) == |ids|
    ensures Filled(segs, ids)[i] == segs[i]
  {
    var k := Holes(segs[0]);
    if i == 0 {
      LiteralPath(segs[0]);
      assert ids[..k] == [];
    } else {
      LiteralsInPlace(segs[1..], ids[k..], i - 1);
    }
  }

  /** A template of the client's form: whole-segment holes and no literal dot segment. */
  ghost predicate IsTemplate(segs: seq<string>) {
    WholeSegmentHoles(segs) && NoDots(segs)
  }

  /** The filled path without its holes being empty, and as it is after dot-segment removal. */
  ghost predicate NamesResource(segs: seq<string>, parts: seq<string>) {
    && |parts| == |segs|
    && RemoveDots([], parts) == parts
    && !HoleHolds(segs, parts, "")
  }

  lemma FilledDots(segs: seq<string>, ids: seq<ByteString>)
    requires IsTemplate(segs) && HolesOf(segs) == |ids|
    ensures NoDots(Filled(segs, ids)) <==> "." !in ids && ".." !in ids
  {
    var parts := Filled(segs, ids);
    HolesHoldIds(segs, ids, ".");
    HolesHoldIds(segs, ids, "..");
    forall i | 0 <= i < |segs| && IsDots(parts[i]) ensures segs[i] == "%s" {
      if segs[i] != "%s" {
        LiteralsInPlace(segs, ids, i);
      }
    }
    if HoleHolds(segs, parts, ".") || HoleHolds(segs, parts, "..") {
      var i :| 0 <= i < |segs| && segs[i] == "%s" && IsDots(parts[i]);
      assert !NoDots(parts);
    }
  }

  /** Dot-segment removal leaves a filled path as it is exactly when no ID is a dot segment. */
  lemma RemovalKeepsPath(segs: seq<string>, ids: seq<ByteString>)
    requires IsTemplate(segs) && HolesOf(segs) == |ids|
    ensures Holes(Join(segs, '/')) == |ids|
    ensures var parts := Split(Path(Join(segs, '/'), ids), '/');
      RemoveDots([], parts) == parts <==> "." !in ids && ".." !in ids
  {
    FilledSegments(segs, ids);
    FilledDots(segs, ids);
    RemovalKeepsExactly(Filled(segs, ids));
  }

  /**
   A filled path names the template's resource, with every ID in its place, exactly when no ID is
   empty or a dot segment. What it then says at its holes is the IDs.
   */
  lemma NamesResourceExactly(segs: seq<string>, ids: seq<ByteString>)
    requires IsTemplate(segs) && HolesOf(segs) == |ids|
    ensures Holes(Join(segs, '/')) == |ids|
    ensures var parts := Split(Path(Join(segs, '/'), ids), '/');
      && (NamesResource(segs, parts) <==> "" !in ids && "." !in ids && ".." !in ids)
      && (NamesResource(segs, parts) ==> ReadBack(segs, RemoveDots([], parts)) == ids)
  {
    FilledSegments(segs, ids);
    RemovalKeepsPath(segs, ids);
    HolesHoldIds(segs, ids, "");
    IdsReadBack(segs, ids);
  }

  // ---------- paths that name another resource ----------

  lemma FilledHead(seg: string, rest: seq<string>, ids: seq<ByteString>)
    requires '%' !in seg && HolesOf(rest) == |ids|
    ensures HolesOf([seg] + rest) == |ids| && Filled([seg] + rest, ids) == [seg] + Filled(rest, ids)
  {
    LiteralPath(seg);
    assert ([seg] + rest)[1..] == rest && ids[..0] == [] && ids[0..] == ids;
  }

  lemma AssocSeq<T>(a: seq<T>, b: seq<T>, c: seq<T>)
    ensures a + b + c == a + (b + c)
  {}

  lemma {:induction false} FilledConcat(head: seq<string>, tail: seq<string>, ids: seq<ByteString>,
                                        more: seq<ByteString>)
    requires HolesOf(head) == |ids| && HolesOf(tail) == |more|
    ensures HolesOf(head + tail) == |ids + more|
    ensures Filled(head + tail, ids + more) == Filled(head, ids) + Filled(tail, more)
    decreases |head|
  {
    if head == [] {
      assert head + tail == tail && ids + more == more;
    } else {
      var k, rest := Holes(head[0]), head[1..];
      FilledConcat(rest, tail, ids[k..], more);
      assert head == [head[0]] + rest && ids == ids[..k] + ids[k..];
      FilledFirst(head[0], rest, tail, ids[..k], ids[k..], more);
    }
  }

  lemma FilledFirst(seg: string, rest: seq<string>, tail: seq<string>, ids: seq<ByteString>, middle: seq<ByteString>,
                    more: seq<ByteString>)
    requires Holes(seg) == |ids| && HolesOf(rest) == |middle| && HolesOf(tail) == |more|
    requires HolesOf(rest + tail) == |middle + more|
    requires Filled(rest + tail, middle + more) == Filled(rest, middle) + Filled(tail, more)
    ensures HolesOf([seg] + rest + tail) == |ids + middle + more| && HolesOf([seg] + rest) == |ids + middle|
    ensures Filled([seg] + rest + tail, ids + middle + more) == Filled([seg] + rest, ids + middle) + Filled(tail, more)
  {
    FilledStep(seg, rest + tail, ids, middle + more);
    FilledStep(seg, rest, ids, middle);
    AssocSeq([seg], rest, tail);
    AssocSeq(ids, middle, more);
    AssocSeq([Path(seg, ids)], Filled(rest, middle), Filled(tail, more));
  }


  lemma OneHole(id: ByteString)
    ensures HolesOf(["%s"]) == 1 && Filled(["%s"], [id]) == [PathEscape(id)]
  {
    HolePath(id);
    FilledStep("%s", [], [id], []);
    assert ["%s"] + [] == ["%s"] && [id] + [] == [id];
  }

  lemma LiteralThenHole(lit: string, id: ByteString)
    requires '%' !in lit
    ensures HolesOf([lit, "%s"]) == 1 && Filled([lit, "%s"], [id]) == [lit, PathEscape(id)]
  {
    OneHole(id);
    FilledHead(lit, ["%s"], [id]);
    assert [lit] + ["%s"] == [lit, "%s"];
  }

  /** A template that ends in a hole, at the empty ID: the path of the rest, with a '/' at its end. */
  lemma EmptyIdNamesParent(head: seq<string>, ids: seq<ByteString>, segs: seq<string>)
    requires segs == head + ["%s"] && IsTemplate(segs) && HolesOf(head) == |ids|
    ensures HolesOf(segs) == |ids| + 1 && Holes(Join(segs, '/')) == |ids| + 1
    ensures Split(Path(Join(segs, '/'), ids + [""]), '/') == Filled(head, ids) + [""]
  {
    OneHole("");
    FilledConcat(head, ["%s"], ids, [""]);
    FilledSegments(segs, ids + [""]);
  }

  lemma {:induction false} PopsTwo(kept: seq<string>, segs: seq<string>, lit: string)
    requires NoDots(segs) && !IsDots(lit) && kept + segs != []
    ensures RemoveDots(kept, segs + [lit, ".."]) == kept + segs + [""]
    decreases |segs|
  {
    var all := segs + [lit, ".."];
    if segs == [] {
      assert all == [lit, ".."] && all[1..] == [".."] && [".."][1..] == [];
      assert (kept + [lit])[..|kept + [lit]| - 1] == kept;
      assert kept + segs == kept;
      assert RemoveDots(kept, all) == RemoveDots(kept + [lit], [".."]) == RemoveDots(kept + [""], []);
    } else {
      PopsTwo(kept + [segs[0]], segs[1..], lit);
      assert all[1..] == segs[1..] + [lit, ".."] && all[0] == segs[0];
      assert kept + [segs[0]] + segs[1..] == kept + segs;
    }
  }

  lemma TemplateHead(head: seq<string>, tail: seq<string>)
    requires IsTemplate(head + tail) && head != []
    ensures IsTemplate(head)
  {
    assert forall i :: 0 <= i < |head| ==> (head + tail)[i] == head[i];
  }

  /**
   A template that ends in a literal and a hole, at "..": what is left after dot-segment removal is
   the path of the template without the two, with a '/' at its end.
   */
  lemma DotsNameParent(head: seq<string>, lit: string, ids: seq<ByteString>, segs: seq<string>)
    requires segs == head + [lit, "%s"] && head != [] && IsTemplate(segs) && '%' !in lit
    requires HolesOf(head) == |ids| && "." !in ids && ".." !in ids
    ensures HolesOf(segs) == |ids| + 1 && Holes(Join(segs, '/')) == |ids| + 1
    ensures RemoveDots([], Split(Path(Join(segs, '/'), ids + [".."]), '/')) == Filled(head, ids) + [""]
  {
    LiteralThenHole(lit, "..");
    KeptEscape("..");
    FilledConcat(head, [lit, "%s"], ids, [".."]);
    FilledSegments(segs, ids + [".."]);
    TemplateHead(head, [lit, "%s"]);
    FilledDots(head, ids);
    assert segs[|head|] == lit;
    PopsTwo([], Filled(head, ids), lit);
    assert [] + Filled(head, ids) == Filled(head, ids);
  }

  // ---------- two of the client's templates ----------

  predicate IsWord(w: string) { Plain(w) && '%' !in w && !IsDots(w) }

  lemma WordsAndHoles(segs: seq<string>)
    requires segs != [] && forall i :: 0 <= i < |segs| ==> segs[i] == "%s" || IsWord(segs[i])
    ensures IsTemplate(segs)
  {}

  lemma TwoWords(a: string, b: string)
    requires '%' !in a && '%' !in b
    ensures HolesOf([a, b]) == 0 && Filled([a, b], []) == [a, b]
  {
    FilledHead(b, [], []);
    FilledHead(a, [b], []);
    assert [b] + [] == [b] && [a] + [b] == [a, b];
  }

  lemma WordsHole(a: string, b: string, id: ByteString)
    requires IsWord(a) && IsWord(b)
    ensures HolesOf([a, b, "%s"]) == 1 && Filled([a, b, "%s"], [id]) == [a, b, PathEscape(id)]
  {
    LiteralThenHole(b, id);
    FilledHead(a, [b, "%s"], [id]);
    assert [a] + [b, "%s"] == [a, b, "%s"];
  }

  /** "/cards/%s" and its like at the empty ID: the path of the collection. */
  lemma EmptyIdNamesCollection(cards: string, segs: seq<string>)
    requires IsWord(cards) && segs == ["", cards, "%s"]
    ensures IsTemplate(segs) && HolesOf(segs) == 1 && Holes(Join(segs, '/')) == 1
    ensures Split(Path(Join(segs, '/'), [""]), '/') == ["", cards, ""]
  {
    WordsAndHoles(segs);
    TwoWords("", cards);
    assert segs == ["", cards] + ["%s"] && [] + [""] == [""];
    EmptyIdNamesParent(["", cards], [], segs);
  }

  /** "/card-shipments/%s/cards/%s" and its like at the member ID "..": the shipment's own path, and a '/'. */
  lemma MemberDotsNameShipment(shipments: string, cards: string, segs: seq<string>, id: ByteString)
    requires IsWord(shipments) && IsWord(cards) && segs == ["", shipments, "%s", cards, "%s"] && !IsDots(id)
    ensures IsTemplate(segs) && HolesOf(segs) == 2 && Holes(Join(segs, '/')) == 2
    ensures RemoveDots([], Split(Path(Join(segs, '/'), [id, ".."]), '/')) == ["", shipments, PathEscape(id), ""]
  {
    WordsAndHoles(segs);
    WordsHole("", shipments, id);
    assert segs == ["", shipments, "%s"] + [cards, "%s"] && [id] + [".."] == [id, ".."];
    DotsNameParent(["", shipments, "%s"], cards, [id], segs);
  }

  /** The words of those templates in the client. */
  lemma ClientWords(cards: string, shipments: string)
    requires cards == "cards" && shipments == "card-shipments"
    ensures IsWord(cards) && IsWord(shipments)
  {}

  /** The two inputs: the empty card ID, and the member ID ".." of any shipment. */
  lemma OtherResourceNamed(cards: string, shipments: string, id: ByteString)
    requires cards == "cards" && shipments == "card-shipments" && !IsDots(id)
    ensures var card := ["", cards, "%s"];
      && Holes(Join(card, '/')) == 1
      && Split(Path(Join(card, '/'), [""]), '/') == ["", cards, ""]
      && !NamesResource(card, ["", cards, ""])
    ensures var member := ["", shipments, "%s", cards, "%s"];
      && Holes(Join(member, '/')) == 2
      && RemoveDots([], Split(Path(Join(member, '/'), [id, ".."]), '/')) == ["", shipments, PathEscape(id), ""]
  {
    ClientWords(cards, shipments);
    EmptyIdNamesCollection(cards, ["", cards, "%s"]);
    NamesResourceExactly(["", cards, "%s"], [""]);
    MemberDotsNameShipment(shipments, cards, ["", shipments, "%s", cards, "%s"], id);
  }
}
