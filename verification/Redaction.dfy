/** Replacing the kept detections of a text by markers. */
module Redaction {
  import opened Spans
  import opened SpanPicks

  datatype Piece = Plain(text: string) | Marker(kind: string)

  function LowerChar(c: char): char {
    if 'A' <= c <= 'Z' then c - 'A' + 'a' else c
  }

  function Lower(s: string): string {
    if s == "" then "" else Lower(s[..|s| - 1]) + [LowerChar(s[|s| - 1])]
  }

  function Shown(p: Piece): string {
    match p
    case Plain(text) => text
    case Marker(kind) => "[bowden-" + Lower(kind) + "-redacted]"
  }

  function Render(pieces: seq<Piece>): string {
    if pieces == [] then "" else Render(pieces[..|pieces| - 1]) + Shown(pieces[|pieces| - 1])
  }

  ghost predicate Inside(ds: seq<Detection>, text: string) {
    forall i :: 0 <= i < |ds| ==> 0 <= ds[i].start && ds[i].end <= |text|
  }

  // Everything before a position: the text between spans, and a marker for each.
  function Pieces(text: string, kept: seq<Detection>): seq<Piece>
    requires Separate(kept) && Inside(kept, text)
  {
    if kept == [] then []
    else
      var n := |kept| - 1;
      Pieces(text, kept[..n]) + [Plain(text[EndOf(kept[..n])..kept[n].start]), Marker(kept[n].kind)]
  }

  function EndOf(kept: seq<Detection>): int {
    if kept == [] then 0 else kept[|kept| - 1].end
  }

  function Redacted(text: string, kept: seq<Detection>): seq<Piece>
    requires Separate(kept) && Inside(kept, text)
  {
    Pieces(text, kept) + [Plain(text[EndOf(kept)..])]
  }

  lemma KeptIsSeparate(detections: seq<Detection>, text: string)
    requires NonEmpty(detections) && Inside(detections, text)
    ensures Separate(Kept(detections)) && Inside(Kept(detections), text)
  {
    Resolves(detections);
    var r := Greedy(SortBy(detections, Precedence));
    forall i | 0 <= i < |r.kept| ensures 0 <= r.kept[i].start && r.kept[i].end <= |text| {
      assert r.kept[i] in multiset(r.kept);
      assert r.kept[i] in multiset(detections);
    }
  }

  lemma PrefixSeparate(kept: seq<Detection>, text: string, n: nat)
    requires Separate(kept) && Inside(kept, text) && n <= |kept|
    ensures Separate(kept[..n]) && Inside(kept[..n], text)
  {
  }

  lemma EndBefore(kept: seq<Detection>, text: string, i: nat)
    requires Separate(kept) && Inside(kept, text) && i < |kept|
    ensures 0 <= EndOf(kept[..i]) <= kept[i].start < kept[i].end <= |text|
  {
    if i > 0 {
      assert EndOf(kept[..i]) == kept[i - 1].end <= kept[i].start;
      assert 0 <= kept[i - 1].start < kept[i - 1].end;
    }
  }

  lemma NextPieces(kept: seq<Detection>, text: string, i: nat)
    requires Separate(kept) && Inside(kept, text) && i < |kept|
    ensures Separate(kept[..i]) && Inside(kept[..i], text) && Separate(kept[..i + 1]) && Inside(kept[..i + 1], text)
    ensures 0 <= EndOf(kept[..i]) <= kept[i].start < kept[i].end <= |text|
    ensures Pieces(text, kept[..i + 1])
         == Pieces(text, kept[..i]) + [Plain(text[EndOf(kept[..i])..kept[i].start]), Marker(kept[i].kind)]
  {
    hide Separate, Inside;
    PrefixSeparate(kept, text, i);
    PrefixSeparate(kept, text, i + 1);
    EndBefore(kept, text, i);
    assert kept[..i + 1][..i] == kept[..i];
  }

  method Replace(text: string, spans: seq<Detection>) returns (redacted: string)
    requires Separate(spans) && Inside(spans, text)
    ensures redacted == Render(Redacted(text, spans)) == Masked(text, 0, spans)
  {
    var parts: seq<Piece>, cursor: int := [], 0;
    for i := 0 to |spans|
      invariant Separate(spans[..i]) && Inside(spans[..i], text)
      invariant 0 <= cursor <= |text| && cursor == EndOf(spans[..i]) && parts == Pieces(text, spans[..i])
    {
      hide Separate, Inside, Pieces;
      NextPieces(spans, text, i);
      var item := spans[i];
      // Never taken: kept spans are disjoint and in order.
      if item.start < cursor {
        continue;
      }
      parts := parts + [Plain(text[cursor..item.start]), Marker(item.kind)];
      cursor := item.end;
    }
    assert spans[..|spans|] == spans;
    redacted := Render(parts + [Plain(text[cursor..])]);
    RenderIsMasked(text, spans);
  }

  method RedactBowden(text: string, detections: seq<Detection>) returns (redacted: string)
    requires NonEmpty(detections) && Inside(detections, text)
    ensures Separate(Kept(detections)) && Inside(Kept(detections), text)
    ensures redacted == Render(Redacted(text, Kept(detections))) == Masked(text, 0, Kept(detections))
  {
    KeptIsSeparate(detections, text);
    var kept, conflicts := MergeReport(detections);
    assert kept == Kept(detections);
    hide Kept, Greedy, SortBy, Separate, Inside;
    SeparateIsSorted(kept);
    SortedStays(kept, ByStartEnd);
    var spans := SortBy(kept, ByStartEnd);
    if spans == [] {
      NothingRedacted(text);
      assert text[0..] == text;
      return text;
    }
    redacted := Replace(text, spans);
  }

  lemma NothingRedacted(text: string)
    ensures Separate([]) && Inside([], text) && Render(Redacted(text, [])) == text
  {
    assert Redacted(text, []) == [Plain(text)];
    assert [Plain(text)][..0] == [];
    assert "" + text == text;
  }

  // ----- the returned string, from the first span on -----

  // ASCII capitals in lower case.
  function LowerCase(kind: string): string {
    seq(|kind|, i requires 0 <= i < |kind| =>
      if 65 <= kind[i] as int <= 90 then (kind[i] as int + 32) as char else kind[i])
  }

  /** The text from the cursor on with a marker for each span. */
  function Masked(text: string, cursor: nat, kept: seq<Detection>): string
    requires cursor <= |text| && Separate(kept) && Inside(kept, text) && (kept != [] ==> cursor <= kept[0].start)
    decreases |kept|
  {
    if kept == [] then text[cursor..]
    else
      var k := kept[0];
      text[cursor..k.start] + "[bowden-" + LowerCase(k.kind) + "-redacted]" + Masked(text, k.end, kept[1..])
  }

  lemma {:induction false} LowerIs(s: string)
    ensures Lower(s) == LowerCase(s)
  {
    if s != "" {
      LowerIs(s[..|s| - 1]);
    }
  }

  lemma {:induction false} RenderOfJoin(a: seq<Piece>, b: seq<Piece>)
    ensures Render(a + b) == Render(a) + Render(b)
  {
    hide Shown;
    if b == [] {
      assert a + b == a;
    } else {
      var n := |b| - 1;
      RenderOfJoin(a, b[..n]);
      assert (a + b)[..|a + b| - 1] == a + b[..n] && (a + b)[|a + b| - 1] == b[n];
      Associate(Render(a), Render(b[..n]), Shown(b[n]));
    }
  }

  lemma RenderOfOne(p: Piece)
    ensures Render([p]) == Shown(p)
  {
    assert [p][..0] == [];
  }

  lemma RenderOfSpan(text: string, from: nat, k: Detection)
    requires from <= k.start <= |text|
    ensures Render([Plain(text[from..k.start]), Marker(k.kind)])
      == text[from..k.start] + "[bowden-" + LowerCase(k.kind) + "-redacted]"
  {
    var plain, marker := Plain(text[from..k.start]), Marker(k.kind);
    RenderOfJoin([plain], [marker]);
    RenderOfOne(plain);
    RenderOfOne(marker);
    assert [plain] + [marker] == [plain, marker];
    LowerIs(k.kind);
  }

  lemma SplitAt(kept: seq<Detection>, text: string, i: nat)
    requires Separate(kept) && Inside(kept, text) && i <= |kept|
    ensures Separate(kept[..i]) && Inside(kept[..i], text) && Separate(kept[i..]) && Inside(kept[i..], text)
    ensures 0 <= EndOf(kept[..i]) <= |text| && (i < |kept| ==> EndOf(kept[..i]) <= kept[i].start)
  {
    PrefixSeparate(kept, text, i);
    if i < |kept| {
      EndBefore(kept, text, i);
    }
  }

  lemma MaskedStep(text: string, kept: seq<Detection>, i: nat, cursor: nat)
    requires i < |kept| && Separate(kept[i..]) && Inside(kept[i..], text) && cursor <= kept[i].start
    requires cursor <= |text| && 0 <= kept[i].end <= |text| && Separate(kept[i + 1..]) && Inside(kept[i + 1..], text)
    requires i + 1 < |kept| ==> kept[i].end <= kept[i + 1].start
    ensures Masked(text, cursor, kept[i..])
         == text[cursor..kept[i].start] + "[bowden-" + LowerCase(kept[i].kind) + "-redacted]"
            + Masked(text, kept[i].end, kept[i + 1..])
  {
    assert kept[i..][1..] == kept[i + 1..];
    hide Separate, Inside;
  }

  // The spans before number i are rendered, the rest is masked.
  lemma {:induction false} RenderFrom(text: string, kept: seq<Detection>, i: nat)
    requires Separate(kept) && Inside(kept, text) && i <= |kept|
    ensures Separate(kept[..i]) && Inside(kept[..i], text) && 0 <= EndOf(kept[..i]) <= |text|
    ensures i < |kept| ==> EndOf(kept[..i]) <= kept[i].start
    ensures Separate(kept[i..]) && Inside(kept[i..], text)
    ensures Render(Redacted(text, kept))
         == Render(Pieces(text, kept[..i])) + Masked(text, EndOf(kept[..i]), kept[i..])
    decreases |kept| - i
  {
    hide Separate, Inside, Pieces, Masked, Render;
    SplitAt(kept, text, i);
    if i == |kept| {
      AllRendered(text, kept);
    } else {
      SplitAt(kept, text, i + 1);
      RenderFrom(text, kept, i + 1);
      NextPieces(kept, text, i);
      var cursor := EndOf(kept[..i]);
      var span := [Plain(text[cursor..kept[i].start]), Marker(kept[i].kind)];
      RenderOfJoin(Pieces(text, kept[..i]), span);
      RenderOfSpan(text, cursor, kept[i]);
      MaskedStep(text, kept, i, cursor);
      Associate(Render(Pieces(text, kept[..i])), Render(span), Masked(text, kept[i].end, kept[i + 1..]));
    }
  }

  lemma Associate(a: string, b: string, c: string)
    ensures a + b + c == a + (b + c)
  {
  }

  lemma AllRendered(text: string, kept: seq<Detection>)
    requires Separate(kept) && Inside(kept, text)
    ensures kept[..|kept|] == kept && kept[|kept|..] == [] && Separate([]) && Inside([], text)
    ensures 0 <= EndOf(kept) <= |text|
    ensures Render(Redacted(text, kept)) == Render(Pieces(text, kept)) + Masked(text, EndOf(kept), [])
  {
    SplitAt(kept, text, |kept|);
    assert kept[..|kept|] == kept;
    RenderOfJoin(Pieces(text, kept), [Plain(text[EndOf(kept)..])]);
    RenderOfOne(Plain(text[EndOf(kept)..]));
  }

  lemma RenderIsMasked(text: string, kept: seq<Detection>)
    requires Separate(kept) && Inside(kept, text)
    ensures kept != [] ==> 0 <= kept[0].start
    ensures Render(Redacted(text, kept)) == Masked(text, 0, kept)
  {
    hide Separate;
    RenderFrom(text, kept, 0);
    assert kept[..0] == [] && kept[0..] == kept;
    assert Render([]) + Masked(text, 0, kept) == Masked(text, 0, kept);
  }

  // ----- the reference: position by position -----

  ghost predicate Covered(kept: seq<Detection>, p: int) {
    exists i :: 0 <= i < |kept| && kept[i].start <= p < kept[i].end
  }

  // The characters of text[..n] outside every span, in order.
  ghost function Outside(text: string, kept: seq<Detection>, n: nat): string
    requires n <= |text|
  {
    if n == 0 then "" else Outside(text, kept, n - 1) + if Covered(kept, n - 1) then "" else [text[n - 1]]
  }

  function PlainText(pieces: seq<Piece>): string {
    if pieces == [] then ""
    else
      var before, last := PlainText(pieces[..|pieces| - 1]), pieces[|pieces| - 1];
      if last.Plain? then before + last.text else before
  }

  function MarkerKinds(pieces: seq<Piece>): seq<string> {
    if pieces == [] then []
    else
      var before, last := MarkerKinds(pieces[..|pieces| - 1]), pieces[|pieces| - 1];
      if last.Marker? then before + [last.kind] else before
  }

  function Kinds(kept: seq<Detection>): seq<string> {
    if kept == [] then [] else Kinds(kept[..|kept| - 1]) + [kept[|kept| - 1].kind]
  }

  // From m to n nothing, or everything, is covered.
  lemma {:induction false} OutsideOfGap(text: string, kept: seq<Detection>, m: nat, n: nat)
    requires m <= n <= |text| && forall p :: m <= p < n ==> !Covered(kept, p)
    ensures Outside(text, kept, n) == Outside(text, kept, m) + text[m..n]
  {
    if m < n {
      OutsideOfGap(text, kept, m, n - 1);
      assert text[m..n] == text[m..n - 1] + [text[n - 1]];
    }
  }

  lemma {:induction false} OutsideOfSpan(text: string, kept: seq<Detection>, m: nat, n: nat)
    requires m <= n <= |text| && forall p :: m <= p < n ==> Covered(kept, p)
    ensures Outside(text, kept, n) == Outside(text, kept, m)
  {
    if m < n {
      OutsideOfSpan(text, kept, m, n - 1);
    }
  }

  // Spans that begin at n or later do not matter before n.
  lemma {:induction false} OutsideOfFront(text: string, kept: seq<Detection>, k: nat, n: nat)
    requires n <= |text| && k <= |kept| && forall i :: k <= i < |kept| ==> n <= kept[i].start
    ensures Outside(text, kept, n) == Outside(text, kept[..k], n)
  {
    if n > 0 {
      OutsideOfFront(text, kept, k, n - 1);
      assert Covered(kept[..k], n - 1) ==> Covered(kept, n - 1);
      if Covered(kept, n - 1) {
        var i :| 0 <= i < |kept| && kept[i].start <= n - 1 < kept[i].end;
        assert kept[..k][i] == kept[i];
      }
    }
  }

  lemma PlainTextOfTwo(pieces: seq<Piece>, t: string, kind: string)
    ensures PlainText(pieces + [Plain(t), Marker(kind)]) == PlainText(pieces) + t
    ensures MarkerKinds(pieces + [Plain(t), Marker(kind)]) == MarkerKinds(pieces) + [kind]
  {
    var all := pieces + [Plain(t), Marker(kind)];
    assert all[..|all| - 1] == pieces + [Plain(t)];
    assert (pieces + [Plain(t)])[..|pieces|] == pieces;
  }

  lemma {:induction false} PiecesKeepOutside(text: string, kept: seq<Detection>)
    requires Separate(kept) && Inside(kept, text)
    ensures 0 <= EndOf(kept) <= |text|
    ensures PlainText(Pieces(text, kept)) == Outside(text, kept, EndOf(kept))
    ensures MarkerKinds(Pieces(text, kept)) == Kinds(kept)
  {
    hide PlainText, MarkerKinds;
    if kept == [] {
      NothingShown();
    } else {
      var n := |kept| - 1;
      var front, last := kept[..n], kept[n];
      PiecesKeepOutside(text, front);
      var cursor := EndOf(front);
      assert cursor <= last.start by {
        assert n > 0 ==> kept[n - 1].end <= kept[n].start;
      }
      PlainTextOfTwo(Pieces(text, front), text[cursor..last.start], last.kind);
      OutsideOfFront(text, kept, n, last.start);
      forall p | cursor <= p < last.start ensures !Covered(front, p) {
        assert forall i :: 0 <= i < n ==> kept[i].end <= cursor;
      }
      OutsideOfGap(text, front, cursor, last.start);
      OutsideOfSpan(text, kept, last.start, last.end);
    }
  }

  lemma NothingShown()
    ensures PlainText([]) == "" && MarkerKinds([]) == []
  {
  }

  /** What redaction shows besides its markers is exactly the text outside the kept spans, every
      character in order and none from inside; and there is one marker per kept span, in order. */
  lemma RedactionKeepsOutside(text: string, detections: seq<Detection>)
    requires NonEmpty(detections) && Inside(detections, text)
    requires Separate(Kept(detections)) && Inside(Kept(detections), text)
    ensures var pieces, kept := Redacted(text, Kept(detections)), Kept(detections);
            && PlainText(pieces) == Outside(text, kept, |text|)
            && MarkerKinds(pieces) == Kinds(kept)
  {
    var kept := Kept(detections);
    hide Kept, Pieces, Outside, PlainText, MarkerKinds, Kinds;
    PiecesKeepOutside(text, kept);
    PlainTextOfOne(Pieces(text, kept), text[EndOf(kept)..]);
    NothingAfterEnd(text, kept);
  }

  lemma PlainTextOfOne(pieces: seq<Piece>, t: string)
    ensures PlainText(pieces + [Plain(t)]) == PlainText(pieces) + t
    ensures MarkerKinds(pieces + [Plain(t)]) == MarkerKinds(pieces)
  {
    assert (pieces + [Plain(t)])[..|pieces|] == pieces;
  }

  lemma NothingAfterEnd(text: string, kept: seq<Detection>)
    requires Separate(kept) && 0 <= EndOf(kept) <= |text|
    ensures Outside(text, kept, |text|) == Outside(text, kept, EndOf(kept)) + text[EndOf(kept)..]
  {
    forall p | EndOf(kept) <= p < |text| ensures !Covered(kept, p) {
      EndsBefore(kept, p);
    }
    hide Outside, Covered, Separate;
    OutsideOfGap(text, kept, EndOf(kept), |text|);
    assert text[EndOf(kept)..|text|] == text[EndOf(kept)..];
  }

  lemma EndsBefore(kept: seq<Detection>, p: int)
    requires Separate(kept) && EndOf(kept) <= p
    ensures !Covered(kept, p)
  {
    forall i | 0 <= i < |kept| ensures kept[i].end <= p {
      assert i == |kept| - 1 || kept[i].end <= kept[|kept| - 1].start < kept[|kept| - 1].end;
    }
  }

  // ----- what is left of the detections themselves -----

  // Every position of every detection lies in a kept span.
  ghost predicate AllHidden(detections: seq<Detection>) {
    forall d, p :: d in detections && d.start <= p < d.end ==> Covered(Kept(detections), p)
  }

  // Begins before position p and ends after it.
  predicate Straddles(x: Detection, p: int) {
    x.start < p < x.end
  }

  // No detection that begins where `e` does is longer.
  ghost predicate LongestAtStart(ds: seq<Detection>, e: Detection) {
    e in ds && forall d :: d in ds && d.start == e.start ==> Length(d) <= Length(e)
  }

  /** Detections laid end to end, each the longest at its start, from a place that no detection
      straddles. */
  ghost predicate Chain(ds: seq<Detection>, es: seq<Detection>) {
    && es != []
    && (forall i :: 0 <= i < |es| ==> LongestAtStart(ds, es[i]))
    && (forall i :: 0 < i < |es| ==> es[i - 1].end == es[i].start)
    && forall x :: x in ds ==> !Straddles(x, es[0].start)
  }

  ghost predicate Tiled(ds: seq<Detection>, d: Detection) {
    exists es :: Chain(ds, es) && Spanned(es, d)
  }

  predicate Spanned(es: seq<Detection>, d: Detection) {
    es != [] && es[0].start <= d.start && d.end <= es[|es| - 1].end
  }

  // ----- from the list to what is kept -----

  lemma LongestIsKept(ds: seq<Detection>, e: Detection) returns (i: nat)
    requires NonEmpty(ds) && LongestAtStart(ds, e)
    requires forall k :: k in Kept(ds) ==> !Straddles(k, e.start)
    ensures i < |Kept(ds)| && SameSpan(Kept(ds)[i], e)
  {
    hide Kept;
    i := CoversStart(ds, e);
    KeptOf(ds);
    assert Kept(ds)[i] in Kept(ds);
  }

  lemma NothingStraddlesEnd(kept: seq<Detection>, i: nat, k: Detection)
    requires Separate(kept) && i < |kept| && k in kept
    ensures !Straddles(k, kept[i].end)
  {
    var j :| 0 <= j < |kept| && kept[j] == k;
  }

  // Every link of a chain is kept, kinds aside.
  lemma {:induction false} ChainIsKept(ds: seq<Detection>, es: seq<Detection>, n: nat) returns (i: nat)
    requires NonEmpty(ds) && Chain(ds, es) && n < |es|
    ensures i < |Kept(ds)| && SameSpan(Kept(ds)[i], es[n])
  {
    hide Kept, LongestAtStart;
    KeptOf(ds);
    if n > 0 {
      var before := ChainIsKept(ds, es, n - 1);
      forall k | k in Kept(ds) ensures !Straddles(k, es[n].start) {
        NothingStraddlesEnd(Kept(ds), before, k);
      }
    }
    i := LongestIsKept(ds, es[n]);
  }

  // A position between the ends of a chain lies in one of its links.
  lemma {:induction false} LinkAt(ds: seq<Detection>, es: seq<Detection>, n: nat, p: int) returns (j: nat)
    requires Chain(ds, es) && n < |es| && es[0].start <= p < es[n].end
    ensures j <= n && es[j].start <= p < es[j].end
  {
    if es[n].start <= p {
      j := n;
    } else {
      j := LinkAt(ds, es, n - 1, p);
    }
  }

  lemma TiledIsCovered(ds: seq<Detection>, d: Detection, p: int)
    requires NonEmpty(ds) && Tiled(ds, d) && d.start <= p < d.end
    ensures Covered(Kept(ds), p)
  {
    hide Kept, Chain;
    var es :| Chain(ds, es) && Spanned(es, d);
    var j := LinkAt(ds, es, |es| - 1, p);
    var i := ChainIsKept(ds, es, j);
  }

  // ----- from what is kept to the list -----

  lemma KeptIsLongest(ds: seq<Detection>, i: nat)
    requires NonEmpty(ds) && i < |Kept(ds)|
    ensures LongestAtStart(ds, Kept(ds)[i])
  {
    hide Kept;
    KeptOf(ds);
    var k := Kept(ds)[i];
    forall d | d in ds && d.start == k.start ensures Length(d) <= Length(k) {
      var j := CoversStart(ds, d);
      SharedIsOne(Kept(ds), i, j, d.start);
    }
  }

  // Kept spans from number i to number j lie end to end.
  predicate EndToEnd(kept: seq<Detection>, i: nat, j: nat) {
    i <= j < |kept| && forall n :: i < n <= j ==> kept[n - 1].end == kept[n].start
  }

  // The first of the kept spans that lie end to end up to number i.
  lemma {:induction false} LeftEnd(kept: seq<Detection>, i: nat) returns (l: nat)
    requires i < |kept|
    ensures EndToEnd(kept, l, i) && (l == 0 || kept[l - 1].end != kept[l].start)
  {
    l := i;
    if i > 0 && kept[i - 1].end == kept[i].start {
      l := LeftEnd(kept, i - 1);
    }
  }

  // Kept spans that cover everything from number i to a position p lie end to end.
  lemma {:induction false} RightEnd(kept: seq<Detection>, i: nat, p: int) returns (r: nat)
    requires Separate(kept) && i < |kept| && kept[i].start <= p
    requires forall q :: kept[i].start <= q <= p ==> Covered(kept, q)
    ensures EndToEnd(kept, i, r) && p < kept[r].end
    decreases p - kept[i].start
  {
    r := i;
    if kept[i].end <= p {
      assert Covered(kept, kept[i].end);
      var j :| 0 <= j < |kept| && kept[j].start <= kept[i].end < kept[j].end;
      NextIsAdjacent(kept, i, j);
      r := RightEnd(kept, i + 1, p);
    }
  }

  lemma NextIsAdjacent(kept: seq<Detection>, i: nat, j: nat)
    requires Separate(kept) && i < |kept| && j < |kept| && kept[j].start <= kept[i].end < kept[j].end
    ensures j == i + 1 && kept[j].start == kept[i].end
  {
    assert i < j && kept[i].end <= kept[i + 1].start < kept[i + 1].end;
  }

  // Nothing straddles a left end when everything is hidden.
  lemma LeftEndIsClear(ds: seq<Detection>, l: nat, x: Detection)
    requires NonEmpty(ds) && AllHidden(ds) && l < |Kept(ds)| && x in ds
    requires l == 0 || Kept(ds)[l - 1].end != Kept(ds)[l].start
    ensures !Straddles(x, Kept(ds)[l].start)
  {
    hide Kept;
    KeptOf(ds);
    var kept := Kept(ds);
    if Straddles(x, kept[l].start) {
      var p := kept[l].start - 1;
      assert Covered(kept, p);
      var m :| 0 <= m < |kept| && kept[m].start <= p < kept[m].end;
      BeforeIsAdjacent(kept, l, m);
    }
  }

  lemma BeforeIsAdjacent(kept: seq<Detection>, l: nat, m: nat)
    requires Separate(kept) && l < |kept| && m < |kept| && kept[m].start < kept[l].start <= kept[m].end
    ensures l > 0 && kept[l - 1].end == kept[l].start
  {
    assert m < l && kept[l - 1].start < kept[l - 1].end <= kept[l].start;
  }

  lemma HiddenIsTiled(ds: seq<Detection>, d: Detection)
    requires NonEmpty(ds) && AllHidden(ds) && d in ds
    ensures Tiled(ds, d)
  {
    hide Kept, Chain, Separate, ComesBefore, Covered;
    KeptOf(ds);
    var kept := Kept(ds);
    var i := CoversStart(ds, d);
    var l := LeftEnd(kept, i);
    assert forall q :: d.start <= q < d.end ==> Covered(kept, q);
    CoveredThrough(kept, i, d);
    var r := RightEnd(kept, i, d.end - 1);
    KeptIsChain(ds, l, i, r);
    LeftIsLower(kept, l, i);
    assert Spanned(kept[l..r + 1], d);
  }

  lemma CoveredThrough(kept: seq<Detection>, i: nat, d: Detection)
    requires i < |kept| && kept[i].start <= d.start < kept[i].end
    requires forall q :: d.start <= q < d.end ==> Covered(kept, q)
    ensures forall q :: kept[i].start <= q <= d.end - 1 ==> Covered(kept, q)
  {
    forall q | kept[i].start <= q <= d.end - 1 ensures Covered(kept, q) {
      if q < d.start {
        assert kept[i].start <= q < kept[i].end;
      }
    }
  }

  lemma LeftIsLower(kept: seq<Detection>, l: nat, i: nat)
    requires Separate(kept) && l <= i < |kept|
    ensures kept[l].start <= kept[i].start
  {
    if l < i {
      assert kept[l].start < kept[l].end <= kept[i].start;
    }
  }

  lemma KeptIsChain(ds: seq<Detection>, l: nat, i: nat, r: nat)
    requires NonEmpty(ds) && AllHidden(ds) && EndToEnd(Kept(ds), l, i) && EndToEnd(Kept(ds), i, r)
    requires l == 0 || Kept(ds)[l - 1].end != Kept(ds)[l].start
    ensures Chain(ds, Kept(ds)[l..r + 1])
  {
    hide Kept, LongestAtStart, AllHidden;
    var kept := Kept(ds);
    var es := kept[l..r + 1];
    forall n | 0 <= n < |es| ensures LongestAtStart(ds, es[n]) {
      KeptIsLongest(ds, l + n);
    }
    forall x | x in ds ensures !Straddles(x, es[0].start) {
      LeftEndIsClear(ds, l, x);
    }
  }

  /** Redaction hides all that was detected exactly when every detection lies within detections laid end
      to end, each the longest at its start, from a place that no detection straddles. */
  lemma AllHiddenIff(ds: seq<Detection>)
    requires NonEmpty(ds)
    ensures AllHidden(ds) <==> forall d :: d in ds ==> Tiled(ds, d)
  {
    hide Kept, Tiled;
    if AllHidden(ds) {
      forall d | d in ds ensures Tiled(ds, d) {
        HiddenIsTiled(ds, d);
      }
    }
    if forall d :: d in ds ==> Tiled(ds, d) {
      forall d, p | d in ds && d.start <= p < d.end ensures Covered(Kept(ds), p) {
        TiledIsCovered(ds, d, p);
      }
    }
  }

  /** Which positions are hidden: those of the picks. */
  lemma CoveredIffPicked(ds: seq<Detection>, p: int)
    requires NonEmpty(ds)
    ensures Covered(Kept(ds), p) <==>
      exists es: seq<Detection> :: Picks(ds, es) && es != [] && es[|es| - 1].start <= p < es[|es| - 1].end
  {
    hide Kept, Picks;
    var kept := Kept(ds);
    if Covered(kept, p) {
      var i :| 0 <= i < |kept| && kept[i].start <= p < kept[i].end;
      KeptArePicks(ds, i + 1);
      var es := kept[..i + 1];
      assert es != [] && es[|es| - 1] == kept[i];
    }
    if es: seq<Detection> :| Picks(ds, es) && es != [] && es[|es| - 1].start <= p < es[|es| - 1].end {
      PicksAreKept(ds, es);
      assert SameSpan(es[|es| - 1], kept[|es| - 1]);
    }
  }

  // ----- crossing -----

  // `b` begins inside `a` and outlasts it.
  predicate Crosses(a: Detection, b: Detection) {
    a.start < b.start < a.end < b.end
  }

  // No two detections cross: each pair is disjoint or nested.
  ghost predicate Laminar(detections: seq<Detection>) {
    forall a, b :: a in detections && b in detections ==> !Crosses(a, b)
  }

  /** Detections that are pairwise disjoint or nested are redacted whole, however many. */
  lemma LaminarIsHidden(detections: seq<Detection>)
    requires NonEmpty(detections) && Laminar(detections)
    ensures AllHidden(detections)
  {
    hide Kept;
    KeptOf(detections);
    forall d, p | d in detections && d.start <= p < d.end ensures Covered(Kept(detections), p) {
      var i := CoversStart(detections, d);
      assert !Crosses(Kept(detections)[i], d);
    }
  }

  /** In a longer list a third detection may cover the tail: here the second of two that cross is
      dropped, and all is hidden. */
  lemma ThirdMayCoverTail(a: Detection, b: Detection, c: Detection)
    requires a.start == 0 && a.end == 5 && b.start == 3 && b.end == 6 && c.start == 5 && c.end == 10
    ensures Crosses(a, b) && Conflict(a, b) in Conflicts([a, b, c]) && AllHidden([a, b, c])
  {
    var ds := [a, b, c];
    assert NonEmpty(ds) && Crosses(a, b);
    hide *;
    ResolvedOfThree(a, b, c);
    assert [Conflict(a, b)][0] in Conflicts(ds);
    ThreeAreTiled(a, b, c);
    AllHiddenIff(ds);
  }

  lemma ThreeAreTiled(a: Detection, b: Detection, c: Detection)
    requires a.start == 0 && a.end == 5 && b.start == 3 && b.end == 6 && c.start == 5 && c.end == 10
    ensures forall d :: d in [a, b, c] ==> Tiled([a, b, c], d)
  {
    var ds, es := [a, b, c], [a, c];
    assert LongestAtStart(ds, a) && LongestAtStart(ds, c);
    hide LongestAtStart;
    assert Chain(ds, es);
    hide Chain;
    assert Spanned(es, a) && Spanned(es, b) && Spanned(es, c);
  }

  lemma CrossingLeavesTail(a: Detection, b: Detection)
    requires Crosses(a, b)
    ensures Kept([a, b]) == [a] == Kept([b, a])
    ensures !Covered([a], a.end) && b.start <= a.end < b.end
  {
    FirstOfTwoIsKept(a, b);
  }

  /** Just two detections are redacted whole exactly when neither begins inside the other and outlasts it. */
  lemma PairHiddenIff(a: Detection, b: Detection)
    requires a.start < a.end && b.start < b.end
    ensures AllHidden([a, b]) <==> !Crosses(a, b) && !Crosses(b, a)
  {
    var pair := [a, b];
    assert a in pair && b in pair;
    hide Kept;
    if Crosses(a, b) {
      CrossingLeavesTail(a, b);
      assert !Covered(Kept(pair), a.end);
    } else if Crosses(b, a) {
      CrossingLeavesTail(b, a);
      assert !Covered(Kept(pair), b.end);
    } else {
      LaminarIsHidden(pair);
    }
  }

  // What the text then shows of just two: everything from the end of the kept span on.
  lemma DroppedTailStays(text: string, a: Detection, b: Detection)
    requires 0 <= a.start && b.end <= |text| && Crosses(a, b)
    ensures Kept([a, b]) == [a] && Separate([a]) && Inside([a], text)
    ensures Masked(text, 0, Kept([a, b]))
         == text[..a.start] + "[bowden-" + LowerCase(a.kind) + "-redacted]" + text[a.end..]
    ensures Render(Redacted(text, Kept([a, b]))) == Masked(text, 0, Kept([a, b]))
  {
    CrossingLeavesTail(a, b);
    hide Kept;
    OnePiece(text, a);
    RenderIsMasked(text, [a]);
    assert [a][1..] == [] && text[0..a.start] == text[..a.start];
  }

  lemma OnePiece(text: string, a: Detection)
    requires 0 <= a.start < a.end <= |text|
    ensures Separate([a]) && Inside([a], text)
  {
  }
}
