/** Overlapping detections: which are kept, which are dropped, and what redaction leaves of the text. */
module Spans {
  datatype Detection = Detection(start: int, end: int, kind: string, value: string, rule: string)

  datatype Conflict = Conflict(kept: Detection, dropped: Detection)

  predicate Overlaps(a: Detection, b: Detection) {
    a.start < b.end && b.start < a.end
  }

  ghost predicate NonEmpty(ds: seq<Detection>) {
    forall i :: 0 <= i < |ds| ==> ds[i].start < ds[i].end
  }

  // ----- sorting by a key, stably -----

  type Key = (int, int, int)

  predicate Leq(a: Key, b: Key) {
    a.0 < b.0 || (a.0 == b.0 && (a.1 < b.1 || (a.1 == b.1 && a.2 <= b.2)))
  }

  function Insert(sorted: seq<Detection>, d: Detection, key: Detection -> Key): seq<Detection> {
    if sorted == [] || Leq(key(sorted[|sorted| - 1]), key(d)) then sorted + [d]
    else Insert(sorted[..|sorted| - 1], d, key) + [sorted[|sorted| - 1]]
  }

  // sorted(ds, key=key)
  function SortBy(ds: seq<Detection>, key: Detection -> Key): seq<Detection> {
    if ds == [] then [] else Insert(SortBy(ds[..|ds| - 1], key), ds[|ds| - 1], key)
  }

  ghost predicate SortedBy(ds: seq<Detection>, key: Detection -> Key) {
    forall i, j :: 0 <= i < j < |ds| ==> Leq(key(ds[i]), key(ds[j]))
  }

  lemma {:induction false} InsertSorts(sorted: seq<Detection>, d: Detection, key: Detection -> Key)
    requires SortedBy(sorted, key)
    ensures SortedBy(Insert(sorted, d, key), key)
    ensures multiset(Insert(sorted, d, key)) == multiset(sorted) + multiset{d}
  {
    if sorted == [] || Leq(key(sorted[|sorted| - 1]), key(d)) {
    } else {
      var front, last := sorted[..|sorted| - 1], sorted[|sorted| - 1];
      InsertSorts(front, d, key);
      var r := Insert(front, d, key);
      assert sorted == front + [last];
      forall i | 0 <= i < |r| ensures Leq(key(r[i]), key(last)) {
        assert r[i] in multiset(r);
        if r[i] != d {
          assert r[i] in multiset(front);
        }
      }
    }
  }

  lemma {:induction false} SortBySorts(ds: seq<Detection>, key: Detection -> Key)
    ensures SortedBy(SortBy(ds, key), key) && multiset(SortBy(ds, key)) == multiset(ds)
  {
    if ds != [] {
      var front, last := ds[..|ds| - 1], ds[|ds| - 1];
      SortBySorts(front, key);
      assert ds == front + [last];
      hide SortedBy, Insert;
      InsertSorts(SortBy(front, key), last, key);
    } else {
      NothingSorted(key);
    }
  }

  lemma NothingSorted(key: Detection -> Key)
    ensures SortedBy([], key)
  {
  }

  lemma {:induction false} SortedStays(ds: seq<Detection>, key: Detection -> Key)
    requires SortedBy(ds, key)
    ensures SortBy(ds, key) == ds
  {
    if ds != [] {
      SortedStays(ds[..|ds| - 1], key);
      assert ds == ds[..|ds| - 1] + [ds[|ds| - 1]];
    }
  }

  // ----- precedence -----

  const PRIORITY: map<string, int> := map[
    "VAT_ID" := 0, "UID" := 1, "AHV" := 2, "IBAN" := 3, "QR_IBAN" := 3, "CREDIT_CARD" := 4, "PHONE" := 5, "EMAIL" := 6,
    "URL" := 7, "IP_ADDRESS" := 8, "MAC_ADDRESS" := 9]

  function Priority(kind: string): int {
    if kind in PRIORITY then PRIORITY[kind] else 99
  }

  function Precedence(d: Detection): Key {
    (d.start, -(d.end - d.start), Priority(d.kind))
  }

  function ByStart(d: Detection): Key {
    (d.start, 0, 0)
  }

  function ByStartEnd(d: Detection): Key {
    (d.start, d.end, 0)
  }

  // ----- the reference: compare with the last kept span only -----

  datatype Report = Report(kept: seq<Detection>, conflicts: seq<Conflict>)

  function Greedy(ordered: seq<Detection>): Report {
    if ordered == [] then Report([], [])
    else
      var r, d := Greedy(ordered[..|ordered| - 1]), ordered[|ordered| - 1];
      if r.kept != [] && d.start < r.kept[|r.kept| - 1].end then
        r.(conflicts := r.conflicts + [Conflict(r.kept[|r.kept| - 1], d)])
      else
        r.(kept := r.kept + [d])
  }

  // Pairwise disjoint, in order.
  ghost predicate Separate(kept: seq<Detection>) {
    NonEmpty(kept) && forall i, j :: 0 <= i < j < |kept| ==> kept[i].end <= kept[j].start
  }

  ghost predicate BeginsInside(conflicts: seq<Conflict>, kept: seq<Detection>) {
    forall c :: c in conflicts ==> c.kept in kept && c.kept.start <= c.dropped.start < c.kept.end
  }

  function Dropped(conflicts: seq<Conflict>): seq<Detection> {
    if conflicts == [] then [] else Dropped(conflicts[..|conflicts| - 1]) + [conflicts[|conflicts| - 1].dropped]
  }

  ghost predicate StartOrdered(ds: seq<Detection>) {
    forall i, j :: 0 <= i < j < |ds| ==> ds[i].start <= ds[j].start
  }

  lemma Separated(kept: seq<Detection>, d: Detection)
    requires Separate(kept) && d.start < d.end && (kept == [] || kept[|kept| - 1].end <= d.start)
    ensures Separate(kept + [d])
  {
    var all := kept + [d];
    forall i, j | 0 <= i < j < |all| ensures all[i].end <= all[j].start {
      if j == |kept| && i < |kept| - 1 {
        assert kept[i].end <= kept[|kept| - 1].start < kept[|kept| - 1].end;
      }
    }
  }

  lemma {:induction false} GreedyKeeps(ordered: seq<Detection>)
    requires NonEmpty(ordered)
    ensures Separate(Greedy(ordered).kept)
    ensures forall k :: k in Greedy(ordered).kept ==> k in ordered
  {
    hide Separate;
    if ordered != [] {
      var front, d := ordered[..|ordered| - 1], ordered[|ordered| - 1];
      GreedyKeeps(front);
      var kept := Greedy(front).kept;
      if kept == [] || kept[|kept| - 1].end <= d.start {
        Separated(kept, d);
      }
      assert ordered == front + [d];
    } else {
      NothingSeparate();
    }
  }

  lemma NothingSeparate()
    ensures Separate([])
  {
  }

  lemma {:induction false} GreedyDrops(ordered: seq<Detection>)
    requires NonEmpty(ordered) && StartOrdered(ordered)
    ensures BeginsInside(Greedy(ordered).conflicts, Greedy(ordered).kept)
  {
    if ordered != [] {
      var front, d := ordered[..|ordered| - 1], ordered[|ordered| - 1];
      GreedyDrops(front);
      GreedyKeeps(front);
      var kept := Greedy(front).kept;
      if kept != [] {
        var last := kept[|kept| - 1];
        assert last in front;
        var i :| 0 <= i < |front| && front[i] == last;
        assert ordered[i].start <= d.start;
      }
    }
  }

  // A dropped span comes later in the order than the kept one reported with it.
  ghost predicate Precedes(conflicts: seq<Conflict>) {
    forall c :: c in conflicts ==> Leq(Precedence(c.kept), Precedence(c.dropped))
  }

  lemma {:induction false} GreedyKeepsOrder(ordered: seq<Detection>)
    requires NonEmpty(ordered) && SortedBy(ordered, Precedence)
    ensures Precedes(Greedy(ordered).conflicts)
  {
    if ordered != [] {
      var front, d := ordered[..|ordered| - 1], ordered[|ordered| - 1];
      GreedyKeepsOrder(front);
      GreedyKeeps(front);
      var kept := Greedy(front).kept;
      if kept != [] {
        assert kept[|kept| - 1] in front;
        var i :| 0 <= i < |front| && front[i] == kept[|kept| - 1];
        assert Leq(Precedence(ordered[i]), Precedence(d));
      }
    }
  }

  lemma DroppedOfAppend(conflicts: seq<Conflict>, c: Conflict)
    ensures Dropped(conflicts + [c]) == Dropped(conflicts) + [c.dropped]
  {
    assert (conflicts + [c])[..|conflicts|] == conflicts;
  }

  lemma {:induction false} GreedyPartitions(ordered: seq<Detection>)
    ensures multiset(Greedy(ordered).kept) + multiset(Dropped(Greedy(ordered).conflicts)) == multiset(ordered)
  {
    if ordered == [] {
      NothingDropped();
    } else {
      var front, d := ordered[..|ordered| - 1], ordered[|ordered| - 1];
      GreedyPartitions(front);
      OneMoreResolved(front, d);
      assert ordered == front + [d];
      hide *;
    }
  }

  // The step adds its detection to one side or the other.
  lemma OneMoreResolved(front: seq<Detection>, d: Detection)
    ensures var r, t := Greedy(front), Greedy(front + [d]);
      multiset(t.kept) + multiset(Dropped(t.conflicts))
      == multiset(r.kept) + multiset(Dropped(r.conflicts)) + multiset{d}
  {
    var r, t := Greedy(front), Greedy(front + [d]);
    GreedyStep(front, d);
    hide *;
    if t.kept == r.kept {
      DroppedOfAppend(r.conflicts, t.conflicts[|t.conflicts| - 1]);
      MultisetOfAppend(Dropped(r.conflicts), d);
    } else {
      MultisetOfAppend(r.kept, d);
    }
  }

  lemma GreedyStep(front: seq<Detection>, d: Detection)
    ensures var r, t := Greedy(front), Greedy(front + [d]);
      (t.kept == r.kept && exists k :: t.conflicts == r.conflicts + [Conflict(k, d)])
      || (t.kept == r.kept + [d] && t.conflicts == r.conflicts)
  {
    assert (front + [d])[..|front|] == front;
  }

  lemma MultisetOfAppend(ds: seq<Detection>, d: Detection)
    ensures multiset(ds + [d]) == multiset(ds) + multiset{d}
  {
  }

  lemma NothingDropped()
    ensures Dropped([]) == []
  {
  }

  // A candidate that starts no earlier overlaps at most the last kept span.
  lemma OnlyLastOverlaps(kept: seq<Detection>, d: Detection, i: nat)
    requires Separate(kept) && i < |kept| && d.start < d.end && forall k :: k in kept ==> k.start <= d.start
    ensures Overlaps(d, kept[i]) <==> i == |kept| - 1 && d.start < kept[i].end
  {
    if i < |kept| - 1 {
      assert kept[i].end <= kept[i + 1].start && kept[i + 1] in kept;
    } else {
      assert kept[i] in kept;
    }
  }

  // ----- the code's own scan -----

  method FirstOverlap(d: Detection, accepted: seq<Detection>) returns (found: nat)
    ensures found <= |accepted| && forall j :: 0 <= j < found ==> !Overlaps(d, accepted[j])
    ensures found < |accepted| ==> Overlaps(d, accepted[found])
  {
    found := 0;
    while found < |accepted| && !Overlaps(d, accepted[found])
      invariant found <= |accepted| && forall j :: 0 <= j < found ==> !Overlaps(d, accepted[j])
    {
      found := found + 1;
    }
  }

  lemma StartsOrdered(ds: seq<Detection>)
    requires SortedBy(ds, Precedence)
    ensures StartOrdered(ds)
  {
    forall i, j | 0 <= i < j < |ds| ensures ds[i].start <= ds[j].start {
      assert Leq(Precedence(ds[i]), Precedence(ds[j]));
    }
  }

  lemma SortedNonEmpty(ds: seq<Detection>, sorted: seq<Detection>)
    requires NonEmpty(ds) && multiset(sorted) == multiset(ds)
    ensures NonEmpty(sorted)
  {
    forall i | 0 <= i < |sorted| ensures sorted[i].start < sorted[i].end {
      assert sorted[i] in multiset(ds);
    }
  }

  lemma SeparateIsSorted(kept: seq<Detection>)
    requires Separate(kept)
    ensures SortedBy(kept, ByStart) && SortedBy(kept, ByStartEnd)
  {
  }

  lemma ScanFindsLast(kept: seq<Detection>, d: Detection, found: nat)
    requires Separate(kept) && d.start < d.end && forall k :: k in kept ==> k.start <= d.start
    requires found <= |kept| && (forall j :: 0 <= j < found ==> !Overlaps(d, kept[j]))
      && (found < |kept| ==> Overlaps(d, kept[found]))
    ensures found < |kept| <==> kept != [] && d.start < kept[|kept| - 1].end
    ensures found < |kept| ==> found == |kept| - 1
  {
    hide Overlaps, Separate;
    if found < |kept| {
      OnlyLastOverlaps(kept, d, found);
    } else if kept != [] {
      OnlyLastOverlaps(kept, d, |kept| - 1);
    }
  }

  lemma KeptStartBefore(ordered: seq<Detection>, i: nat)
    requires NonEmpty(ordered) && StartOrdered(ordered) && i < |ordered|
    ensures Separate(Greedy(ordered[..i]).kept)
    ensures forall k :: k in Greedy(ordered[..i]).kept ==> k.start <= ordered[i].start
  {
    GreedyKeeps(ordered[..i]);
    forall k | k in Greedy(ordered[..i]).kept ensures k.start <= ordered[i].start {
      assert k in ordered[..i];
    }
  }

  // Scanning all kept spans gives what comparing with the last one gives.
  method Scan(ordered: seq<Detection>) returns (kept: seq<Detection>, conflicts: seq<Conflict>)
    requires NonEmpty(ordered) && StartOrdered(ordered)
    ensures Report(kept, conflicts) == Greedy(ordered)
  {
    hide Overlaps, Separate;
    kept, conflicts := [], [];
    for i := 0 to |ordered|
      invariant Report(kept, conflicts) == Greedy(ordered[..i])
    {
      var d := ordered[i];
      assert ordered[..i + 1][..i] == ordered[..i];
      KeptStartBefore(ordered, i);
      var found := FirstOverlap(d, kept);
      ScanFindsLast(kept, d, found);
      if found < |kept| {
        conflicts := conflicts + [Conflict(kept[found], d)];
      } else {
        kept := kept + [d];
      }
    }
    assert ordered[..|ordered|] == ordered;
  }

  /** The whole report; sorting the kept spans once more moves nothing. */
  method MergeReport(detections: seq<Detection>) returns (kept: seq<Detection>, conflicts: seq<Conflict>)
    requires NonEmpty(detections)
    ensures Report(kept, conflicts) == Greedy(SortBy(detections, Precedence))
  {
    var ordered := SortBy(detections, Precedence);
    SortBySorts(detections, Precedence);
    StartsOrdered(ordered);
    SortedNonEmpty(detections, ordered);
    kept, conflicts := Scan(ordered);
    GreedyKeeps(ordered);
    SeparateIsSorted(kept);
    SortedStays(kept, ByStart);
    kept := SortBy(kept, ByStart);
  }

  /** Whatever the detections, the kept spans are pairwise disjoint and in order, every dropped one
      begins inside the kept one reported with it, and together they are exactly the detections. */
  lemma Resolves(detections: seq<Detection>)
    requires NonEmpty(detections)
    ensures var r := Greedy(SortBy(detections, Precedence));
            && Separate(r.kept) && BeginsInside(r.conflicts, r.kept)
            && multiset(r.kept) + multiset(Dropped(r.conflicts)) == multiset(detections)
  {
    var ordered := SortBy(detections, Precedence);
    SortBySorts(detections, Precedence);
    StartsOrdered(ordered);
    SortedNonEmpty(detections, ordered);
    GreedyKeeps(ordered);
    GreedyDrops(ordered);
    GreedyPartitions(ordered);
  }

  // What merging keeps of a list of detections, and what it reports as dropped.
  function Kept(detections: seq<Detection>): seq<Detection> {
    Greedy(SortBy(detections, Precedence)).kept
  }

  function Conflicts(detections: seq<Detection>): seq<Conflict> {
    Greedy(SortBy(detections, Precedence)).conflicts
  }

  function Length(d: Detection): int {
    d.end - d.start
  }

  // What is kept of two overlapping spans, in either input order: the one that comes first.
  lemma FirstOfTwoIsKept(a: Detection, b: Detection)
    requires a.start < a.end && b.start < b.end && Overlaps(a, b)
    requires a.start < b.start || (a.start == b.start && Length(a) > Length(b))
    ensures Greedy(SortBy([a, b], Precedence)) == Report([a], [Conflict(a, b)])
    ensures Greedy(SortBy([b, a], Precedence)) == Report([a], [Conflict(a, b)])
  {
    SortOfTwo(a, b);
    GreedyOfTwo(a, b);
  }

  /** Of just two overlapping spans of different lengths, in either input order, one is kept: the
      longer one exactly when it starts no later than the shorter. */
  lemma LongerOfTwoWinsIff(long: Detection, short: Detection)
    requires long.start < long.end && short.start < short.end && Overlaps(long, short)
    requires Length(long) > Length(short)
    ensures Kept([long, short]) == Kept([short, long]) == [if long.start <= short.start then long else short]
  {
    hide Greedy, SortBy;
    if long.start <= short.start {
      FirstOfTwoIsKept(long, short);
    } else {
      FirstOfTwoIsKept(short, long);
    }
  }

  lemma SortOfTwo(a: Detection, b: Detection)
    requires a.start < b.start || (a.start == b.start && Length(a) > Length(b))
    ensures SortBy([a, b], Precedence) == [a, b] == SortBy([b, a], Precedence)
  {
    var ab, ba, none := [a, b], [b, a], [];
    assert ab[..1] == [a] && ba[..1] == [b];
    assert [a][..0] == none && [b][..0] == none;
    assert SortBy([a], Precedence) == [a] && SortBy([b], Precedence) == [b];
  }

  lemma GreedyOfTwo(a: Detection, b: Detection)
    requires b.start < a.end
    ensures Greedy([a, b]) == Report([a], [Conflict(a, b)])
  {
    var none: seq<Detection> := [];
    assert [a, b][..1] == [a] && [a][..0] == none;
    assert Greedy([a]) == Report([a], []);
  }
}
