/** Which detections of a list are kept, said of the list alone, and when the longer of two overlapping
    ones is. */
module SpanPicks {
  import opened Spans

  lemma KeptOf(ds: seq<Detection>)
    requires NonEmpty(ds)
    ensures Separate(Kept(ds)) && forall k :: k in Kept(ds) ==> k in ds
  {
    hide Separate;
    Resolves(ds);
    forall k | k in Kept(ds) ensures k in ds {
      assert k in multiset(Kept(ds));
      assert k in multiset(ds);
    }
  }

  lemma {:induction false} DroppedHasConflict(conflicts: seq<Conflict>, d: Detection) returns (k: Detection)
    requires d in Dropped(conflicts)
    ensures Conflict(k, d) in conflicts
  {
    var last := conflicts[|conflicts| - 1];
    if last.dropped == d {
      k := last.kept;
    } else {
      k := DroppedHasConflict(conflicts[..|conflicts| - 1], d);
    }
  }

  lemma ConflictsOf(ds: seq<Detection>, c: Conflict)
    requires NonEmpty(ds) && c in Conflicts(ds)
    ensures c.kept in Kept(ds) && c.dropped in ds && c.kept.start <= c.dropped.start < c.kept.end
    ensures ComesBefore(c.kept, c.dropped)
  {
    hide SortBy, SortedBy, Separate, Greedy;
    var ordered := SortBy(ds, Precedence);
    SortBySorts(ds, Precedence);
    SortedNonEmpty(ds, ordered);
    Resolves(ds);
    GreedyKeepsOrder(ordered);
    var r := Greedy(ordered);
    ConflictIsDropped(r.conflicts, c);
    assert c.dropped in multiset(r.kept) + multiset(Dropped(r.conflicts));
    assert c.dropped in multiset(ds);
  }

  lemma {:induction false} ConflictIsDropped(conflicts: seq<Conflict>, c: Conflict)
    requires c in conflicts
    ensures c.dropped in Dropped(conflicts)
  {
    if c != conflicts[|conflicts| - 1] {
      ConflictIsDropped(conflicts[..|conflicts| - 1], c);
    }
  }

  // Starts earlier, or at the same place and is no shorter.
  predicate ComesBefore(a: Detection, b: Detection) {
    a.start < b.start || (a.start == b.start && Length(b) <= Length(a))
  }

  // Every detection is kept, or begins inside a kept one that comes before it and is reported so.
  lemma CoversStart(ds: seq<Detection>, d: Detection) returns (i: nat)
    requires NonEmpty(ds) && d in ds
    ensures i < |Kept(ds)| && Kept(ds)[i].start <= d.start < Kept(ds)[i].end && ComesBefore(Kept(ds)[i], d)
    ensures Kept(ds)[i] == d || Conflict(Kept(ds)[i], d) in Conflicts(ds)
  {
    hide Greedy, SortBy, Separate;
    Resolves(ds);
    var kept, conflicts := Kept(ds), Conflicts(ds);
    assert d in multiset(ds) && d in multiset(kept) + multiset(Dropped(conflicts));
    var k := d;
    if d !in kept {
      k := DroppedHasConflict(conflicts, d);
      ConflictsOf(ds, Conflict(k, d));
    }
    i :| 0 <= i < |kept| && kept[i] == k;
  }

  // Two kept spans that share a position are one.
  lemma SharedIsOne(kept: seq<Detection>, i: nat, j: nat, p: int)
    requires Separate(kept) && i < |kept| && j < |kept|
    requires kept[i].start <= p < kept[i].end && kept[j].start <= p < kept[j].end
    ensures i == j
  {
  }

  // ----- picking -----

  predicate Follows(front: seq<Detection>, d: Detection) {
    front == [] || front[|front| - 1].end <= d.start
  }

  /** Always the earliest detection that begins where the last pick ends or later, and of those that
      begin there the longest. */
  ghost predicate Picks(ds: seq<Detection>, es: seq<Detection>) {
    es == [] || (Picks(ds, es[..|es| - 1]) && NextPick(ds, es[..|es| - 1], es[|es| - 1]))
  }

  ghost predicate NextPick(ds: seq<Detection>, front: seq<Detection>, e: Detection) {
    e in ds && Follows(front, e) && forall d :: d in ds && Follows(front, d) ==> ComesBefore(e, d)
  }

  lemma {:induction false} KeptArePicks(ds: seq<Detection>, n: nat)
    requires NonEmpty(ds) && n <= |Kept(ds)|
    ensures Picks(ds, Kept(ds)[..n])
  {
    hide Kept, ComesBefore;
    if n > 0 {
      KeptArePicks(ds, n - 1);
      KeptOf(ds);
      var kept := Kept(ds);
      var front, e := kept[..n - 1], kept[n - 1];
      assert kept[..n][..n - 1] == front && kept[..n][n - 1] == e;
      forall d | d in ds && Follows(front, d) ensures ComesBefore(e, d) {
        KeptIsNext(ds, n - 1, d);
      }
    }
  }

  lemma KeptIsNext(ds: seq<Detection>, n: nat, d: Detection)
    requires NonEmpty(ds) && n <= |Kept(ds)| && d in ds && Follows(Kept(ds)[..n], d)
    ensures n < |Kept(ds)| && ComesBefore(Kept(ds)[n], d)
  {
    hide Kept, ComesBefore, Separate;
    KeptOf(ds);
    var i := CoversStart(ds, d);
    NotBeforeNext(Kept(ds), n, i, d);
  }

  // A kept span that d begins inside is the next one, or a later one.
  lemma NotBeforeNext(kept: seq<Detection>, n: nat, i: nat, d: Detection)
    requires Separate(kept) && n <= |kept| && i < |kept| && Follows(kept[..n], d)
    requires kept[i].start <= d.start < kept[i].end && ComesBefore(kept[i], d)
    ensures n < |kept| && ComesBefore(kept[n], d)
  {
    if i > n {
      assert kept[n].start < kept[n].end <= kept[i].start;
    }
  }

  predicate SameSpan(a: Detection, b: Detection) {
    a.start == b.start && a.end == b.end
  }

  lemma {:induction false} PicksAreKept(ds: seq<Detection>, es: seq<Detection>)
    requires NonEmpty(ds) && Picks(ds, es)
    ensures |es| <= |Kept(ds)| && forall i :: 0 <= i < |es| ==> SameSpan(es[i], Kept(ds)[i])
  {
    hide Kept, Follows, ComesBefore;
    if es != [] {
      var n := |es| - 1;
      var front, e := es[..n], es[n];
      var kept := Kept(ds);
      PicksAreKept(ds, front);
      assert front == [] || SameSpan(front[n - 1], kept[n - 1]);
      SameFollows(front, kept[..n], e);
      KeptIsNext(ds, n, e);
      KeptArePicks(ds, n + 1);
      assert kept[..n + 1][..n] == kept[..n];
      SameFollows(front, kept[..n], kept[n]);
      SameWhenBoth(e, kept[n]);
    }
  }

  lemma SameFollows(front: seq<Detection>, kept: seq<Detection>, d: Detection)
    requires |front| == |kept| && (front == [] || SameSpan(front[|front| - 1], kept[|kept| - 1]))
    ensures Follows(front, d) <==> Follows(kept, d)
  {
  }

  lemma SameWhenBoth(a: Detection, b: Detection)
    requires ComesBefore(a, b) && ComesBefore(b, a)
    ensures SameSpan(a, b)
  {
  }

  /** The kept spans are the picks: they are picked in this order, nothing is left to pick after the
      last, and whatever is picked, kinds aside, is a beginning of them. */
  lemma KeptIsPicked(ds: seq<Detection>)
    requires NonEmpty(ds)
    ensures Picks(ds, Kept(ds)) && forall d :: d in ds ==> !Follows(Kept(ds), d)
    ensures forall es :: Picks(ds, es) ==>
      |es| <= |Kept(ds)| && forall i :: 0 <= i < |es| ==> SameSpan(es[i], Kept(ds)[i])
  {
    hide Kept, Picks, Follows, SameSpan;
    var kept := Kept(ds);
    assert kept[..|kept|] == kept;
    KeptArePicks(ds, |kept|);
    forall d | d in ds ensures !Follows(kept, d) {
      if Follows(kept, d) {
        KeptIsNext(ds, |kept|, d);
      }
    }
    forall es | Picks(ds, es)
      ensures |es| <= |kept| && forall i :: 0 <= i < |es| ==> SameSpan(es[i], kept[i])
    {
      PicksAreKept(ds, es);
    }
  }

  // ----- ties -----

  // The order of kinds when spans are equal; any other kind comes last.
  function Rank(kind: string): nat {
    if kind == "VAT_ID" then 0
    else if kind == "UID" then 1
    else if kind == "AHV" then 2
    else if kind == "IBAN" || kind == "QR_IBAN" then 3
    else if kind == "CREDIT_CARD" then 4
    else if kind == "PHONE" then 5
    else if kind == "EMAIL" then 6
    else if kind == "URL" then 7
    else if kind == "IP_ADDRESS" then 8
    else if kind == "MAC_ADDRESS" then 9
    else 10
  }

  lemma RankIs(kind: string)
    ensures if kind in PRIORITY then PRIORITY[kind] == Rank(kind) < 10 else Rank(kind) == 10
  {
    if Rank(kind) == 10 {
      forall k | k in PRIORITY ensures kind != k {
        assert Rank(k) < 10;
      }
    }
  }

  lemma PriorityIsRank(a: string, b: string)
    ensures Priority(a) <= Priority(b) <==> Rank(a) <= Rank(b)
  {
    RankIs(a);
    RankIs(b);
    hide Rank, PRIORITY;
  }

  /** Of detections of one span the kept one has the first kind in the order of kinds. */
  lemma TieGoesToRank(ds: seq<Detection>, k: Detection, d: Detection)
    requires NonEmpty(ds) && k in Kept(ds) && d in ds && SameSpan(k, d)
    ensures Rank(k.kind) <= Rank(d.kind)
  {
    hide Kept, Conflicts, Rank;
    KeptOf(ds);
    var i := CoversStart(ds, d);
    var j :| 0 <= j < |Kept(ds)| && Kept(ds)[j] == k;
    SharedIsOne(Kept(ds), i, j, d.start);
    if k != d {
      ConflictKeepsOrder(ds, Conflict(k, d));
    }
    PriorityIsRank(k.kind, d.kind);
  }

  lemma ConflictKeepsOrder(ds: seq<Detection>, c: Conflict)
    requires NonEmpty(ds) && c in Conflicts(ds)
    ensures Leq(Precedence(c.kept), Precedence(c.dropped))
  {
    hide SortBy, SortedBy, Greedy, Leq;
    var ordered := SortBy(ds, Precedence);
    SortBySorts(ds, Precedence);
    SortedNonEmpty(ds, ordered);
    GreedyKeepsOrder(ordered);
  }

  // ----- "longer spans win" -----

  // No detection is dropped for a shorter one.
  ghost predicate LongerWins(ds: seq<Detection>) {
    forall c :: c in Conflicts(ds) ==> Length(c.dropped) <= Length(c.kept)
  }

  // No detection that begins inside a pick, after its start, is longer than it.
  ghost predicate PicksAreLongest(ds: seq<Detection>) {
    forall es, d :: Picks(ds, es) && es != [] && d in ds && BeginsWithin(es[|es| - 1], d) ==>
      Length(d) <= Length(es[|es| - 1])
  }

  predicate BeginsWithin(e: Detection, d: Detection) {
    e.start < d.start < e.end
  }

  lemma WithinPickIsDropped(ds: seq<Detection>, es: seq<Detection>, d: Detection) returns (c: Conflict)
    requires NonEmpty(ds) && Picks(ds, es) && es != [] && d in ds && BeginsWithin(es[|es| - 1], d)
    ensures c in Conflicts(ds) && c.dropped == d && SameSpan(c.kept, es[|es| - 1])
  {
    hide Kept, Conflicts, Picks;
    var n := |es| - 1;
    PicksAreKept(ds, es);
    assert SameSpan(es[n], Kept(ds)[n]);
    KeptOf(ds);
    var i := CoversStart(ds, d);
    SharedIsOne(Kept(ds), i, n, d.start);
    c := Conflict(Kept(ds)[i], d);
  }

  lemma ConflictIsWithinPick(ds: seq<Detection>, c: Conflict)
    requires NonEmpty(ds) && c in Conflicts(ds) && PicksAreLongest(ds)
    ensures Length(c.dropped) <= Length(c.kept)
  {
    hide Kept, Conflicts, Picks;
    ConflictsOf(ds, c);
    var i :| 0 <= i < |Kept(ds)| && Kept(ds)[i] == c.kept;
    KeptArePicks(ds, i + 1);
    var es := Kept(ds)[..i + 1];
    assert es[|es| - 1] == c.kept;
    assert BeginsWithin(es[|es| - 1], c.dropped) ==> Length(c.dropped) <= Length(c.kept);
  }

  /** Longer spans win throughout a list exactly when no detection that begins within a pick is longer
      than it. */
  lemma LongerWinsIff(ds: seq<Detection>)
    requires NonEmpty(ds)
    ensures LongerWins(ds) <==> PicksAreLongest(ds)
  {
    hide Kept, Conflicts, Picks, BeginsWithin;
    if LongerWins(ds) {
      forall es, d | Picks(ds, es) && es != [] && d in ds && BeginsWithin(es[|es| - 1], d)
        ensures Length(d) <= Length(es[|es| - 1])
      {
        var c := WithinPickIsDropped(ds, es, d);
      }
    }
    if PicksAreLongest(ds) {
      forall c | c in Conflicts(ds) ensures Length(c.dropped) <= Length(c.kept) {
        ConflictIsWithinPick(ds, c);
      }
    }
  }

  /** Of three detections the middle one is longer than the last, starts before it and overlaps it; yet
      it is dropped, for the first one, and the shorter last one is kept. */
  lemma LongerEarlierMayLose(a: Detection, b: Detection, c: Detection)
    requires a.start == 0 && a.end == 4 && b.start == 3 && b.end == 10 && c.start == 9 && c.end == 12
    ensures Overlaps(b, c) && Length(b) > Length(c) && b.start < c.start
    ensures Kept([a, b, c]) == [a, c] && Conflicts([a, b, c]) == [Conflict(a, b)] && !LongerWins([a, b, c])
  {
    ResolvedOfThree(a, b, c);
    hide Kept, Conflicts;
    assert Conflict(a, b) in Conflicts([a, b, c]);
  }

  // Three detections in order: the second overlaps the first, the third does not.
  lemma ResolvedOfThree(a: Detection, b: Detection, c: Detection)
    requires a.start < b.start < a.end <= c.start && b.start < c.start
    ensures Kept([a, b, c]) == [a, c] && Conflicts([a, b, c]) == [Conflict(a, b)]
  {
    SortedThree(a, b, c);
    hide SortBy, Precedence;
    GreedyOfTwo(a, b);
    AppendResolved([a, b], a, b, c);
    assert [a, b] + [c] == [a, b, c];
  }

  lemma SortedThree(a: Detection, b: Detection, c: Detection)
    requires a.start < b.start < c.start
    ensures SortBy([a, b, c], Precedence) == [a, b, c]
  {
    assert SortedBy([a, b, c], Precedence);
    hide SortedBy, SortBy;
    SortedStays([a, b, c], Precedence);
  }

  lemma AppendResolved(front: seq<Detection>, a: Detection, b: Detection, c: Detection)
    requires Greedy(front) == Report([a], [Conflict(a, b)]) && a.end <= c.start
    ensures Greedy(front + [c]) == Report([a, c], [Conflict(a, b)])
  {
    assert (front + [c])[..|front|] == front;
    assert [a] + [c] == [a, c];
  }
}
