/** The newest checkpoint hash commits to every checkpoint and every covered receipt before it. */
module TrailBinding {
  import opened Bytes
  import opened Json
  import opened Merkle
  import opened Evidence
  import opened Checkpoint
  import opened Trail
  import opened TrailSafety
  import opened TrailProofs

  function PreviousField(previous: Option<Digest>): Option<Value> {
    Some(if previous.Some? then Str(Hex(previous.value)) else Null)
  }

  // A list of checkpoint rows whose hashes and links are those of their documents.
  ghost predicate Linked(h: HashFunction, cps: seq<CheckpointRow>) {
    && Chained(cps)
    && forall i :: 0 <= i < |cps| ==>
         && CheckpointPayload(cps[i].doc).Some?
         && cps[i].hash == h(CheckpointPayload(cps[i].doc).value)
         && Get(cps[i].doc, "previous_checkpoint_sha256") == PreviousField(cps[i].previous)
  }

  lemma TrailLinked(cfg: Config, s: State)
    requires Inv(cfg, s)
    ensures Linked(cfg.lib.sha256, s.checkpoints)
  {
    hide Anchored, Authentic, Numbered, CheckpointPayload, Get, Hex, Document, Root;
    forall i | 0 <= i < |s.checkpoints|
      ensures CheckpointPayload(s.checkpoints[i].doc).Some?
      ensures s.checkpoints[i].hash == cfg.lib.sha256(CheckpointPayload(s.checkpoints[i].doc).value)
      ensures Get(s.checkpoints[i].doc, "previous_checkpoint_sha256") == PreviousField(s.checkpoints[i].previous)
    {
      CheckpointGets(cfg, s, i);
    }
  }

  lemma LinkedPrefix(h: HashFunction, cps: seq<CheckpointRow>)
    requires Linked(h, cps) && cps != []
    ensures Linked(h, cps[..|cps| - 1])
    ensures var n := |cps| - 1; cps[n].previous == if n == 0 then None else Some(cps[n - 1].hash)
  {
    hide CheckpointPayload, Get, PreviousField;
  }

  lemma SamePrevious(a: Option<Digest>, b: Option<Digest>)
    requires PreviousField(a) == PreviousField(b)
    ensures a == b
  {
    if a.Some? && b.Some? {
      HexInjective(a.value, b.value);
    }
  }

  ghost predicate SameDocuments(a: seq<CheckpointRow>, b: seq<CheckpointRow>) {
    |a| == |b| && forall i :: 0 <= i < |a| ==> a[i].doc == b[i].doc
  }

  // One step back: equal payloads mean equal documents, hence equal links.
  lemma StepBack(h: HashFunction, a: seq<CheckpointRow>, b: seq<CheckpointRow>)
    requires a != [] && b != [] && Linked(h, a) && Linked(h, b)
    requires CheckpointPayload(a[|a| - 1].doc) == CheckpointPayload(b[|b| - 1].doc)
    ensures a[|a| - 1].doc == b[|b| - 1].doc
    ensures |a| == 1 <==> |b| == 1
    ensures |a| > 1 && |b| > 1 ==> a[|a| - 2].hash == b[|b| - 2].hash
  {
    var c, d := a[|a| - 1], b[|b| - 1];
    LinkedPrefix(h, a);
    LinkedPrefix(h, b);
    CheckpointPayloadInjective(c.doc, d.doc);
    hide CheckpointPayload, Get, Chained;
    SamePrevious(c.previous, d.previous);
  }

  lemma SameDocumentsExtend(a: seq<CheckpointRow>, b: seq<CheckpointRow>)
    requires a != [] && b != [] && a[|a| - 1].doc == b[|b| - 1].doc && SameDocuments(a[..|a| - 1], b[..|b| - 1])
    ensures SameDocuments(a, b)
  {
    var n := |a| - 1;
    assert forall i :: 0 <= i < n ==> a[..n][i] == a[i] && b[..n][i] == b[i];
  }

  lemma LastPayload(h: HashFunction, a: seq<CheckpointRow>)
    requires a != [] && Linked(h, a)
    ensures CheckpointPayload(a[|a| - 1].doc).Some? && a[|a| - 1].hash == h(CheckpointPayload(a[|a| - 1].doc).value)
    ensures Linked(h, a[..|a| - 1])
  {
    LinkedPrefix(h, a);
    hide CheckpointPayload, Get, Chained, PreviousField;
  }

  // Walks two linked lists back from equal newest hashes: either every document agrees, or two
  // different payloads with one hash turn up.
  function DocumentsDifference(h: HashFunction, a: seq<CheckpointRow>, b: seq<CheckpointRow>): (r: Option<Collision>)
    requires a != [] && b != [] && Linked(h, a) && Linked(h, b)
    requires a[|a| - 1].hash == b[|b| - 1].hash
    ensures r.Some? ==> Collides(h, r.value)
    ensures r.None? ==> SameDocuments(a, b)
    decreases |a|
  {
    hide Linked, CheckpointPayload, SameDocuments;
    LastPayload(h, a);
    LastPayload(h, b);
    var x, y := CheckpointPayload(a[|a| - 1].doc).value, CheckpointPayload(b[|b| - 1].doc).value;
    if x != y then Some(Collision(x, y))
    else
      StepBack(h, a, b);
      if |a| == 1 then
        OneDocument(a, b);
        None
      else
        match DocumentsDifference(h, a[..|a| - 1], b[..|b| - 1])
        case Some(c) => Some(c)
        case None =>
          SameDocumentsExtend(a, b);
          None
  }

  lemma OneDocument(a: seq<CheckpointRow>, b: seq<CheckpointRow>)
    requires |a| == |b| == 1 && a[0].doc == b[0].doc
    ensures SameDocuments(a, b)
  {
  }

  // Two equally long lists of receipts with pairwise equal hashes.
  function BodiesDifference(h: HashFunction, xs: seq<Object>, ys: seq<Object>): (r: Option<Collision>)
    requires |xs| == |ys|
    requires forall i :: 0 <= i < |xs| ==> ReceiptHash(h, xs[i]).Some? && ReceiptHash(h, xs[i]) == ReceiptHash(h, ys[i])
    ensures r.Some? ==> Collides(h, r.value)
    ensures r.None? ==> xs == ys
  {
    hide ReceiptHash;
    if xs == [] then None
    else if xs[0] != ys[0] then Some(ReceiptCollision(h, xs[0], ys[0]))
    else
      assert xs == [xs[0]] + xs[1..] && ys == [ys[0]] + ys[1..];
      BodiesDifference(h, xs[1..], ys[1..])
  }

  // Two batches committed to by one root.
  function BatchDifference(h: HashFunction, ds: seq<Digest>, es: seq<Digest>, xs: seq<Object>,
                           ys: seq<Object>): (r: Option<Collision>)
    requires ds != [] && es != [] && Root(h, ds) == Root(h, es) && |xs| == |ds| && |ys| == |es|
    requires forall i :: 0 <= i < |xs| ==> ReceiptHash(h, xs[i]) == Some(ds[i])
    requires forall i :: 0 <= i < |ys| ==> ReceiptHash(h, ys[i]) == Some(es[i])
    ensures r.Some? ==> Collides(h, r.value)
    ensures r.None? ==> xs == ys
  {
    hide ReceiptHash, Root;
    if ds != es then Some(RootCollision(h, ds, es)) else BodiesDifference(h, xs, ys)
  }

  lemma SameDocument(cfg: Config, dfg: Config, s: State, t: State, i: nat)
    requires Inv(cfg, s) && Inv(dfg, t) && cfg.lib == dfg.lib
    requires i < |s.checkpoints| && i < |t.checkpoints| && s.checkpoints[i].doc == t.checkpoints[i].doc
    ensures var c, d := s.checkpoints[i], t.checkpoints[i];
      && InRange(s.receipts, c) && InRange(t.receipts, d) && c.first == d.first && c.last == d.last
      && Root(cfg.lib.sha256, DigestsOf(s, c)) == Root(cfg.lib.sha256, DigestsOf(t, d))
  {
    hide Inv, Root, Hex, Get, DigestsOf, CheckpointPayload, Document;
    CheckpointGets(cfg, s, i);
    CheckpointGets(dfg, t, i);
    HexInjective(Root(cfg.lib.sha256, DigestsOf(s, s.checkpoints[i])),
                 Root(cfg.lib.sha256, DigestsOf(t, t.checkpoints[i])));
  }

  lemma BodiesHash(cfg: Config, s: State, c: CheckpointRow)
    requires Inv(cfg, s) && InRange(s.receipts, c)
    ensures |Bodies(s, c)| == |DigestsOf(s, c)|
    ensures forall i :: 0 <= i < |Bodies(s, c)| ==>
      ReceiptHash(cfg.lib.sha256, Bodies(s, c)[i]) == Some(DigestsOf(s, c)[i])
  {
    hide Inv, ReceiptHash, DigestsOf, Bodies;
    forall i | 0 <= i < |Bodies(s, c)|
      ensures ReceiptHash(cfg.lib.sha256, Bodies(s, c)[i]) == Some(DigestsOf(s, c)[i])
    {
      ReceiptAuthentic(cfg, s, c.first + i);
      assert DigestsOf(s, c)[(c.first + i) - c.first] == s.receipts[c.first + i].digest;
    }
  }

  // One checkpoint's receipts agree in two trails.
  ghost predicate SameReceipts(s: State, t: State, i: nat) {
    && i < |s.checkpoints| && i < |t.checkpoints|
    && var c, d := s.checkpoints[i], t.checkpoints[i];
    && InRange(s.receipts, c) && InRange(t.receipts, d)
    && c.first == d.first && c.last == d.last
    && Bodies(s, c) == Bodies(t, d)
  }

  function OneDifference(cfg: Config, dfg: Config, s: State, t: State, i: nat): (r: Option<Collision>)
    requires Inv(cfg, s) && Inv(dfg, t) && cfg.lib == dfg.lib
    requires i < |s.checkpoints| && i < |t.checkpoints| && s.checkpoints[i].doc == t.checkpoints[i].doc
    ensures r.Some? ==> Collides(cfg.lib.sha256, r.value)
    ensures r.None? ==> SameReceipts(s, t, i)
  {
    hide Inv, Root, Bodies, DigestsOf, ReceiptHash;
    var c, d := s.checkpoints[i], t.checkpoints[i];
    SameDocument(cfg, dfg, s, t, i);
    BodiesHash(cfg, s, c);
    BodiesHash(dfg, t, d);
    BatchDifference(cfg.lib.sha256, DigestsOf(s, c), DigestsOf(t, d), Bodies(s, c), Bodies(t, d))
  }

  ghost predicate SameFrom(s: State, t: State, from: nat) {
    forall i :: from <= i < |s.checkpoints| ==> SameReceipts(s, t, i)
  }

  // Receipts covered by the checkpoints from index `from` on, given equal documents.
  function ReceiptsDifference(cfg: Config, dfg: Config, s: State, t: State, from: nat): Option<Collision>
    requires Inv(cfg, s) && Inv(dfg, t) && cfg.lib == dfg.lib
    requires SameDocuments(s.checkpoints, t.checkpoints) && from <= |s.checkpoints|
    decreases |s.checkpoints| - from
  {
    hide Inv;
    if from == |s.checkpoints| then None
    else
      match OneDifference(cfg, dfg, s, t, from)
      case Some(x) => Some(x)
      case None => ReceiptsDifference(cfg, dfg, s, t, from + 1)
  }

  lemma {:induction false} ReceiptsDiffer(cfg: Config, dfg: Config, s: State, t: State, from: nat)
    requires Inv(cfg, s) && Inv(dfg, t) && cfg.lib == dfg.lib
    requires SameDocuments(s.checkpoints, t.checkpoints) && from <= |s.checkpoints|
    ensures match ReceiptsDifference(cfg, dfg, s, t, from)
            case Some(c) => Collides(cfg.lib.sha256, c)
            case None => SameFrom(s, t, from)
    decreases |s.checkpoints| - from
  {
    hide Inv, SameReceipts, OneDifference, Collides;
    if from < |s.checkpoints| && OneDifference(cfg, dfg, s, t, from).None? {
      ReceiptsDiffer(cfg, dfg, s, t, from + 1);
    }
  }

  // The same checkpoint documents, and the same receipt under every covered number.
  ghost predicate SameTrail(s: State, t: State) {
    && SameDocuments(s.checkpoints, t.checkpoints)
    && Covered(s.checkpoints) == Covered(t.checkpoints)
    && forall k :: 1 <= k <= Covered(s.checkpoints) ==>
         k in s.receipts && k in t.receipts && s.receipts[k].body == t.receipts[k].body
  }

  ghost predicate SameHead(s: State, t: State) {
    && s.checkpoints != [] && t.checkpoints != []
    && s.checkpoints[|s.checkpoints| - 1].hash == t.checkpoints[|t.checkpoints| - 1].hash
  }

  ghost predicate Shows(h: HashFunction, s: State, t: State, r: Option<Collision>) {
    match r
    case Some(c) => Collides(h, c)
    case None => SameTrail(s, t)
  }

  // Two trails, of any lengths and instances, with one newest checkpoint hash: computes a hash
  // collision unless their checkpoints and covered receipts are the same.
  function TrailDifference(cfg: Config, dfg: Config, s: State, t: State): (r: Option<Collision>)
    requires SameHead(s, t) && cfg.lib == dfg.lib && Inv(cfg, s) && Inv(dfg, t)
    ensures Shows(cfg.lib.sha256, s, t, r)
  {
    hide Inv, Linked, SameReceipts, DocumentsDifference, ReceiptsDifference, SameDocuments, Collides, SameTrail;
    TrailLinked(cfg, s);
    TrailLinked(dfg, t);
    match DocumentsDifference(cfg.lib.sha256, s.checkpoints, t.checkpoints)
    case Some(x) => Some(x)
    case None =>
      ReceiptsDiffer(cfg, dfg, s, t, 0);
      match ReceiptsDifference(cfg, dfg, s, t, 0)
      case Some(x) => Some(x)
      case None =>
        CoveredAgree(cfg, s, t);
        None
  }

  lemma CoveredAgree(cfg: Config, s: State, t: State)
    requires s.checkpoints != [] && SameDocuments(s.checkpoints, t.checkpoints) && Inv(cfg, s)
    requires SameFrom(s, t, 0)
    ensures SameTrail(s, t)
  {
    hide Inv, Numbered, SameReceipts;
    ListOfInv(cfg, s);
    assert Covered(s.checkpoints) == Covered(t.checkpoints) by { LastAgrees(s, t, |s.checkpoints| - 1); }
    forall k | 1 <= k <= Covered(s.checkpoints)
      ensures k in s.receipts && k in t.receipts && s.receipts[k].body == t.receipts[k].body
    {
      var i := TileOf(s.checkpoints, k);
      BodyAt(s, t, i, k);
    }
  }

  lemma LastAgrees(s: State, t: State, i: nat)
    requires SameReceipts(s, t, i)
    ensures s.checkpoints[i].last == t.checkpoints[i].last
  {
  }

  lemma BodyAt(s: State, t: State, i: nat, k: int)
    requires SameReceipts(s, t, i) && s.checkpoints[i].first <= k <= s.checkpoints[i].last
    ensures k in s.receipts && k in t.receipts && s.receipts[k].body == t.receipts[k].body
  {
    var c, d := s.checkpoints[i], t.checkpoints[i];
    assert Bodies(s, c)[k - c.first] == Bodies(t, d)[k - c.first];
  }
}
