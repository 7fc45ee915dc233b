/** The privacy log: every row's hash covers the previous row's hash. */
module HashChain {
  import opened Bytes
  import opened Unicode

  // `ts` is the row's time as text; `id` is the table's own row number.
  datatype Row = Row(
    id: int, ts: string, decision: Option<string>, agent: string, sensitivity: string,
    payloadHash: string, prevHash: string, thisHash: string)

  function Zeros(n: nat): (s: string)
    ensures |s| == n && forall i :: 0 <= i < n ==> s[i] == '0'
  {
    if n == 0 then "" else "0" + Zeros(n - 1)
  }

  const GENESIS := Zeros(64)

  function DecisionText(r: Row): string {
    r.decision.GetOr("")
  }

  // "|".join of the hashed fields
  function LinkText(r: Row): string {
    r.prevHash + "|" + (r.payloadHash + "|" + (r.ts + "|" + (DecisionText(r) + "|" + (r.agent + "|" + r.sensitivity))))
  }

  // "|".join(parts)
  function Barred(parts: seq<string>): string {
    if parts == [] then "" else if |parts| == 1 then parts[0] else parts[0] + "|" + Barred(parts[1..])
  }

  // The six hashed fields, in this order.
  lemma LinkTextIs(r: Row)
    ensures LinkText(r) == Barred([r.prevHash, r.payloadHash, r.ts, if r.decision.Some? then r.decision.value else "",
                                   r.agent, r.sensitivity])
    ensures |GENESIS| == 64 && forall i :: 0 <= i < 64 ==> GENESIS[i] == '0'
  {
    var d := DecisionText(r);
    var all := [r.prevHash, r.payloadHash, r.ts, d, r.agent, r.sensitivity];
    BarredStep(all);
    BarredStep(all[1..]);
    BarredStep(all[2..]);
    BarredStep(all[3..]);
    BarredStep(all[4..]);
    assert all[1..][1..] == all[2..] && all[2..][1..] == all[3..] && all[3..][1..] == all[4..];
    assert all[4..] == [r.agent, r.sensitivity] && all[4..][1..] == [r.sensitivity];
    assert Barred([r.sensitivity]) == r.sensitivity;
    hide Barred;
  }

  lemma BarredStep(parts: seq<string>)
    requires |parts| > 1
    ensures Barred(parts) == parts[0] + "|" + Barred(parts[1..])
    ensures Barred(parts) == parts[0] + ("|" + Barred(parts[1..]))
  {
    BarStep(parts[0], Barred(parts[1..]));
  }

  lemma BarStep(x: string, y: string)
    ensures x + "|" + y == x + ("|" + y)
  {
  }

  function LinkHash(h: HashFunction, r: Row): (s: string)
    ensures '|' !in s
  {
    var s := Hex(h(Utf8(LinkText(r))));
    assert forall i :: 0 <= i < |s| ==> s[i] != '|';
    s
  }

  function Head(rows: seq<Row>): string {
    if rows == [] then GENESIS else rows[|rows| - 1].thisHash
  }

  predicate Links(h: HashFunction, rows: seq<Row>, i: nat)
    requires i < |rows|
  {
    rows[i].prevHash == Head(rows[..i]) && rows[i].thisHash == LinkHash(h, rows[i])
  }

  predicate Linked(h: HashFunction, rows: seq<Row>) {
    forall i :: 0 <= i < |rows| ==> Links(h, rows, i)
  }

  lemma EarlierRowsLink(h: HashFunction, rows: seq<Row>, n: nat)
    requires n <= |rows| && forall k :: 0 <= k < n ==> Links(h, rows, k)
    ensures Linked(h, rows[..n])
  {
    forall k | 0 <= k < n ensures Links(h, rows[..n], k) {
      assert Links(h, rows, k);
      assert rows[..n][..k] == rows[..k];
    }
  }

  // A log up to one row more is linked exactly when that row links, and a row that does not breaks
  // the whole.
  lemma NextRowLinks(h: HashFunction, rows: seq<Row>, i: nat)
    requires i < |rows| && Linked(h, rows[..i])
    ensures Linked(h, rows[..i + 1]) <==> Links(h, rows, i)
    ensures Linked(h, rows) ==> Links(h, rows, i)
  {
    hide LinkHash;
    var all := rows[..i + 1];
    assert all[..i] == rows[..i] && all[i] == rows[i];
    forall k | 0 <= k < i ensures Links(h, all, k) {
      assert Links(h, rows[..i], k);
      assert all[..k] == rows[..i][..k];
    }
    assert Links(h, all, i) <==> Links(h, rows, i);
  }

  lemma NothingLinks(h: HashFunction, rows: seq<Row>)
    ensures Linked(h, rows[..0])
  {
  }

  /** Accepts exactly the logs linked from the genesis value, and otherwise names the first row
      that breaks the chain. */
  method VerifyChain(h: HashFunction, rows: seq<Row>) returns (ok: bool, broken: Option<int>)
    ensures ok <==> Linked(h, rows)
    ensures ok <==> broken.None?
    ensures !ok ==>
      exists k :: 0 <= k < |rows| && !Links(h, rows, k) && Linked(h, rows[..k]) && broken == Some(rows[k].id)
  {
    NothingLinks(h, rows);
    hide LinkHash, Linked;
    var expectedPrev := GENESIS;
    for i := 0 to |rows|
      invariant expectedPrev == Head(rows[..i])
      invariant Linked(h, rows[..i])
    {
      var row := rows[i];
      NextRowLinks(h, rows, i);
      ok, broken := false, Some(row.id);
      if row.prevHash != expectedPrev {
        assert !Links(h, rows, i) && broken == Some(rows[i].id);
        return;
      }
      if LinkHash(h, row) != row.thisHash {
        assert !Links(h, rows, i) && broken == Some(rows[i].id);
        return;
      }
      expectedPrev := row.thisHash;
      assert rows[..i + 1][i] == row;
    }
    assert rows[..|rows|] == rows;
    return true, None;
  }

  // ----- appending -----

  datatype Entry = Entry(ts: string, decision: Option<string>, agent: string, sensitivity: string, payloadHash: string)

  // The row on_request inserts under the chain lock.
  function NextRow(h: HashFunction, rows: seq<Row>, id: int, e: Entry): Row {
    var r := Row(id, e.ts, e.decision, e.agent, e.sensitivity, e.payloadHash, Head(rows), "");
    r.(thisHash := LinkHash(h, r))
  }

  function Log(h: HashFunction, entries: seq<(int, Entry)>): seq<Row> {
    if entries == [] then []
    else
      var rows, (id, e) := Log(h, entries[..|entries| - 1]), entries[|entries| - 1];
      rows + [NextRow(h, rows, id, e)]
  }

  lemma {:induction false} LogIsLinked(h: HashFunction, entries: seq<(int, Entry)>)
    ensures Linked(h, Log(h, entries))
  {
    if entries != [] {
      var rows, all := Log(h, entries[..|entries| - 1]), Log(h, entries);
      LogIsLinked(h, entries[..|entries| - 1]);
      forall i | 0 <= i < |all| ensures Links(h, all, i) {
        assert all[..i] == rows[..i];
        assert i < |rows| ==> Links(h, rows, i);
        assert rows[..|rows|] == rows;
        var last := NextRow(h, rows, entries[|entries| - 1].0, entries[|entries| - 1].1);
        assert LinkText(last) == LinkText(last.(thisHash := ""));
      }
    }
  }

  // ----- the head binds the log -----

  // Only the agent name may hold the separator.
  predicate Plain(r: Row) {
    '|' !in r.payloadHash && '|' !in r.ts && '|' !in DecisionText(r) && '|' !in r.sensitivity
  }

  // Equal in everything the chain hashes; row numbers are not hashed, and a missing decision
  // hashes as an empty one.
  predicate SameFields(a: Row, b: Row) {
    && a.prevHash == b.prevHash && a.payloadHash == b.payloadHash && a.ts == b.ts
    && DecisionText(a) == DecisionText(b) && a.agent == b.agent && a.sensitivity == b.sensitivity
  }

  lemma FirstBar(x: string, s: string)
    requires '|' !in x
    ensures forall i :: 0 <= i < |x| ==> (x + "|" + s)[i] != '|'
  {
    assert forall i :: 0 <= i < |x| ==> (x + "|" + s)[i] == x[i];
  }

  lemma LastBar(x: string, s: string)
    requires '|' !in s
    ensures forall i :: |x| < i < |x| + 1 + |s| ==> (x + "|" + s)[i] != '|'
  {
    assert forall i :: |x| < i < |x| + 1 + |s| ==> (x + "|" + s)[i] == s[i - |x| - 1];
  }

  lemma SplitFirst(x: string, s: string, y: string, t: string)
    requires '|' !in x && '|' !in y && x + "|" + s == y + "|" + t
    ensures x == y && s == t
  {
    FirstBar(x, s);
    FirstBar(y, t);
    SplitAt(x, s, y, t);
  }

  lemma SplitLast(x: string, s: string, y: string, t: string)
    requires '|' !in s && '|' !in t && x + "|" + s == y + "|" + t
    ensures x == y && s == t
  {
    LastBar(x, s);
    LastBar(y, t);
    SplitAt(x, s, y, t);
  }

  lemma SplitAt(x: string, s: string, y: string, t: string)
    requires x + "|" + s == y + "|" + t
    requires |x| < |y| ==> (y + "|" + t)[|x|] != '|' || (x + "|" + s)[|y|] != '|'
    requires |y| < |x| ==> (x + "|" + s)[|y|] != '|' || (y + "|" + t)[|x|] != '|'
    ensures x == y && s == t
  {
    var w, v := x + "|" + s, y + "|" + t;
    assert w[|x|] == '|' && v[|y|] == '|';
    assert x == w[..|x|] && s == w[|x| + 1..] && y == v[..|y|] && t == v[|y| + 1..];
  }

  lemma LinkTextParses(a: Row, b: Row)
    requires Plain(a) && Plain(b) && '|' !in a.prevHash && '|' !in b.prevHash
    requires LinkText(a) == LinkText(b)
    ensures SameFields(a, b)
  {
    var da, db := DecisionText(a), DecisionText(b);
    var a4, b4 := a.agent + "|" + a.sensitivity, b.agent + "|" + b.sensitivity;
    var a3, b3 := da + "|" + a4, db + "|" + b4;
    var a2, b2 := a.ts + "|" + a3, b.ts + "|" + b3;
    var a1, b1 := a.payloadHash + "|" + a2, b.payloadHash + "|" + b2;
    SplitFirst(a.prevHash, a1, b.prevHash, b1);
    SplitFirst(a.payloadHash, a2, b.payloadHash, b2);
    SplitFirst(a.ts, a3, b.ts, b3);
    SplitFirst(da, a4, db, b4);
    SplitLast(a.agent, a.sensitivity, b.agent, b.sensitivity);
  }

  /** A log holds its entries in order, each with its own fields, and numbers them as they came. */
  lemma {:induction false} LogHolds(h: HashFunction, entries: seq<(int, Entry)>, i: nat)
    requires i < |entries|
    ensures |Log(h, entries)| == |entries|
    ensures
      var r, e := Log(h, entries)[i], entries[i].1;
      && r.id == entries[i].0 && r.ts == e.ts && r.decision == e.decision && r.agent == e.agent
      && r.sensitivity == e.sensitivity && r.payloadHash == e.payloadHash
    decreases |entries|
  {
    hide LinkHash;
    var n := |entries| - 1;
    if i < n {
      LogHolds(h, entries[..n], i);
    } else if n > 0 {
      LogHolds(h, entries[..n], 0);
    }
  }

  // Were a second field free to hold the separator, different rows would share their text.
  lemma TwoFreeFieldsAreAmbiguous(a: Row, ts: string, decision: string, agent: string)
    requires a.agent == "x" + "|" + ts + "|" + decision + "|" + agent
    ensures var b := a.(payloadHash := a.payloadHash + "|" + a.ts + "|" + DecisionText(a) + "|" + "x",
                        ts := ts, decision := Some(decision), agent := agent);
            LinkText(a) == LinkText(b) && !SameFields(a, b)
  {
    var tail := "|" + (ts + "|" + (decision + "|" + (agent + "|" + a.sensitivity)));
    Reassociate("x", ts, decision, agent, a.sensitivity);
    Reassociate(a.payloadHash, a.ts, DecisionText(a), "x", tail[1..]);
    assert "|" + tail[1..] == tail;
    assert "x" + tail == "x" + "|" + tail[1..];
  }

  lemma Reassociate(p: string, q: string, r: string, s: string, t: string)
    ensures (p + "|" + q + "|" + r + "|" + s) + "|" + t == p + "|" + (q + "|" + (r + "|" + (s + "|" + t)))
  {
    var v := r + "|" + (s + "|" + t);
    assert (r + "|" + s) + "|" + t == v;
    assert (p + "|" + q + "|" + r + "|" + s) + "|" + t == (p + "|" + q + "|") + v;
  }

  // What explains two accepted logs with one head that differ.
  datatype Difference = Collide(c: Collision) | GenesisPreimage(x: seq<Byte>)

  predicate Explains(h: HashFunction, d: Difference) {
    match d
    case Collide(c) => Collides(h, c)
    case GenesisPreimage(x) => Hex(h(x)) == GENESIS
  }

  function ChainDifference(a: seq<Row>, b: seq<Row>): Option<Difference> {
    if a == [] && b == [] then None
    else if a == [] then Some(GenesisPreimage(Utf8(LinkText(b[|b| - 1]))))
    else if b == [] then Some(GenesisPreimage(Utf8(LinkText(a[|a| - 1]))))
    else
      var x, y := LinkText(a[|a| - 1]), LinkText(b[|b| - 1]);
      if x != y then Some(Collide(Collision(Utf8(x), Utf8(y))))
      else ChainDifference(a[..|a| - 1], b[..|b| - 1])
  }

  lemma HeadIsPlain(h: HashFunction, rows: seq<Row>)
    requires Linked(h, rows)
    ensures '|' !in Head(rows)
  {
    if rows != [] {
      assert Links(h, rows, |rows| - 1);
    }
  }

  /** Two accepted logs, of any lengths, with the same head agree in every hashed field, or the
      difference found is a hash collision or a preimage of the genesis value. */
  lemma {:induction false} HeadBindsLog(h: HashFunction, a: seq<Row>, b: seq<Row>)
    requires Linked(h, a) && Linked(h, b) && Head(a) == Head(b)
    requires (forall r :: r in a ==> Plain(r)) && (forall r :: r in b ==> Plain(r))
    ensures match ChainDifference(a, b)
            case None => |a| == |b| && forall i :: 0 <= i < |a| ==> SameFields(a[i], b[i])
            case Some(d) => Explains(h, d)
    decreases |a|
  {
    hide LinkText, Linked, Links, LinkHash, SameFields, Plain, Head, Utf8, Hex;
    if a != [] && b != [] {
      if LinkText(a[|a| - 1]) != LinkText(b[|b| - 1]) {
        LastTextsCollide(h, a, b);
      } else {
        LastRowsAgree(h, a, b);
        HeadBindsLog(h, a[..|a| - 1], b[..|b| - 1]);
      }
    } else if a != [] {
      GenesisIsReached(h, a);
      HeadOfNothing();
    } else if b != [] {
      GenesisIsReached(h, b);
      HeadOfNothing();
    }
  }

  lemma HeadOfNothing()
    ensures Head([]) == GENESIS
  {
  }

  lemma GenesisIsReached(h: HashFunction, rows: seq<Row>)
    requires Linked(h, rows) && rows != []
    ensures Head(rows) == Hex(h(Utf8(LinkText(rows[|rows| - 1]))))
  {
    hide LinkText, Hex;
    assert Links(h, rows, |rows| - 1);
  }

  lemma LastTextsCollide(h: HashFunction, a: seq<Row>, b: seq<Row>)
    requires Linked(h, a) && Linked(h, b) && a != [] && b != [] && Head(a) == Head(b)
    requires LinkText(a[|a| - 1]) != LinkText(b[|b| - 1])
    ensures Collides(h, Collision(Utf8(LinkText(a[|a| - 1])), Utf8(LinkText(b[|b| - 1]))))
  {
    hide LinkText, Linked, Utf8, Hex;
    var x, y := LinkText(a[|a| - 1]), LinkText(b[|b| - 1]);
    GenesisIsReached(h, a);
    GenesisIsReached(h, b);
    HexInjective(h(Utf8(x)), h(Utf8(y)));
    Utf8RoundTrip(x);
    Utf8RoundTrip(y);
  }

  lemma LastRowsAgree(h: HashFunction, a: seq<Row>, b: seq<Row>)
    requires Linked(h, a) && Linked(h, b) && a != [] && b != []
    requires Plain(a[|a| - 1]) && Plain(b[|b| - 1]) && LinkText(a[|a| - 1]) == LinkText(b[|b| - 1])
    ensures SameFields(a[|a| - 1], b[|b| - 1])
    ensures Linked(h, a[..|a| - 1]) && Linked(h, b[..|b| - 1]) && Head(a[..|a| - 1]) == Head(b[..|b| - 1])
  {
    var la, lb, fa, fb := a[|a| - 1], b[|b| - 1], a[..|a| - 1], b[..|b| - 1];
    EarlierRowsLink(h, a, |a| - 1);
    EarlierRowsLink(h, b, |b| - 1);
    assert Links(h, a, |a| - 1) && Links(h, b, |b| - 1);
    hide LinkText, Linked, LinkHash, SameFields, Plain, Head;
    HeadIsPlain(h, fa);
    HeadIsPlain(h, fb);
    LinkTextParses(la, lb);
    SameFieldsLink(la, lb);
  }

  lemma SameFieldsLink(a: Row, b: Row)
    requires SameFields(a, b)
    ensures a.prevHash == b.prevHash
  {
  }

  /** An accepted log in which someone rewrites one row and leaves its hash is no longer accepted,
      or the rewriting found a collision. */
  lemma RewritingIsCaught(h: HashFunction, rows: seq<Row>, k: nat, forged: Row)
    requires Linked(h, rows) && k < |rows|
    requires Plain(rows[k]) && Plain(forged) && forged.thisHash == rows[k].thisHash && !SameFields(forged, rows[k])
    ensures !Links(h, rows[k := forged], k)
         || Collides(h, Collision(Utf8(LinkText(rows[k])), Utf8(LinkText(forged))))
  {
    hide LinkText, SameFields, Plain;
    assert Links(h, rows, k);
    assert rows[k := forged][..k] == rows[..k];
    if Links(h, rows[k := forged], k) {
      EarlierRowsLink(h, rows, k);
      HeadIsPlain(h, rows[..k]);
      if LinkText(rows[k]) == LinkText(forged) {
        LinkTextParses(forged, rows[k]);
      }
      HexInjective(h(Utf8(LinkText(rows[k]))), h(Utf8(LinkText(forged))));
      Utf8RoundTrip(LinkText(rows[k]));
      Utf8RoundTrip(LinkText(forged));
    }
  }
}
