/** What a hint cache holds after any sequence of gets, puts and invalidations. */
module HintCacheRuns {
  import opened Bytes
  import opened HintCache

  datatype Op<V> = DoGet(key: string, now: real) | DoPut(key: string, value: V, now: real) | DoInvalidate(key: string)

  datatype Settings = Settings(max: nat, ttl: real)

  function After<V>(s: Settings, slots: seq<Slot<V>>, op: Op<V>): seq<Slot<V>> {
    match op
    case DoGet(key, now) => Lookup(slots, key, now).0
    case DoPut(key, value, now) => Stored(s.max, slots, key, value, now + s.ttl)
    case DoInvalidate(key) => Without(slots, key)
  }

  function Run<V>(s: Settings, ops: seq<Op<V>>): seq<Slot<V>> {
    if ops == [] then [] else After(s, Run(s, ops[..|ops| - 1]), ops[|ops| - 1])
  }

  // What a get of `key` at `now` returns after `ops`.
  function Answer<V>(s: Settings, ops: seq<Op<V>>, key: string, now: real): Option<V> {
    Lookup(Run(s, ops), key, now).1
  }

  // ----- the list -----

  function Keys<V>(slots: seq<Slot<V>>): set<string> {
    if slots == [] then {} else {slots[0].key} + Keys(slots[1..])
  }

  predicate DistinctKeys<V>(slots: seq<Slot<V>>) {
    slots == [] || (slots[0].key !in Keys(slots[1..]) && DistinctKeys(slots[1..]))
  }

  lemma {:induction false} DistinctCount<V>(slots: seq<Slot<V>>)
    requires DistinctKeys(slots)
    ensures |Keys(slots)| == |slots|
  {
    if slots != [] {
      DistinctCount(slots[1..]);
    }
  }

  // ----- what came last -----

  // The put of a key that no later put or invalidation replaced, with its time.
  function LastPut<V>(ops: seq<Op<V>>, key: string): Option<(V, real)> {
    if ops == [] then None
    else
      match ops[|ops| - 1]
      case DoPut(k, value, now) => if k == key then Some((value, now)) else LastPut(ops[..|ops| - 1], key)
      case DoInvalidate(k) => if k == key then None else LastPut(ops[..|ops| - 1], key)
      case DoGet(_, _) => LastPut(ops[..|ops| - 1], key)
  }

  // The key an operation moves to the most recently used end, if any.
  function Touches<V>(s: Settings, ops: seq<Op<V>>, op: Op<V>): Option<string> {
    match op
    case DoPut(key, _, _) => Some(key)
    case DoGet(key, now) => if Answer(s, ops, key, now).Some? then Some(key) else None
    case DoInvalidate(_) => None
  }

  // The other keys touched since `key` was last touched.
  function Since<V>(s: Settings, ops: seq<Op<V>>, key: string): set<string> {
    if ops == [] then {}
    else
      var before := ops[..|ops| - 1];
      match Touches(s, before, ops[|ops| - 1])
      case None => Since(s, before, key)
      case Some(k) => if k == key then {} else Since(s, before, key) + {k}
  }

  // ----- the invariant -----

  /** Every slot holds the last put of its key, and whatever stands behind it was touched after it. */
  ghost predicate Explained<V>(s: Settings, slots: seq<Slot<V>>, ops: seq<Op<V>>) {
    slots == [] ||
    (var x, put := slots[0], LastPut(ops, slots[0].key);
     && put.Some? && x.entry == Entry(put.value.0, put.value.1 + s.ttl)
     && Keys(slots[1..]) <= Since(s, ops, x.key)
     && Explained(s, slots[1..], ops))
  }

  lemma {:induction false} WithoutKeys<V>(slots: seq<Slot<V>>, key: string)
    requires DistinctKeys(slots)
    ensures DistinctKeys(Without(slots, key)) && Keys(Without(slots, key)) == Keys(slots) - {key}
  {
    if slots != [] {
      WithoutKeys(slots[1..], key);
    }
  }

  lemma {:induction false} WithoutExplained<V>(s: Settings, slots: seq<Slot<V>>, key: string, ops: seq<Op<V>>)
    requires DistinctKeys(slots) && Explained(s, slots, ops)
    ensures Explained(s, Without(slots, key), ops)
  {
    hide LastPut, Since;
    if slots != [] {
      WithoutKeys(slots[1..], key);
      WithoutExplained(s, slots[1..], key, ops);
    }
  }

  lemma {:induction false} SuffixExplained<V>(s: Settings, slots: seq<Slot<V>>, n: nat, ops: seq<Op<V>>)
    requires n <= |slots| && DistinctKeys(slots) && Explained(s, slots, ops)
    ensures DistinctKeys(slots[n..]) && Explained(s, slots[n..], ops) && Keys(slots[n..]) <= Keys(slots)
  {
    hide LastPut, Since;
    if n > 0 {
      assert slots[n..] == slots[1..][n - 1..];
      SuffixExplained(s, slots[1..], n - 1, ops);
    }
  }

  // What one more operation changes for other keys.
  lemma OtherKeys<V>(s: Settings, ops: seq<Op<V>>, op: Op<V>, key: string)
    requires key != op.key
    ensures LastPut(ops + [op], key) == LastPut(ops, key)
    ensures Since(s, ops + [op], key) == Since(s, ops, key) + if Touches(s, ops, op).Some? then {op.key} else {}
  {
    assert (ops + [op])[..|ops|] == ops;
  }

  lemma {:induction false} CarriesOver<V>(s: Settings, slots: seq<Slot<V>>, ops: seq<Op<V>>, op: Op<V>)
    requires op.key !in Keys(slots) && Explained(s, slots, ops)
    ensures Explained(s, slots, ops + [op])
  {
    hide LastPut, Since, Touches;
    if slots != [] {
      OtherKeys(s, ops, op, slots[0].key);
      CarriesOver(s, slots[1..], ops, op);
    }
  }

  lemma {:induction false} ComesBackLast<V>(s: Settings, slots: seq<Slot<V>>, ops: seq<Op<V>>, op: Op<V>, x: Slot<V>)
    requires op.key !in Keys(slots) && DistinctKeys(slots) && Explained(s, slots, ops)
    requires Touches(s, ops, op).Some? && x.key == op.key && Explained(s, [x], ops + [op])
    ensures DistinctKeys(slots + [x]) && Explained(s, slots + [x], ops + [op])
    ensures Keys(slots + [x]) == Keys(slots) + {x.key}
  {
    hide LastPut, Since, Touches;
    if slots == [] {
      assert slots + [x] == [x];
      assert Keys([x][1..]) == {};
    } else {
      assert (slots + [x])[1..] == slots[1..] + [x];
      OtherKeys(s, ops, op, slots[0].key);
      ComesBackLast(s, slots[1..], ops, op, x);
    }
  }

  lemma {:induction false} FoundExplained<V>(s: Settings, slots: seq<Slot<V>>, ops: seq<Op<V>>, key: string)
    requires Explained(s, slots, ops)
    ensures Find(slots, key).Some? <==> key in Keys(slots)
    ensures Find(slots, key).Some? ==>
      LastPut(ops, key).Some?
        && Find(slots, key).value == Entry(LastPut(ops, key).value.0, LastPut(ops, key).value.1 + s.ttl)
  {
    hide LastPut, Since;
    if slots != [] {
      FoundExplained(s, slots[1..], ops, key);
    }
  }

  // One slot at the end, for the key just touched.
  lemma OneExplained<V>(s: Settings, ops: seq<Op<V>>, op: Op<V>, x: Slot<V>)
    requires Touches(s, ops, op).Some? && x.key == op.key
    requires op.DoPut? ==> x.entry == Entry(op.value, op.now + s.ttl)
    requires op.DoGet? ==>
      LastPut(ops, x.key).Some? && x.entry == Entry(LastPut(ops, x.key).value.0, LastPut(ops, x.key).value.1 + s.ttl)
    ensures Explained(s, [x], ops + [op])
  {
    assert (ops + [op])[..|ops|] == ops;
    assert [x][1..] == [];
  }

  lemma StepExplained<V>(s: Settings, slots: seq<Slot<V>>, ops: seq<Op<V>>, op: Op<V>)
    requires slots == Run(s, ops) && DistinctKeys(slots) && Explained(s, slots, ops) && |slots| <= s.max
    ensures var after := After(s, slots, op);
            DistinctKeys(after) && Explained(s, after, ops + [op]) && |after| <= s.max
  {
    hide LastPut, Since, Explained, DistinctKeys, Keys, Find, Run, Without;
    var w := Without(slots, op.key);
    WithoutKeys(slots, op.key);
    WithoutShorter(slots, op.key);
    WithoutExplained(s, slots, op.key, ops);
    CarriesOver(s, w, ops, op);
    FoundExplained(s, slots, ops, op.key);
    match op
    case DoPut(key, value, now) =>
      var x := Slot(key, Entry(value, now + s.ttl));
      OneExplained(s, ops, op, x);
      ComesBackLast(s, w, ops, op, x);
      if |w + [x]| > s.max {
        SuffixExplained(s, w + [x], |w + [x]| - s.max, ops + [op]);
      }
    case DoGet(key, now) =>
      var found := Find(slots, key);
      if found.None? {
        AbsentWithout(slots, key);
      } else if found.value.expiresAt >= now {
        OneExplained(s, ops, op, Slot(key, found.value));
        ComesBackLast(s, w, ops, op, Slot(key, found.value));
        PresentShorter(slots, key);
      }
    case DoInvalidate(_) =>
  }

  lemma {:induction false} WithoutShorter<V>(slots: seq<Slot<V>>, key: string)
    ensures |Without(slots, key)| <= |slots|
  {
    if slots != [] {
      WithoutShorter(slots[1..], key);
    }
  }

  lemma {:induction false} PresentShorter<V>(slots: seq<Slot<V>>, key: string)
    requires Find(slots, key).Some?
    ensures |Without(slots, key)| == |slots| - 1
  {
    if slots[0].key != key {
      PresentShorter(slots[1..], key);
    }
  }

  lemma {:induction false} AbsentWithout<V>(slots: seq<Slot<V>>, key: string)
    requires Find(slots, key).None?
    ensures Without(slots, key) == slots
  {
    if slots != [] {
      assert slots == [slots[0]] + slots[1..];
      AbsentWithout(slots[1..], key);
    }
  }

  /** After any run the list has no duplicate, never more slots than the maximum, and every slot is
      explained by the history. */
  lemma {:induction false} RunExplained<V>(s: Settings, ops: seq<Op<V>>)
    ensures DistinctKeys(Run(s, ops)) && |Run(s, ops)| <= s.max && Explained(s, Run(s, ops), ops)
  {
    if ops != [] {
      var n := |ops| - 1;
      RunExplained(s, ops[..n]);
      hide Explained, DistinctKeys, After;
      StepExplained(s, Run(s, ops[..n]), ops[..n], ops[n]);
      assert ops[..n] + [ops[n]] == ops;
    }
  }

  /** A get hits exactly when the key is still listed and its last put, which nothing has
      invalidated, has not expired; the hit is that put's value. */
  lemma HitIsLastPut<V>(s: Settings, ops: seq<Op<V>>, key: string, now: real, value: V)
    ensures Answer(s, ops, key, now) == Some(value)
       <==> (&& key in Keys(Run(s, ops)) && LastPut(ops, key).Some?
             && LastPut(ops, key).value.0 == value && LastPut(ops, key).value.1 + s.ttl >= now)
  {
    RunExplained(s, ops);
    hide LastPut, Explained, Run;
    FoundExplained(s, Run(s, ops), ops, key);
  }

  // ----- why a key is gone -----

  lemma {:induction false} BehindIsSince<V>(s: Settings, slots: seq<Slot<V>>, ops: seq<Op<V>>, n: nat, key: string)
    requires DistinctKeys(slots) && Explained(s, slots, ops) && n <= |slots|
    requires key in Keys(slots) && key !in Keys(slots[n..])
    ensures Keys(slots[n..]) <= Since(s, ops, key)
  {
    hide LastPut, Since;
    assert slots[0..] == slots;
    if n > 0 {
      assert slots[n..] == slots[1..][n - 1..];
      SuffixExplained(s, slots[1..], n - 1, ops);
      if slots[0].key != key {
        BehindIsSince(s, slots[1..], ops, n - 1, key);
      }
    }
  }

  lemma SubsetCount(a: set<string>, b: set<string>)
    requires a <= b
    ensures |a| <= |b|
  {
    if a != b {
      assert b == a + (b - a);
      assert |a + (b - a)| == |a| + |b - a|;
    }
  }

  /** A put pushes a key out only after at least `max` distinct other keys were touched since that
      key last was. */
  lemma EvictedAfterMax<V>(s: Settings, ops: seq<Op<V>>, op: Op<V>, key: string)
    requires op.DoPut? && key in Keys(Run(s, ops)) + {op.key} && key !in Keys(Run(s, ops + [op]))
    ensures |Since(s, ops + [op], key)| >= s.max
  {
    var slots, x := Run(s, ops), Slot(op.key, Entry(op.value, op.now + s.ttl));
    var full := Without(slots, op.key) + [x];
    RunExplained(s, ops);
    RunOfPut(s, ops, op);
    WithoutKeys(slots, op.key);
    WithoutExplained(s, slots, op.key, ops);
    OneExplained(s, ops, op, x);
    hide *;
    ComesBackLast(s, Without(slots, op.key), ops, op, x);
    DropsToMax(s, full, ops + [op], key);
  }

  lemma RunOfPut<V>(s: Settings, ops: seq<Op<V>>, op: Op<V>)
    requires op.DoPut?
    ensures Run(s, ops + [op])
      == Newest(Without(Run(s, ops), op.key) + [Slot(op.key, Entry(op.value, op.now + s.ttl))], s.max)
    ensures Touches(s, ops, op) == Some(op.key)
  {
    assert (ops + [op])[..|ops|] == ops;
  }

  // Cutting a list down to `max` slots drops only keys with at least `max` others touched since.
  lemma DropsToMax<V>(s: Settings, full: seq<Slot<V>>, ops: seq<Op<V>>, key: string)
    requires DistinctKeys(full) && Explained(s, full, ops)
    requires key in Keys(full) && key !in Keys(Newest(full, s.max))
    ensures |Since(s, ops, key)| >= s.max
  {
    hide Since, Explained, DistinctKeys, Keys;
    var n := |full| - s.max;
    assert n > 0 && Newest(full, s.max) == full[n..];
    BehindIsSince(s, full, ops, n, key);
    SuffixExplained(s, full, n, ops);
    DistinctCount(full[n..]);
    SubsetCount(Keys(full[n..]), Since(s, ops, key));
  }

  // The operation that took the key out: a get of it past its time, or `max` other keys.
  ghost predicate TookOut<V>(s: Settings, ops: seq<Op<V>>, n: nat, key: string)
    requires 0 < n <= |ops|
  {
    var op, put := ops[n - 1], LastPut(ops[..n], key);
    || (op.DoGet? && op.key == key && put.Some? && put.value.1 + s.ttl < op.now)
    || |Since(s, ops[..n], key)| >= s.max
  }

  predicate Rewrites<V>(op: Op<V>, key: string) {
    op.key == key && !op.DoGet?
  }

  /** A key that was put and not invalidated since is missing only because, since that put, a get
      came past its time or at least `max` other keys were touched after it. */
  lemma {:induction false} MissExplained<V>(s: Settings, ops: seq<Op<V>>, key: string) returns (n: nat)
    requires LastPut(ops, key).Some? && key !in Keys(Run(s, ops))
    ensures 0 < n <= |ops| && TookOut(s, ops, n, key)
    ensures forall i :: n <= i < |ops| ==> !Rewrites(ops[i], key)
  {
    var m := |ops| - 1;
    var before, op := ops[..m], ops[m];
    assert ops == before + [op] && ops[..m + 1] == ops;
    RunExplained(s, before);
    hide Run, Explained, DistinctKeys, Since, Keys;
    if op.DoPut? && key in Keys(Run(s, before)) + {op.key} {
      EvictedAfterMax(s, before, op, key);
      n := |ops|;
    } else if key in Keys(Run(s, before)) {
      LastStep(s, before, op);
      OtherRemovals(s, Run(s, before), before, op, key);
      n := |ops|;
    } else {
      n := MissExplained(s, before, key);
      assert ops[..n] == before[..n] && n <= |before|;
      SameReason(s, ops, before, n, key);
    }
  }

  lemma LastStep<V>(s: Settings, ops: seq<Op<V>>, op: Op<V>)
    ensures Run(s, ops + [op]) == After(s, Run(s, ops), op)
  {
    assert (ops + [op])[..|ops|] == ops;
  }

  lemma SameReason<V>(s: Settings, ops: seq<Op<V>>, before: seq<Op<V>>, n: nat, key: string)
    requires 0 < n <= |before| <= |ops| && ops[..n] == before[..n] && TookOut(s, before, n, key)
    ensures TookOut(s, ops, n, key)
  {
    hide LastPut, Since;
    assert ops[n - 1] == ops[..n][n - 1] == before[n - 1];
  }

  // Besides eviction a listed key goes only by its own invalidation or an expired get.
  lemma OtherRemovals<V>(s: Settings, slots: seq<Slot<V>>, ops: seq<Op<V>>, op: Op<V>, key: string)
    requires DistinctKeys(slots) && Explained(s, slots, ops) && !op.DoPut?
    requires key in Keys(slots) && key !in Keys(After(s, slots, op)) && LastPut(ops + [op], key).Some?
    ensures op.DoGet? && op.key == key && LastPut(ops + [op], key).value.1 + s.ttl < op.now
  {
    assert (ops + [op])[..|ops|] == ops;
    hide Since, Explained, DistinctKeys, Without, Find;
    WithoutKeys(slots, op.key);
    FoundExplained(s, slots, ops, op.key);
    if op.DoGet? && Find(slots, op.key).Some? {
      KeysOfAppend(Without(slots, op.key), Slot(op.key, Find(slots, op.key).value));
    }
  }

  lemma {:induction false} KeysOfAppend<V>(slots: seq<Slot<V>>, x: Slot<V>)
    ensures Keys(slots + [x]) == Keys(slots) + {x.key}
  {
    if slots == [] {
      assert slots + [x] == [x];
      assert Keys([x][1..]) == {};
    } else {
      assert (slots + [x])[1..] == slots[1..] + [x];
      KeysOfAppend(slots[1..], x);
    }
  }
}
