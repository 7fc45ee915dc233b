/** The hint cache, as the list of its slots from least to most recently used. */
module HintCache {
  import opened Bytes

  datatype Entry<V> = Entry(value: V, expiresAt: real)

  datatype Slot<V> = Slot(key: string, entry: Entry<V>)

  // ----- the specification -----

  function Find<V>(slots: seq<Slot<V>>, key: string): (r: Option<Entry<V>>)
    ensures r.Some? <==> exists i :: 0 <= i < |slots| && slots[i].key == key
    ensures r.Some? ==> Slot(key, r.value) in slots
  {
    if slots == [] then None else if slots[0].key == key then Some(slots[0].entry) else Find(slots[1..], key)
  }

  function Without<V>(slots: seq<Slot<V>>, key: string): seq<Slot<V>> {
    if slots == [] then [] else if slots[0].key == key then slots[1..] else [slots[0]] + Without(slots[1..], key)
  }

  function Touched<V>(slots: seq<Slot<V>>, key: string, entry: Entry<V>): seq<Slot<V>> {
    Without(slots, key) + [Slot(key, entry)]
  }

  function Lookup<V>(slots: seq<Slot<V>>, key: string, now: real): (r: (seq<Slot<V>>, Option<V>)) {
    match Find(slots, key)
    case None => (slots, None)
    case Some(entry) =>
      if entry.expiresAt < now then (Without(slots, key), None) else (Touched(slots, key, entry), Some(entry.value))
  }

  // The most recently used `max` slots.
  function Newest<V>(slots: seq<Slot<V>>, max: int): seq<Slot<V>> {
    if max < 0 then [] else if |slots| <= max then slots else slots[|slots| - max..]
  }

  function Stored<V>(max: int, slots: seq<Slot<V>>, key: string, value: V, expiresAt: real): seq<Slot<V>> {
    Newest(Touched(slots, key, Entry(value, expiresAt)), max)
  }

  // `now or time.monotonic()`: zero counts as not given.
  function Instant(now: Option<real>, clock: real): real {
    if now.Some? && now.value != 0.0 then now.value else clock
  }

  // ----- the implementation -----

  // list.remove, when the item is there
  function Removed(order: seq<string>, key: string): seq<string> {
    if order == [] then [] else if order[0] == key then order[1..] else [order[0]] + Removed(order[1..], key)
  }

  ghost predicate Distinct(order: seq<string>) {
    forall i, j :: 0 <= i < j < |order| ==> order[i] != order[j]
  }

  ghost predicate Lists(order: seq<string>, keys: set<string>) {
    Distinct(order) && forall k :: k in order <==> k in keys
  }

  lemma {:induction false} RemovedKeys(order: seq<string>, key: string)
    requires Distinct(order)
    ensures Distinct(Removed(order, key))
    ensures forall k :: k in Removed(order, key) <==> k in order && k != key
  {
    if order != [] {
      var rest := order[1..];
      assert order == [order[0]] + rest && order[0] !in rest;
      RemovedKeys(rest, key);
    }
  }

  function SlotsOf<V>(order: seq<string>, entries: map<string, Entry<V>>): (r: seq<Slot<V>>)
    requires forall k :: k in order ==> k in entries
    ensures |r| == |order| && forall i :: 0 <= i < |order| ==> r[i] == Slot(order[i], entries[order[i]])
  {
    seq(|order|, i requires 0 <= i < |order| => Slot(order[i], entries[order[i]]))
  }

  lemma {:induction false} SlotsWithout<V>(order: seq<string>, entries: map<string, Entry<V>>,
                                           after: map<string, Entry<V>>, key: string)
    requires Distinct(order) && forall k :: k in order ==> k in entries
    requires forall k :: k in order && k != key ==> k in after && after[k] == entries[k]
    ensures forall k :: k in Removed(order, key) ==> k in after
    ensures SlotsOf(Removed(order, key), after) == Without(SlotsOf(order, entries), key)
  {
    if order != [] {
      var first, rest := order[0], order[1..];
      RestDistinct(order);
      SlotsUnfold(order, entries);
      hide Distinct, SlotsOf;
      if first != key {
        SlotsWithout(rest, entries, after, key);
        var removed := Removed(rest, key);
        assert Removed(order, key) == [first] + removed;
        RemovedWithin(rest, key);
        SlotsUnfold([first] + removed, after);
        assert ([first] + removed)[1..] == removed;
      } else {
        SameSlots(rest, entries, after);
      }
    } else {
      NoSlots(entries);
      NoSlots(after);
    }
  }

  lemma NoSlots<V>(entries: map<string, Entry<V>>)
    ensures SlotsOf([], entries) == []
  {
  }

  lemma RestDistinct(order: seq<string>)
    requires order != [] && Distinct(order)
    ensures Distinct(order[1..]) && order[0] !in order[1..]
    ensures forall k :: k in order <==> k == order[0] || k in order[1..]
  {
    assert order == [order[0]] + order[1..];
  }

  lemma SlotsUnfold<V>(order: seq<string>, entries: map<string, Entry<V>>)
    requires order != [] && forall k :: k in order ==> k in entries
    ensures forall k :: k in order[1..] ==> k in entries
    ensures order[0] in entries
      && SlotsOf(order, entries) == [Slot(order[0], entries[order[0]])] + SlotsOf(order[1..], entries)
  {
  }

  lemma {:induction false} RemovedWithin(order: seq<string>, key: string)
    ensures forall k :: k in Removed(order, key) ==> k in order
  {
    if order != [] {
      RemovedWithin(order[1..], key);
    }
  }

  lemma SameSlots<V>(order: seq<string>, entries: map<string, Entry<V>>, after: map<string, Entry<V>>)
    requires forall k :: k in order ==> k in entries && k in after && after[k] == entries[k]
    ensures SlotsOf(order, after) == SlotsOf(order, entries)
  {
  }

  // What each change of the two fields does to the slots.
  lemma WithoutRefines<V>(order: seq<string>, entries: map<string, Entry<V>>, key: string)
    requires Lists(order, entries.Keys)
    ensures Lists(Removed(order, key), (entries - {key}).Keys)
    ensures SlotsOf(Removed(order, key), entries - {key}) == Without(SlotsOf(order, entries), key)
  {
    hide Removed, Without;
    RemovedKeys(order, key);
    SlotsWithout(order, entries, entries - {key}, key);
  }

  lemma AppendDistinct(order: seq<string>, key: string)
    requires Distinct(order) && key !in order
    ensures Distinct(order + [key])
  {
  }

  lemma TouchedRefines<V>(order: seq<string>, entries: map<string, Entry<V>>, key: string, entry: Entry<V>)
    requires Lists(order, entries.Keys)
    ensures Lists(Removed(order, key) + [key], entries[key := entry].Keys)
    ensures SlotsOf(Removed(order, key) + [key], entries[key := entry]) == Touched(SlotsOf(order, entries), key, entry)
  {
    hide Removed, Without, Distinct;
    RemovedKeys(order, key);
    SlotsWithout(order, entries, entries[key := entry], key);
    AppendDistinct(Removed(order, key), key);
    assert SlotsOf(Removed(order, key) + [key], entries[key := entry])
        == SlotsOf(Removed(order, key), entries[key := entry]) + [Slot(key, entry)];
  }

  lemma FrontRefines<V>(order: seq<string>, entries: map<string, Entry<V>>)
    requires Lists(order, entries.Keys) && order != []
    ensures Lists(order[1..], (entries - {order[0]}).Keys)
    ensures SlotsOf(order[1..], entries - {order[0]}) == SlotsOf(order, entries)[1..]
  {
    assert order == [order[0]] + order[1..];
    assert order[0] !in order[1..];
  }

  class HintCache<V> {
    const max: int
    const ttl: real
    var entries: map<string, Entry<V>>
    var order: seq<string>

    // The access order lists exactly the stored keys, each once.
    ghost predicate Valid()
      reads this
    {
      Lists(order, entries.Keys)
    }

    function Slots(): seq<Slot<V>>
      requires Valid()
      reads this
    {
      SlotsOf(order, entries)
    }

    constructor (max: int, ttl: real)
      ensures Valid() && Slots() == [] && this.max == max && this.ttl == ttl
    {
      this.max, this.ttl, entries, order := max, ttl, map[], [];
    }

    method Get(key: string, now: Option<real>, clock: real) returns (hit: Option<V>)
      requires Valid()
      modifies this
      ensures Valid()
      ensures (Slots(), hit) == Lookup(old(Slots()), key, if now == None || now == Some(0.0) then clock else now.value)
    {
      hide Distinct, Removed, Without, Find;
      var instant := Instant(now, clock);
      if key !in entries {
        MissIsNone(order, entries, key);
        return None;
      }
      var entry := entries[key];
      FindIsEntry(order, entries, key);
      if entry.expiresAt < instant {
        WithoutRefines(order, entries, key);
        entries, order := entries - {key}, Removed(order, key);
        return None;
      }
      TouchedRefines(order, entries, key, entry);
      assert entries[key := entry] == entries;
      order := Removed(order, key) + [key];
      return Some(entry.value);
    }

    // Pops the least recently used keys; popping an empty list, when `max` is negative, raises
    // IndexError.
    method Shrink() returns (failed: bool)
      requires Valid() && (max < 0 ==> order != [])
      modifies this
      ensures Valid() && failed == (max < 0) && Slots() == Newest(old(Slots()), max)
    {
      hide Distinct, Lists, Newest, SlotsOf;
      while |order| > max
        invariant Valid() && |Slots()| == |order| && Newest(Slots(), max) == Newest(old(Slots()), max)
        decreases |order|
      {
        NewestDrops(Slots(), max);
        if order == [] {
          return true;
        }
        var evict := order[0];
        FrontRefines(order, entries);
        entries, order := entries - {evict}, order[1..];
      }
      NewestDrops(Slots(), max);
      failed := false;
    }

    method Put(key: string, value: V, now: Option<real>, clock: real) returns (failed: bool)
      requires Valid()
      modifies this
      ensures Valid() && failed == (max < 0)
      ensures
        var instant := if now == None || now == Some(0.0) then clock else now.value;
        Slots() == Stored(max, old(Slots()), key, value, instant + ttl)
    {
      hide Distinct, Removed, Touched, Newest;
      var entry := Entry(value, Instant(now, clock) + ttl);
      TouchedRefines(order, entries, key, entry);
      entries, order := entries[key := entry], Removed(order, key) + [key];
      failed := Shrink();
    }

    method Invalidate(key: string)
      requires Valid()
      modifies this
      ensures Valid() && Slots() == Without(old(Slots()), key)
    {
      WithoutRefines(order, entries, key);
      entries, order := entries - {key}, Removed(order, key);
    }
  }

  lemma NewestDrops<V>(slots: seq<Slot<V>>, max: int)
    ensures slots == [] ==> Newest(slots, max) == []
    ensures |slots| > max && slots != [] ==> Newest(slots[1..], max) == Newest(slots, max)
    ensures |slots| <= max ==> Newest(slots, max) == slots
  {
  }

  lemma {:induction false} FindIsEntry<V>(order: seq<string>, entries: map<string, Entry<V>>, key: string)
    requires key in order && forall k :: k in order ==> k in entries
    ensures Find(SlotsOf(order, entries), key) == Some(entries[key])
  {
    if order[0] != key {
      assert SlotsOf(order, entries)[1..] == SlotsOf(order[1..], entries);
      FindIsEntry(order[1..], entries, key);
    }
  }

  lemma MissIsNone<V>(order: seq<string>, entries: map<string, Entry<V>>, key: string)
    requires key !in order && forall k :: k in order ==> k in entries
    ensures Find(SlotsOf(order, entries), key).None?
  {
  }
}
