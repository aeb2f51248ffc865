/** The open-addressing table of live orders: linear probing with tombstones, proved to be a finite map
    for any hash function, with any number of tombstones and even with no empty slot left. */
module OrderTable {
  import opened Bytes

  const EMPTY: nat := 0
  const TOMBSTONE: nat := 0xFFFF_FFFF_FFFF_FFFE

  predicate IsKey(k: nat) { k != EMPTY && k != TOMBSTONE }

  datatype Slot<H> = Slot(key: nat, handle: Option<H>)

  // Where the probe of insert ends.
  predicate Stops<H>(slot: Slot<H>, key: nat) { slot.key == EMPTY || slot.key == TOMBSTONE || slot.key == key }

  // (i + 1) & mask, for a table of n slots
  function Next(i: nat, n: nat): (j: nat)
    requires i < n
    ensures j < n && j == if i + 1 == n then 0 else i + 1
  {
    (i + 1) % n
  }

  // The position `d` probes after `start`.
  function Probe(start: nat, d: nat, n: nat): (i: nat)
    requires start < n && d < n
    ensures i < n
  {
    if start + d < n then start + d else start + d - n
  }

  // A sequence without repetition is no longer than a set that holds all its elements.
  lemma {:induction false} NoRepeats<T>(s: seq<T>, all: set<T>)
    requires forall i :: 0 <= i < |s| ==> s[i] in all
    requires forall i, j :: 0 <= i < j < |s| ==> s[i] != s[j]
    ensures |s| <= |all|
  {
    if s != [] {
      var k := |s| - 1;
      NoRepeats(s[..k], all - {s[k]});
    }
  }

  // The home position of a key.
  function Home(hash: nat -> nat, k: nat, n: nat): (h: nat)
    requires n > 0
    ensures h < n
  {
    hash(k) % n
  }

  // ---------- the table as a value ----------

  // `live` is the map the slots stand for and `dist` says how many probes each live key is from its
  // home. Live slots are exactly the keys of the map, each once, and a probe for a live key meets no
  // empty slot before it.
  ghost predicate TableOk<H>(s: seq<Slot<H>>, hash: nat -> nat, live: map<nat, H>, dist: map<nat, nat>) {
    && |s| > 0 && dist.Keys == live.Keys
    && (forall k :: k in live ==> KeyOk(s, hash, k, live[k], dist[k]))
    && (forall i :: 0 <= i < |s| ==> SlotOk(s, hash, i, dist))
  }

  ghost predicate KeyOk<H>(s: seq<Slot<H>>, hash: nat -> nat, k: nat, h: H, d: nat)
    requires |s| > 0
  {
    && IsKey(k) && d < |s| && s[Probe(Home(hash, k, |s|), d, |s|)] == Slot(k, Some(h))
    && forall e :: 0 <= e < d ==> s[Probe(Home(hash, k, |s|), e, |s|)].key != EMPTY
  }

  ghost predicate SlotOk<H>(s: seq<Slot<H>>, hash: nat -> nat, i: nat, dist: map<nat, nat>)
    requires i < |s|
  {
    var k := s[i].key;
    IsKey(k) == s[i].handle.Some?
    && (IsKey(k) ==> k in dist && dist[k] < |s| && Probe(Home(hash, k, |s|), dist[k], |s|) == i)
  }

  // Writing a new key where its probe first met no live order adds exactly that key.
  lemma {:induction false} InsertOk<H>(s: seq<Slot<H>>, hash: nat -> nat, live: map<nat, H>, dist: map<nat, nat>,
                                       key: nat, h: H, d: nat)
    requires TableOk(s, hash, live, dist) && IsKey(key) && key !in live && d < |s|
    requires !IsKey(s[Probe(Home(hash, key, |s|), d, |s|)].key)
    requires forall e :: 0 <= e < d ==> s[Probe(Home(hash, key, |s|), e, |s|)].key != EMPTY
    ensures TableOk(s[Probe(Home(hash, key, |s|), d, |s|) := Slot(key, Some(h))], hash, live[key := h], dist[key := d])
  {
    var i := Probe(Home(hash, key, |s|), d, |s|);
    var t, live', dist' := s[i := Slot(key, Some(h))], live[key := h], dist[key := d];
    forall k | k in live' ensures KeyOk(t, hash, k, live'[k], dist'[k]) {
      if k != key { assert KeyOk(s, hash, k, live[k], dist[k]); }
    }
    forall j | 0 <= j < |t| ensures SlotOk(t, hash, j, dist') {
      assert SlotOk(s, hash, j, dist);
    }
  }

  // No tombstone comes before the first `d` probes of a key.
  ghost predicate NoTombstone<H>(s: seq<Slot<H>>, hash: nat -> nat, key: nat, d: nat)
    requires |s| > 0 && d < |s|
  {
    forall e :: 0 <= e < d ==> s[Probe(Home(hash, key, |s|), e, |s|)].key != TOMBSTONE
  }

  // Writing a live key over itself changes exactly its handle.
  lemma {:induction false} RewriteOk<H>(s: seq<Slot<H>>, hash: nat -> nat, live: map<nat, H>, dist: map<nat, nat>,
                                        key: nat, h: H)
    requires TableOk(s, hash, live, dist) && key in live && dist[key] < |s|
    ensures TableOk(s[Probe(Home(hash, key, |s|), dist[key], |s|) := Slot(key, Some(h))], hash, live[key := h], dist)
  {
    var i := Probe(Home(hash, key, |s|), dist[key], |s|);
    var t := s[i := Slot(key, Some(h))];
    assert KeyOk(s, hash, key, live[key], dist[key]);
    forall k | k in live[key := h] ensures KeyOk(t, hash, k, live[key := h][k], dist[k]) {
      assert KeyOk(s, hash, k, live[k], dist[k]);
    }
    forall j | 0 <= j < |t| ensures SlotOk(t, hash, j, dist) { assert SlotOk(s, hash, j, dist); }
  }

  // Writing a live key into a tombstone before it leaves two copies, and a table that is no map at all.
  lemma {:induction false} SecondCopy<H>(s: seq<Slot<H>>, hash: nat -> nat, live: map<nat, H>, dist: map<nat, nat>,
                                         key: nat, h: H, d: nat, live': map<nat, H>, dist': map<nat, nat>)
    requires TableOk(s, hash, live, dist) && key in live && d < dist[key] < |s|
    ensures !TableOk(s[Probe(Home(hash, key, |s|), d, |s|) := Slot(key, Some(h))], hash, live', dist')
  {
    var home := Home(hash, key, |s|);
    var i, j := Probe(home, d, |s|), Probe(home, dist[key], |s|);
    var t := s[i := Slot(key, Some(h))];
    assert KeyOk(s, hash, key, live[key], dist[key]);
    assert t[i].key == key == t[j].key && i != j;
    if TableOk(t, hash, live', dist') { OneSlot(t, hash, live', dist', i, j); }
  }

  // The slots stand for no map at all.
  ghost predicate NoMap<H(!new)>(s: seq<Slot<H>>, hash: nat -> nat) {
    forall live, dist :: !TableOk(s, hash, live, dist)
  }

  // A table where that happens: key 2 lives one slot behind a tombstone, insert stops at the tombstone, and
  // what it leaves is no map.
  lemma {:induction false} BehindTombstone<H(!new)>(hash: nat -> nat, h: H, g: H)
    requires hash(2) % 4 == 0
    ensures var s := [Slot(TOMBSTONE, None), Slot(2, Some(h)), Slot(EMPTY, None), Slot(EMPTY, None)];
            && TableOk(s, hash, map[2 := h], map[2 := 1]) && Stops(s[Home(hash, 2, |s|)], 2)
            && !NoTombstone(s, hash, 2, 1)
            && NoMap(s[Home(hash, 2, |s|) := Slot(2, Some(g))], hash)
  {
    var s := [Slot(TOMBSTONE, None), Slot(2, Some(h)), Slot(EMPTY, None), Slot(EMPTY, None)];
    assert Home(hash, 2, |s|) == 0 == Probe(0, 0, |s|) && Probe(0, 1, |s|) == 1;
    var t := s[0 := Slot(2, Some(g))];
    forall live, dist ensures !TableOk(t, hash, live, dist) {
      SecondCopy(s, hash, map[2 := h], map[2 := 1], 2, g, 0, live, dist);
    }
  }

  lemma {:induction false} OneSlot<H>(s: seq<Slot<H>>, hash: nat -> nat, live: map<nat, H>, dist: map<nat, nat>,
                                      i: nat, j: nat)
    requires TableOk(s, hash, live, dist) && i < |s| && j < |s| && IsKey(s[i].key) && s[i].key == s[j].key
    ensures i == j
  {
    assert SlotOk(s, hash, i, dist) && SlotOk(s, hash, j, dist);
  }

  // Leaving a tombstone removes exactly that key: no other probe is cut short.
  lemma {:induction false} EraseOk<H>(s: seq<Slot<H>>, hash: nat -> nat, live: map<nat, H>, dist: map<nat, nat>, i: nat)
    requires TableOk(s, hash, live, dist) && i < |s| && IsKey(s[i].key)
    ensures TableOk(s[i := Slot(TOMBSTONE, None)], hash, live - {s[i].key}, dist - {s[i].key})
  {
    var key := s[i].key;
    var t := s[i := Slot(TOMBSTONE, None)];
    assert SlotOk(s, hash, i, dist);
    forall k | k in live - {key} ensures KeyOk(t, hash, k, (live - {key})[k], (dist - {key})[k]) {
      assert KeyOk(s, hash, k, live[k], dist[k]);
    }
    forall j | 0 <= j < |t| ensures SlotOk(t, hash, j, dist - {key}) {
      assert SlotOk(s, hash, j, dist);
    }
  }

  // A table with fewer live orders than slots has a slot the insert probe stops at.
  lemma {:induction false} RoomLeft<H>(s: seq<Slot<H>>, hash: nat -> nat, live: map<nat, H>, dist: map<nat, nat>,
                                       start: nat) returns (d: nat)
    requires TableOk(s, hash, live, dist) && |live| < |s| && start < |s|
    ensures d < |s| && !IsKey(s[Probe(start, d, |s|)].key)
  {
    if forall i :: 0 <= i < |s| ==> IsKey(s[i].key) {
      var keys := seq(|s|, i requires 0 <= i < |s| => s[i].key);
      forall i | 0 <= i < |s| ensures keys[i] in live.Keys && Probe(Home(hash, keys[i], |s|), dist[keys[i]], |s|) == i {
        assert SlotOk(s, hash, i, dist);
      }
      NoRepeats(keys, live.Keys);
      assert false;
    }
    var i :| 0 <= i < |s| && !IsKey(s[i].key);
    d := if i >= start then i - start else i + |s| - start;
  }

  ghost function KeysIn<H>(s: seq<Slot<H>>): (ks: set<nat>)
    ensures |ks| <= |s|
    ensures forall i :: 0 <= i < |s| && IsKey(s[i].key) ==> s[i].key in ks
  {
    if s == [] then {}
    else
      var rest, k := KeysIn(s[..|s| - 1]), s[|s| - 1].key;
      if IsKey(k) then rest + {k} else rest
  }

  lemma {:induction false} KeysFewer<H>(s: seq<Slot<H>>, i: nat)
    requires i < |s| && !IsKey(s[i].key)
    ensures |KeysIn(s)| < |s|
  {
    if i < |s| - 1 { KeysFewer(s[..|s| - 1], i); }
  }

  lemma {:induction false} SubsetSize<T>(a: set<T>, b: set<T>)
    requires a <= b
    ensures |a| <= |b|
  {
    assert b == a + (b - a);
  }

  // The unbounded probe of insert ends if and only if the key is live or fewer orders are live than there are
  // slots.
  lemma {:induction false} ProbeEndsIff<H>(s: seq<Slot<H>>, hash: nat -> nat, live: map<nat, H>, dist: map<nat, nat>,
                                           key: nat)
    requires TableOk(s, hash, live, dist)
    ensures (exists i :: 0 <= i < |s| && Stops(s[i], key)) <==> key in live || |live| < |s|
  {
    if key in live {
      assert KeyOk(s, hash, key, live[key], dist[key]);
      assert Stops(s[Probe(Home(hash, key, |s|), dist[key], |s|)], key);
    } else if |live| < |s| {
      var d := RoomLeft(s, hash, live, dist, 0);
      assert Stops(s[Probe(0, d, |s|)], key);
    }
    if i :| 0 <= i < |s| && Stops(s[i], key) && key !in live {
      assert SlotOk(s, hash, i, dist);
      KeysFewer(s, i);
      forall k | k in live ensures k in KeysIn(s) { assert KeyOk(s, hash, k, live[k], dist[k]); }
      SubsetSize(live.Keys, KeysIn(s));
    }
  }

  // ---------- the table in place ----------

  class LiveOrderTable<H> {
    const slots: array<Slot<H>>
    const mask: nat
    const hash: nat -> nat
    ghost const bits: nat
    ghost var live: map<nat, H>
    ghost var dist: map<nat, nat>

    ghost predicate Valid()
      reads this, slots
    {
      Sized() && TableOk(slots[..], hash, live, dist)
    }

    // A power of two of slots.
    ghost predicate Sized()
      reads this
    {
      slots.Length == Pow2(bits) && mask == slots.Length - 1
    }

    // An empty table; its size is the least power of two from `cap`.
    constructor (cap: nat, hash: nat -> nat)
      ensures Valid() && live == map[] && fresh(slots) && this.hash == hash
      ensures cap <= slots.Length && (slots.Length == 1 || slots.Length < 2 * cap)
    {
      var n := 1;
      ghost var e := 0;
      while n < cap
        invariant n == Pow2(e) && (n == 1 || n < 2 * cap)
        decreases cap - n
      {
        n, e := 2 * n, e + 1;
      }
      slots := new Slot<H>[n](i => Slot(EMPTY, None));
      this.hash, mask, bits := hash, n - 1, e;
      live, dist := map[], map[];
    }

    // hash & mask, and (i + 1) & mask
    method Start(key: nat) returns (i: nat)
      requires Sized()
      ensures slots.Length > 0 && i == Home(hash, key, slots.Length)
    {
      MaskIsMod(hash(key), bits);
      i := And(hash(key), mask);
    }

    method Step(i: nat) returns (j: nat)
      requires Sized() && i < slots.Length
      ensures j == Next(i, slots.Length)
    {
      MaskIsMod(i + 1, bits);
      j := And(i + 1, mask);
    }

    // find: hits exactly the keys of the map, for any key at all.
    method Find(key: nat) returns (r: Option<nat>)
      requires Valid()
      ensures r.Some? <==> key in live
      ensures r.Some? ==> r.value < slots.Length && slots[r.value] == Slot(key, Some(live[key]))
    {
      var n := slots.Length;
      var i := Start(key);
      ghost var s, start := slots[..], i;
      assert key in live ==> KeyOk(s, hash, key, live[key], dist[key]);
      for k := 0 to mask + 1
        invariant i < n && (k < n ==> i == Probe(start, k, n))
        invariant key in live ==> k <= dist[key] < n
      {
        assert SlotOk(s, hash, i, dist);
        if slots[i].key == key && slots[i].handle.Some? { return Some(i); }
        if slots[i].key == EMPTY { return None; }
        i := Step(i);
      }
      r := None;
    }

    // The probe of insert. It has no bound of its own; `stop` is a place where it ends.
    method Walk(key: nat, ghost stop: nat) returns (i: nat, ghost d: nat)
      requires Sized() && 0 <= stop < slots.Length
      requires Stops(slots[Probe(Home(hash, key, slots.Length), stop, slots.Length)], key)
      ensures 0 <= d <= stop && i == Probe(Home(hash, key, slots.Length), d, slots.Length) && Stops(slots[i], key)
      ensures forall e :: 0 <= e < d ==> IsKey(slots[Probe(Home(hash, key, slots.Length), e, slots.Length)].key)
    {
      var n := slots.Length;
      i := Start(key);
      ghost var home := i;
      d := 0;
      while !Stops(slots[i], key)
        invariant 0 <= d <= stop && i == Probe(home, d, n)
        invariant forall e :: 0 <= e < d ==> IsKey(slots[Probe(home, e, n)].key)
        decreases stop - d
      {
        i := Step(i);
        d := d + 1;
      }
    }

    // It ends because the key is there or fewer orders are live than there are slots.
    method StopAt(key: nat) returns (i: nat, ghost d: nat)
      requires Valid() && (key in live || |live| < slots.Length)
      ensures 0 <= d < slots.Length && i == Probe(Home(hash, key, slots.Length), d, slots.Length)
      ensures Stops(slots[i], key)
      ensures forall e :: 0 <= e < d ==> IsKey(slots[Probe(Home(hash, key, slots.Length), e, slots.Length)].key)
      ensures key in live ==> d <= dist[key]
    {
      assert key in live ==> KeyOk(slots[..], hash, key, live[key], dist[key]);
      ghost var stop: nat;
      if key in live {
        stop := dist[key];
      } else {
        stop := RoomLeft(slots[..], hash, live, dist, Home(hash, key, slots.Length));
      }
      i, d := Walk(key, stop);
    }

    // insert, of any key for which its probe ends. A new key is added; a live one is replaced if no tombstone
    // comes before it on its probe, and otherwise the table is left with two copies. A key that is one of the
    // two marks leaves no sound table either.
    method Insert(key: nat, h: H)
      requires Valid() && (key in live || |live| < slots.Length)
      modifies slots, this`live, this`dist
      ensures live == old(live)[key := h]
      ensures key in old(live) ==> key in old(dist) && old(dist)[key] < slots.Length
      ensures Valid() <==>
                IsKey(key) && (key in old(live) ==> NoTombstone(old(slots[..]), hash, key, old(dist)[key]))
    {
      var i, d := StopAt(key);
      ghost var s := slots[..];
      Written(s, key, h, i, d);
      slots[i] := Slot(key, Some(h));
      assert slots[..] == s[i := Slot(key, Some(h))];
      live, dist := live[key := h], dist[key := d];
    }

    // Where the probe of a key stops, and what writing it there makes of the table.
    lemma {:induction false} Written(s: seq<Slot<H>>, key: nat, h: H, i: nat, d: nat)
      requires TableOk(s, hash, live, dist) && d < |s| && i == Probe(Home(hash, key, |s|), d, |s|)
      requires Stops(s[i], key)
      requires forall e :: 0 <= e < d ==> IsKey(s[Probe(Home(hash, key, |s|), e, |s|)].key)
      requires key in live ==> d <= dist[key]
      ensures key in live ==> dist[key] < |s|
      ensures TableOk(s[i := Slot(key, Some(h))], hash, live[key := h], dist[key := d])
              <==> IsKey(key) && (key in live ==> NoTombstone(s, hash, key, dist[key]))
    {
      assert SlotOk(s, hash, i, dist);
      if !IsKey(key) {
        assert !SlotOk(s[i := Slot(key, Some(h))], hash, i, dist[key := d]);
      } else if key !in live {
        InsertOk(s, hash, live, dist, key, h, d);
      } else {
        assert KeyOk(s, hash, key, live[key], dist[key]);
        if d == dist[key] {
          RewriteOk(s, hash, live, dist, key, h);
          assert dist[key := d] == dist;
        } else {
          SecondCopy(s, hash, live, dist, key, h, d, live[key := h], dist[key := d]);
          assert s[i].key == TOMBSTONE;
        }
      }
    }

    // erase of a live slot leaves a tombstone, so later probes still pass it.
    method Erase(idx: nat)
      requires Valid() && idx < slots.Length && IsKey(slots[idx].key)
      modifies slots, this`live, this`dist
      ensures Valid() && live == old(live) - {old(slots[idx].key)}
    {
      ghost var s, key := slots[..], slots[idx].key;
      EraseOk(s, hash, live, dist, idx);
      slots[idx] := Slot(TOMBSTONE, None);
      assert slots[..] == s[idx := Slot(TOMBSTONE, None)];
      live, dist := live - {key}, dist - {key};
    }
  }
}
