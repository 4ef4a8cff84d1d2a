/**
  Open addressing with linear probing and deletion by Knuth's Algorithm R.
  The table is a fixed array changed in place; its meaning is `Contents()`.
 */
module FlatHashMaps {
  import opened Words
  import opened Collections

  const FIBONACCI: uint64 := 11400714819323198485

  datatype Entry<V> = Entry(key: uint64, value: V)

  /** The two hashes: `key & mask`, and a Fibonacci multiply masked. */
  function IdentityHash(key: uint64, capacity: nat): (h: nat)
    requires capacity > 0
    ensures h < capacity
  {
    Masked(key, capacity)
  }

  function FibonacciHash(key: uint64, capacity: nat): (h: nat)
    requires capacity > 0
    ensures h < capacity
  {
    Masked(key * FIBONACCI % TWO_64, capacity)
  }

  /** The map is proved for any hash into the table, so for both of these. */
  lemma HashesFit(capacity: nat)
    requires capacity > 0
    ensures HashInto(key => IdentityHash(key, capacity), capacity)
    ensures HashInto(key => FibonacciHash(key, capacity), capacity)
  {
  }

  /** The slot after i, `(i + 1) & mask`. */
  function Next(i: nat, capacity: nat): (r: nat)
    requires i < capacity
    ensures r < capacity
  {
    if i + 1 == capacity then 0 else i + 1
  }

  /** Cyclic distance from slot a forward to slot b, `(b - a) & mask`. */
  function Dist(a: nat, b: nat, capacity: nat): (d: nat)
    requires a < capacity && b < capacity
    ensures d < capacity
  {
    if a <= b then b - a else b + capacity - a
  }

  /** Next and Dist are the masked sum and the masked (wrapping) difference. */
  lemma MaskedForms(a: nat, b: nat, capacity: nat)
    requires a < capacity && b < capacity
    ensures Next(a, capacity) == Masked(a + 1, capacity)
    ensures Dist(a, b, capacity) == Masked(b - a, capacity)
  {
    ModUnique(a + 1, capacity, if a + 1 == capacity then 1 else 0, Next(a, capacity));
    ModUnique(b - a, capacity, if a <= b then 0 else -1, Dist(a, b, capacity));
  }

  // ---- Invariants, on the table as a value ----

  type Table<V> = seq<Entry<V>>

  /** No free slot lies cyclically in [home, i), except possibly `hole`. */
  ghost predicate Clear<V>(t: Table<V>, home: nat, i: nat, hole: int)
    requires home < |t| && i < |t|
  {
    forall x | 0 <= x < |t| && x != hole && Dist(home, x, |t|) < Dist(home, i, |t|) ::
      t[x].key != EMPTY
  }

  /** `slotOf` indexes exactly the occupied slots, so no key occurs twice. */
  ghost predicate Indexed<V>(t: Table<V>, slotOf: map<uint64, nat>) {
    && (forall k | k in slotOf :: k != EMPTY && slotOf[k] < |t| && t[slotOf[k]].key == k)
    && (forall i | 0 <= i < |t| && t[i].key != EMPTY ::
          t[i].key in slotOf && slotOf[t[i].key] == i)
  }

  ghost predicate HashInto(hash: uint64 -> nat, capacity: nat) {
    forall k :: hash(k) < capacity
  }

  /** Every key is reachable from its home without crossing a free slot other than `hole`. */
  ghost predicate Reachable<V>(t: Table<V>, hash: uint64 -> nat, hole: int)
    requires HashInto(hash, |t|)
  {
    forall i | 0 <= i < |t| && t[i].key != EMPTY :: Clear(t, hash(t[i].key), i, hole)
  }

  /** The probe path to slot m passes slot i. */
  ghost predicate Crosses<V>(t: Table<V>, hash: uint64 -> nat, m: nat, i: nat)
    requires HashInto(hash, |t|) && m < |t| && i < |t|
  {
    Dist(hash(t[m].key), i, |t|) < Dist(hash(t[m].key), m, |t|)
  }

  /** In the middle of a deletion: i is the hole, and no slot of (i, j] has its path cut by it. */
  ghost predicate Scanned<V>(t: Table<V>, hash: uint64 -> nat, i: nat, j: nat)
    requires HashInto(hash, |t|) && i < |t| && j < |t|
  {
    && t[i].key == EMPTY
    && Reachable(t, hash, i)
    && (forall m | 0 <= m < |t| && t[m].key != EMPTY && Crosses(t, hash, m, i) ::
          Dist(i, j, |t|) < Dist(i, m, |t|))
  }

  ghost function Meaning<V>(t: Table<V>, slotOf: map<uint64, nat>): (m: map<uint64, V>)
    requires Indexed(t, slotOf)
    ensures m.Keys == slotOf.Keys
  {
    map k | k in slotOf :: t[slotOf[k]].value
  }

  lemma MeaningCount<V>(t: Table<V>, slotOf: map<uint64, nat>)
    requires Indexed(t, slotOf)
    ensures |Meaning(t, slotOf)| == |slotOf|
  {
    assert |Meaning(t, slotOf).Keys| == |slotOf.Keys|;
  }

  ghost function FirstKeys<V>(t: Table<V>, n: nat): (s: set<uint64>)
    requires n <= |t|
  {
    set i | 0 <= i < n :: t[i].key
  }

  lemma {:induction false} FirstKeysCount<V>(t: Table<V>, slotOf: map<uint64, nat>, n: nat)
    requires Indexed(t, slotOf) && n <= |t|
    requires forall i | 0 <= i < |t| :: t[i].key != EMPTY
    ensures |FirstKeys(t, n)| == n
  {
    if n > 0 {
      FirstKeysCount(t, slotOf, n - 1);
      assert FirstKeys(t, n) == FirstKeys(t, n - 1) + {t[n - 1].key};
      assert t[n - 1].key !in FirstKeys(t, n - 1);
    }
  }

  /** A table with fewer keys than slots has a free slot. */
  lemma FreeSlot<V>(t: Table<V>, slotOf: map<uint64, nat>) returns (e: nat)
    requires Indexed(t, slotOf) && |slotOf| < |t|
    ensures e < |t| && t[e].key == EMPTY
  {
    if forall i | 0 <= i < |t| :: t[i].key != EMPTY {
      FirstKeysCount(t, slotOf, |t|);
      SubsetCount(FirstKeys(t, |t|), slotOf.Keys);
      assert false;
    }
    e :| 0 <= e < |t| && t[e].key == EMPTY;
  }

  /** A probe that has not stopped at slot i goes on to the next slot, closer to any stop e. */
  lemma ProbeStep<V>(t: Table<V>, home: nat, i: nat, e: nat)
    requires home < |t| && i < |t| && e < |t| && i != e
    requires Clear(t, home, i, -1) && t[i].key != EMPTY
    requires Dist(home, i, |t|) <= Dist(home, e, |t|)
    ensures Clear(t, home, Next(i, |t|), -1)
    ensures Dist(home, Next(i, |t|), |t|) == Dist(home, i, |t|) + 1 <= Dist(home, e, |t|)
  {
  }

  /** Stopping at a free slot means the key is absent; stopping at the key means it is there. */
  lemma ProbeStop<V>(t: Table<V>, hash: uint64 -> nat, slotOf: map<uint64, nat>, key: uint64, i: nat)
    requires HashInto(hash, |t|) && Indexed(t, slotOf) && Reachable(t, hash, -1)
    requires i < |t| && Clear(t, hash(key), i, -1)
    requires key in slotOf ==> Dist(hash(key), i, |t|) <= Dist(hash(key), slotOf[key], |t|)
    requires t[i].key == EMPTY || t[i].key == key
    ensures key in slotOf ==> i == slotOf[key]
    ensures key !in slotOf ==> t[i].key == EMPTY
  {
    if key in slotOf {
      assert Clear(t, hash(t[slotOf[key]].key), slotOf[key], -1);
    }
  }

  lemma FillIndexed<V>(t: Table<V>, slotOf: map<uint64, nat>, i: nat, e: Entry<V>)
    requires Indexed(t, slotOf) && i < |t| && e.key != EMPTY
    requires if e.key in slotOf then slotOf[e.key] == i else t[i].key == EMPTY
    ensures Indexed(t[i := e], slotOf[e.key := i])
    ensures Meaning(t[i := e], slotOf[e.key := i]) == Meaning(t, slotOf)[e.key := e.value]
  {
    var u, s := t[i := e], slotOf[e.key := i];
    assert Indexed(u, s) by {
      forall k | k in s ensures k != EMPTY && s[k] < |u| && u[s[k]].key == k {
        assert k != e.key ==> slotOf[k] != i;
      }
    }
    forall k | k in s ensures Meaning(u, s)[k] == Meaning(t, slotOf)[e.key := e.value][k] {
      assert k != e.key ==> s[k] == slotOf[k] != i;
    }
  }

  lemma VacateIndexed<V>(t: Table<V>, slotOf: map<uint64, nat>, i: nat)
    requires Indexed(t, slotOf) && i < |t| && t[i].key != EMPTY
    ensures var u := t[i := t[i].(key := EMPTY)];
            Indexed(u, slotOf - {t[i].key}) && Meaning(u, slotOf - {t[i].key}) == Meaning(t, slotOf) - {t[i].key}
  {
  }

  lemma MoveIndexed<V>(t: Table<V>, slotOf: map<uint64, nat>, i: nat, k: nat)
    requires Indexed(t, slotOf) && i < |t| && k < |t| && t[i].key == EMPTY && t[k].key != EMPTY
    ensures var u := t[i := t[k]][k := t[k].(key := EMPTY)];
            Indexed(u, slotOf[t[k].key := i]) && Meaning(u, slotOf[t[k].key := i]) == Meaning(t, slotOf)
  {
    var u, s := t[i := t[k]][k := t[k].(key := EMPTY)], slotOf[t[k].key := i];
    assert Indexed(u, s) by {
      forall q | q in s ensures q != EMPTY && s[q] < |u| && u[s[q]].key == q {
        assert q != t[k].key ==> slotOf[q] != i && slotOf[q] != k;
      }
    }
    forall q | q in s ensures Meaning(u, s)[q] == Meaning(t, slotOf)[q] {
      assert q != t[k].key ==> s[q] == slotOf[q];
    }
  }

  /** Filling a slot cuts no probe path. */
  lemma FillKeepsReachable<V>(t: Table<V>, hash: uint64 -> nat, i: nat, e: Entry<V>)
    requires HashInto(hash, |t|) && i < |t| && e.key != EMPTY
    requires Reachable(t, hash, -1)
    requires Clear(t, hash(e.key), i, -1)
    ensures Reachable(t[i := e], hash, -1)
  {
    var u := t[i := e];
    forall m | 0 <= m < |u| && u[m].key != EMPTY
      ensures Clear(u, hash(u[m].key), m, -1)
    {
      assert m != i ==> Clear(t, hash(t[m].key), m, -1);
    }
  }

  /** Writing a value under the free marker changes nothing that can be observed. */
  lemma OverwriteReachable<V>(t: Table<V>, hash: uint64 -> nat, i: nat, e: Entry<V>)
    requires HashInto(hash, |t|) && Reachable(t, hash, -1)
    requires i < |t| && t[i].key == e.key == EMPTY
    ensures Reachable(t[i := e], hash, -1)
  {
    var u := t[i := e];
    forall m | 0 <= m < |u| && u[m].key != EMPTY
      ensures Clear(u, hash(u[m].key), m, -1)
    {
      assert Clear(t, hash(t[m].key), m, -1);
    }
  }

  lemma OverwriteIndexed<V>(t: Table<V>, slotOf: map<uint64, nat>, i: nat, e: Entry<V>)
    requires Indexed(t, slotOf) && i < |t| && t[i].key == e.key == EMPTY
    ensures Indexed(t[i := e], slotOf)
    ensures Meaning(t[i := e], slotOf) == Meaning(t, slotOf)
  {
    forall k | k in slotOf ensures Meaning(t[i := e], slotOf)[k] == Meaning(t, slotOf)[k] {
      assert slotOf[k] != i;
    }
  }

  /** Vacating a slot of a sound table leaves a hole that nothing has been scanned past. */
  lemma VacateScanned<V>(t: Table<V>, hash: uint64 -> nat, i: nat)
    requires HashInto(hash, |t|) && i < |t|
    requires Reachable(t, hash, -1)
    ensures Scanned(t[i := t[i].(key := EMPTY)], hash, i, i)
  {
    var u := t[i := t[i].(key := EMPTY)];
    forall m | 0 <= m < |u| && u[m].key != EMPTY
      ensures Clear(u, hash(u[m].key), m, i)
    {
      assert Clear(t, hash(t[m].key), m, -1);
    }
  }

  /** An entry whose home is in (i, j] is not cut off by the hole at i. */
  lemma SkipScanned<V>(t: Table<V>, hash: uint64 -> nat, i: nat, j: nat)
    requires HashInto(hash, |t|) && i < |t| && j < |t|
    requires Scanned(t, hash, i, j)
    requires var k := Next(j, |t|); t[k].key != EMPTY && Dist(hash(t[k].key), k, |t|) < Dist(i, k, |t|)
    ensures Scanned(t, hash, i, Next(j, |t|))
  {
  }

  /** Moving an entry whose path crosses the hole into the hole makes its old slot the hole. */
  lemma MoveScanned<V>(t: Table<V>, hash: uint64 -> nat, i: nat, j: nat)
    requires HashInto(hash, |t|) && i < |t| && j < |t|
    requires Scanned(t, hash, i, j)
    requires var k := Next(j, |t|); t[k].key != EMPTY && Dist(hash(t[k].key), k, |t|) >= Dist(i, k, |t|)
    ensures var k := Next(j, |t|);
            Scanned(t[i := t[k]][k := t[k].(key := EMPTY)], hash, k, k)
  {
    var k := Next(j, |t|);
    var u := t[i := t[k]][k := t[k].(key := EMPTY)];
    assert Clear(t, hash(t[k].key), k, i);
    forall m | 0 <= m < |u| && u[m].key != EMPTY
      ensures Clear(u, hash(u[m].key), m, k)
    {
      assert m != i ==> Clear(t, hash(t[m].key), m, i);
    }
  }

  /** A free slot right after the scanned stretch ends the deletion; it may be the hole, after a whole lap. */
  lemma StopReachable<V>(t: Table<V>, hash: uint64 -> nat, i: nat, j: nat)
    requires HashInto(hash, |t|) && i < |t| && j < |t|
    requires Scanned(t, hash, i, j)
    requires t[Next(j, |t|)].key == EMPTY
    ensures Reachable(t, hash, -1)
  {
    forall m | 0 <= m < |t| && t[m].key != EMPTY
      ensures Clear(t, hash(t[m].key), m, -1)
    {
      assert Clear(t, hash(t[m].key), m, i);
      assert !Crosses(t, hash, m, i);
    }
  }

  // ---- Why the scan ends, even in a full table ----

  /** How far the entry in slot x is from its home. */
  ghost function Shift<V>(t: Table<V>, hash: uint64 -> nat, x: nat): (d: nat)
    requires HashInto(hash, |t|) && x < |t|
  {
    if t[x].key == EMPTY then 0 else Dist(hash(t[x].key), x, |t|)
  }

  ghost function Displacement<V>(t: Table<V>, hash: uint64 -> nat, n: nat): (d: nat)
    requires HashInto(hash, |t|) && n <= |t|
  {
    if n == 0 then 0 else Displacement(t, hash, n - 1) + Shift(t, hash, n - 1)
  }

  lemma {:induction false} DisplacementUpdate<V>(t: Table<V>, hash: uint64 -> nat, n: nat, x: nat, e: Entry<V>)
    requires HashInto(hash, |t|) && n <= |t| && x < |t|
    ensures var u := t[x := e];
            Displacement(u, hash, n)
            == Displacement(t, hash, n) + if x < n then Shift(u, hash, x) - Shift(t, hash, x) else 0
  {
    if n > 0 {
      DisplacementUpdate(t, hash, n - 1, x, e);
    }
  }

  /** A moved entry comes closer to its home. */
  lemma MoveShortens<V>(t: Table<V>, hash: uint64 -> nat, i: nat, k: nat)
    requires HashInto(hash, |t|) && i < |t| && k < |t| && t[i].key == EMPTY && t[k].key != EMPTY
    requires Dist(hash(t[k].key), k, |t|) >= Dist(i, k, |t|)
    ensures Displacement(t[i := t[k]][k := t[k].(key := EMPTY)], hash, |t|) < Displacement(t, hash, |t|)
  {
    DisplacementUpdate(t, hash, |t|, i, t[k]);
    DisplacementUpdate(t[i := t[k]], hash, |t|, k, t[k].(key := EMPTY));
  }

  class FlatHashMap<V> {
    const capacity: nat
    const hash: uint64 -> nat
    const table: array<Entry<V>>
    /** Where each present key sits. */
    ghost var slotOf: map<uint64, nat>

    ghost predicate Valid()
      reads this, table
    {
      && table.Length == capacity > 0
      && HashInto(hash, capacity)
      && Indexed(table[..], slotOf)
      && Reachable(table[..], hash, -1)
    }

    ghost function Contents(): (m: map<uint64, V>)
      requires Valid()
      reads this, table
    {
      Meaning(table[..], slotOf)
    }

    constructor (capacity: nat, hash: uint64 -> nat, initial: V)
      requires PowerOfTwo(capacity)
      requires HashInto(hash, capacity)
      ensures Valid() && fresh(table)
      ensures this.capacity == capacity && this.hash == hash
      ensures Contents() == map[]
    {
      this.capacity := capacity;
      this.hash := hash;
      table := new Entry<V>[capacity](i => Entry(EMPTY, initial));
      slotOf := map[];
    }

    /** The walk from a key's home stops at the key, or at a free slot if the key is absent. */
    method Probe(key: uint64) returns (i: nat)
      requires Valid()
      requires |slotOf| < capacity || key in slotOf
      ensures i < capacity
      ensures key in slotOf ==> i == slotOf[key]
      ensures key !in slotOf ==> table[i].key == EMPTY
      ensures Clear(table[..], hash(key), i, -1)
    {
      ghost var t, home := table[..], hash(key);
      ghost var e: nat;
      if key in slotOf { e := slotOf[key]; } else { e := FreeSlot(t, slotOf); }
      i := hash(key);
      while table[i].key != EMPTY && table[i].key != key
        invariant i < capacity
        invariant Clear(t, home, i, -1)
        invariant Dist(home, i, capacity) <= Dist(home, e, capacity)
        decreases Dist(home, e, capacity) - Dist(home, i, capacity)
      {
        ProbeStep(t, home, i, e);
        MaskedForms(i, i, capacity);
        i := Masked(i + 1, capacity);
      }
      ProbeStop(t, hash, slotOf, key, i);
    }

    method Find(key: uint64) returns (found: Option<V>)
      requires Valid()
      requires |Contents()| < capacity || key in Contents()
      ensures found == if key in Contents() then Some(Contents()[key]) else None
    {
      MeaningCount(table[..], slotOf);
      var i := Probe(key);
      found := if table[i].key == EMPTY then None else Some(table[i].value);
    }

    /** Inserting EMPTY writes a value under the free marker, which nobody can read back. */
    method Insert(key: uint64, value: V)
      requires Valid()
      requires |Contents()| < capacity || key in Contents()
      modifies this, table
      ensures Valid()
      ensures Contents() == if key == EMPTY then old(Contents()) else old(Contents())[key := value]
    {
      ghost var t := table[..];
      MeaningCount(t, slotOf);
      var i := Probe(key);
      table[i] := Entry(key, value);
      assert table[..] == t[i := Entry(key, value)];
      if key != EMPTY {
        FillKeepsReachable(t, hash, i, Entry(key, value));
        FillIndexed(t, slotOf, i, Entry(key, value));
        slotOf := slotOf[key := i];
      } else {
        OverwriteReachable(t, hash, i, Entry(key, value));
        OverwriteIndexed(t, slotOf, i, Entry(key, value));
      }
    }

    method MoveBack(i: nat, j: nat)
      requires table.Length == capacity && Indexed(table[..], slotOf)
      requires i < capacity && j < capacity && table[i].key == EMPTY && table[j].key != EMPTY
      modifies this, table
      ensures table[..] == old(table[..])[i := old(table[j])][j := old(table[j]).(key := EMPTY)]
      ensures forall x | 0 <= x < capacity && x != i && x != j :: table[x] == old(table[x])
      ensures Indexed(table[..], slotOf)
      ensures Meaning(table[..], slotOf) == old(Meaning(table[..], slotOf))
    {
      ghost var t := table[..];
      MoveIndexed(t, slotOf, i, j);
      slotOf := slotOf[table[j].key := i];
      table[i] := table[j];
      table[j] := table[j].(key := EMPTY);
      assert table[..] == t[i := t[j]][j := t[j].(key := EMPTY)];
    }

    /** The scan of Algorithm R: shifts entries back until the hole cuts no probe path. */
    method CloseHole(hole: nat)
      requires table.Length == capacity && hole < capacity && HashInto(hash, capacity)
      requires Indexed(table[..], slotOf) && Scanned(table[..], hash, hole, hole)
      modifies this, table
      ensures Valid()
      ensures Contents() == old(Meaning(table[..], slotOf))
    {
      var i: nat, j: nat := hole, hole;
      while true
        invariant i < capacity && j < capacity
        invariant Indexed(table[..], slotOf) && Scanned(table[..], hash, i, j)
        invariant Meaning(table[..], slotOf) == old(Meaning(table[..], slotOf))
        decreases Displacement(table[..], hash, capacity), capacity - Dist(i, j, capacity)
      {
        ghost var t, j0 := table[..], j;
        MaskedForms(j, j, capacity);
        j := Masked(j + 1, capacity);
        if table[j].key == EMPTY {
          StopReachable(t, hash, i, j0);
          return;
        }
        var h := hash(table[j].key);
        MaskedForms(h, j, capacity);
        MaskedForms(i, j, capacity);
        // Move j to i if j's home is not cyclically in (i, j].
        if Masked(j - h, capacity) >= Masked(j - i, capacity) {
          MoveScanned(t, hash, i, j0);
          MoveShortens(t, hash, i, j);
          MoveBack(i, j);
          i := j;
        } else {
          SkipScanned(t, hash, i, j0);
        }
      }
    }

    /** Frees an occupied slot, leaving a hole. */
    method Vacate(i: nat)
      requires Valid() && i < capacity && table[i].key != EMPTY
      modifies this, table
      ensures Indexed(table[..], slotOf) && Scanned(table[..], hash, i, i)
      ensures Meaning(table[..], slotOf) == old(Contents()) - {old(table[i].key)}
      ensures forall x | 0 <= x < capacity && x != i :: table[x] == old(table[x])
    {
      ghost var t := table[..];
      VacateScanned(t, hash, i);
      VacateIndexed(t, slotOf, i);
      slotOf := slotOf - {table[i].key};
      table[i] := table[i].(key := EMPTY);
      assert table[..] == t[i := t[i].(key := EMPTY)];
    }

    method Erase(key: uint64)
      requires Valid()
      requires |Contents()| < capacity || key in Contents()
      modifies this, table
      ensures Valid()
      ensures Contents() == old(Contents()) - {key}
    {
      MeaningCount(table[..], slotOf);
      var i := Probe(key);
      if table[i].key == EMPTY {
        return;
      }
      Vacate(i);
      CloseHole(i);
    }
  }
}
