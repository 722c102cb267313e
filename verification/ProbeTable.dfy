/** The open-addressing hash tables of tok_map.c (str_u32_map and merge_map share one shape: a
    power-of-two array of slots, linear probing, doubling at three quarters full, growth that may
    fail).  The key type, the value type and the hash function are arbitrary. */
module ProbeTable {
  import opened Bits

  const MAX_CAP: nat := 0x8000_0000
  const MAX_INITIAL: nat := 0x4000_0000
  const WRAP: nat := 0x1_0000_0000

  datatype Slot<K, V> = Empty | Full(key: K, hash: nat, val: V)

  ghost predicate PowerOfTwo(n: nat) {
    n == 1 || (n > 1 && n % 2 == 0 && PowerOfTwo(n / 2))
  }

  lemma {:induction false} Pow2IsPower(n: nat)
    ensures PowerOfTwo(Pow2(n))
  {
    if n > 0 {
      Pow2IsPower(n - 1);
      assert 2 * Pow2(n - 1) / 2 == Pow2(n - 1);
    }
  }

  lemma {:induction false} PowerIsPow2(c: nat) returns (n: nat)
    requires PowerOfTwo(c)
    ensures c == Pow2(n)
  {
    if c == 1 {
      n := 0;
    } else {
      n := PowerIsPow2(c / 2);
      n := n + 1;
    }
  }

  /** The bit-smearing of next_pow2. */
  function Smear(v: nat): nat {
    var a := Or(v, Shr(v, 1));
    var b := Or(a, Shr(a, 2));
    var c := Or(b, Shr(b, 4));
    var d := Or(c, Shr(c, 8));
    Or(d, Shr(d, 16))
  }

  lemma {:induction false} SmearFills(v: nat)
    requires Len(v) <= 32
    ensures Smear(v) == Pow2(Len(v)) - 1
  {
    var n := Len(v);
    assert Filled(v, n, 1) by {
      if v > 0 {
        HighestBit(v);
      } else {
        forall i: nat
          ensures !Bit(v, i)
        {
          ZeroBit(i);
        }
      }
    }
    var a := Or(v, Shr(v, 1));
    Fill(v, n, 1);
    var b := Or(a, Shr(a, 2));
    Fill(a, n, 2);
    var c := Or(b, Shr(b, 4));
    Fill(b, n, 4);
    var d := Or(c, Shr(c, 8));
    Fill(c, n, 8);
    Fill(d, n, 16);
    assert Filled(Smear(v), n, n);
    AllOnes(Smear(v), n);
  }

  lemma WrapIsPow2()
    ensures WRAP == Pow2(32) && MAX_CAP == Pow2(31)
  {
    assert Pow2(8) == 256;
    assert Pow2(16) == 256 * Pow2(8);
    assert Pow2(24) == 256 * Pow2(16);
    assert Pow2(31) == 128 * Pow2(24);
  }

  /** next_pow2 in uint32_t arithmetic: 1 for 0, the power of two r with r / 2 < v <= r up to 2^31, and
      0 above. */
  function NextPow2(v: nat): (r: nat)
    requires v < WRAP
    ensures v == 0 ==> r == 1
    ensures 0 < v <= MAX_CAP ==> PowerOfTwo(r) && v <= r < 2 * v
    ensures v > MAX_CAP ==> r == 0
  {
    if v == 0 then 1 else NextPow2Correct(v); (Smear(v - 1) + 1) % WRAP
  }

  lemma NextPow2Correct(v: nat)
    requires 0 < v < WRAP
    ensures var r := (Smear(v - 1) + 1) % WRAP;
            if v <= MAX_CAP then PowerOfTwo(r) && v <= r < 2 * v else r == 0
  {
    LenInRange(v - 1);
    SmearFills(v - 1);
    IncrementCase(v, Smear(v - 1));
  }

  lemma {:induction false} IncrementCase(v: nat, x: nat)
    requires 0 < v < WRAP && x == Pow2(Len(v - 1)) - 1
    ensures var r := (x + 1) % WRAP;
            if v <= MAX_CAP then PowerOfTwo(r) && v <= r < 2 * v else r == 0
  {
    if v <= MAX_CAP {
      LowCase(v);
    } else {
      HighCase(v);
    }
    Increment(x, Pow2(Len(v - 1)));
  }

  lemma Increment(x: nat, p: nat)
    requires x == p - 1 && p <= WRAP
    ensures (x + 1) % WRAP == if p == WRAP then 0 else p
  {
  }

  lemma HighCase(v: nat)
    requires MAX_CAP < v < WRAP
    ensures Pow2(Len(v - 1)) == WRAP
  {
    WrapIsPow2();
    LenInRange(v - 1);
    LenMore(v - 1, 31);
  }

  lemma LowCase(v: nat)
    requires 0 < v <= MAX_CAP
    ensures var p := Pow2(Len(v - 1)); PowerOfTwo(p) && v <= p < 2 * v && p <= MAX_CAP
  {
    var n := Len(v - 1);
    WrapIsPow2();
    LenAtMost(v - 1, 31);
    Pow2Grows(n, 31);
    Pow2IsPower(n);
    if v > 1 {
      LenRange(v - 1);
    }
  }

  lemma LenInRange(v: nat)
    requires v < WRAP
    ensures Len(v) <= 32
  {
    WrapIsPow2();
    LenAtMost(v, 32);
  }

  lemma {:induction false} Pow2Gap(n: nat, e: nat)
    requires PowerOfTwo(n) && PowerOfTwo(e) && n < 2 * e
    ensures n <= e
  {
    if n > 1 && e > 1 {
      assert n == 2 * (n / 2) && e == 2 * (e / 2);
      Pow2Gap(n / 2, e / 2);
    }
  }

  /** No smaller power of two would do. */
  lemma {:induction false} NextPow2Least(v: nat, e: nat)
    requires 0 < v <= MAX_CAP && PowerOfTwo(e) && v <= e
    ensures NextPow2(v) <= e
  {
    Pow2Gap(NextPow2(v), e);
  }

  lemma DoublePow2(n: nat)
    requires PowerOfTwo(n)
    ensures PowerOfTwo(2 * n)
  {
    assert 2 * n / 2 == n;
  }

  /** `h & mask` in a table whose size is a power of two. */
  method Masked(h: nat, len: nat) returns (i: nat)
    requires PowerOfTwo(len)
    ensures i == h % len
  {
    ghost var n := PowerIsPow2(len);
    MaskIsMod(h, n);
    i := And(h, len - 1);
  }

  // ---------------------------------------------------------------- slot sequences

  /** The d-th slot of the probe that starts at the home slot of hash h; in a table whose size is a
      power of two this is `(h & mask) + d` wrapped by the mask. */
  function At(h: nat, d: nat, cap: nat): (i: nat)
    requires cap > 0
    ensures i < cap
  {
    (h % cap + d) % cap
  }

  lemma {:induction false} AtNext(h: nat, d: nat, cap: nat)
    requires cap > 0
    ensures (At(h, d, cap) + 1) % cap == At(h, d + 1, cap)
  {
    var a := h % cap + d;
    ModStep(a, cap);
  }

  lemma {:induction false} ModStep(a: nat, cap: nat)
    requires cap > 0
    ensures (a % cap + 1) % cap == (a + 1) % cap
  {
    var q, r := a / cap, a % cap;
    assert a == q * cap + r;
    if r + 1 < cap {
      ModUnique(a + 1, q, r + 1, cap);
      ModUnique(r + 1, 0, r + 1, cap);
    } else {
      assert a + 1 == (q + 1) * cap;
      ModUnique(a + 1, q + 1, 0, cap);
      ModUnique(cap, 1, 0, cap);
    }
  }

  lemma MulLe(a: nat, b: nat, c: nat)
    ensures a <= b ==> a * c <= b * c
  {
  }

  lemma {:induction false} ModUnique(a: nat, q: nat, r: nat, cap: nat)
    requires cap > 0 && a == q * cap + r && r < cap
    ensures a % cap == r
  {
    var q' := a / cap;
    assert a == q' * cap + a % cap;
    MulLe(q + 1, q', cap);
    MulLe(q' + 1, q, cap);
  }

  /** Every slot is on some probe of every hash within cap steps. */
  lemma AtReaches(h: nat, i: nat, cap: nat) returns (d: nat)
    requires i < cap
    ensures d < cap && At(h, d, cap) == i
  {
    var home := h % cap;
    if home <= i {
      d := i - home;
      ModUnique(home + d, 0, i, cap);
    } else {
      d := i + cap - home;
      ModUnique(home + d, 1, i, cap);
    }
  }

  ghost function Occupied<K, V>(s: seq<Slot<K, V>>): (n: nat)
    ensures n <= |s|
  {
    if s == [] then 0 else Occupied(s[..|s| - 1]) + if s[|s| - 1].Full? then 1 else 0
  }

  lemma {:induction false} OccupiedUpdate<K, V>(s: seq<Slot<K, V>>, i: nat, x: Slot<K, V>)
    requires i < |s| && s[i].Empty? && x.Full?
    ensures Occupied(s[i := x]) == Occupied(s) + 1
  {
    var init := s[..|s| - 1];
    if i == |s| - 1 {
      assert s[i := x][..|s| - 1] == init;
    } else {
      OccupiedUpdate(init, i, x);
      assert s[i := x][..|s| - 1] == init[i := x];
    }
  }

  lemma {:induction false} OccupiedOverwrite<K, V>(s: seq<Slot<K, V>>, i: nat, x: Slot<K, V>)
    requires i < |s| && s[i].Full? && x.Full?
    ensures Occupied(s[i := x]) == Occupied(s)
  {
    var init := s[..|s| - 1];
    if i == |s| - 1 {
      assert s[i := x][..|s| - 1] == init;
    } else {
      OccupiedOverwrite(init, i, x);
      assert s[i := x][..|s| - 1] == init[i := x];
    }
  }

  /** A table that is not completely occupied has an empty slot. */
  lemma {:induction false} EmptySlot<K, V>(s: seq<Slot<K, V>>) returns (i: nat)
    requires Occupied(s) < |s|
    ensures i < |s| && s[i].Empty?
  {
    if s[|s| - 1].Empty? {
      i := |s| - 1;
    } else {
      i := EmptySlot(s[..|s| - 1]);
    }
  }

  lemma {:induction false} OccupiedNone<K, V>(s: seq<Slot<K, V>>)
    requires forall i :: 0 <= i < |s| ==> s[i].Empty?
    ensures Occupied(s) == 0
  {
    if s != [] {
      OccupiedNone(s[..|s| - 1]);
    }
  }

  /** The first d slots probed for hash h are occupied by keys other than k. */
  ghost predicate Passed<K, V>(s: seq<Slot<K, V>>, k: K, h: nat, d: nat)
    requires |s| > 0
  {
    forall e: nat {:trigger At(h, e, |s|)} :: e < d ==> s[At(h, e, |s|)].Full? && s[At(h, e, |s|)].key != k
  }

  /** The entry in slot i is found by probing from its home slot. */
  ghost predicate Placed<K, V>(s: seq<Slot<K, V>>, i: nat)
    requires i < |s| && s[i].Full?
  {
    exists d: nat :: d < |s| && At(s[i].hash, d, |s|) == i && Passed(s, s[i].key, s[i].hash, d)
  }

  ghost predicate TableOk<K, V>(s: seq<Slot<K, V>>, hash: K -> nat) {
    && |s| > 0
    && (forall i :: 0 <= i < |s| && s[i].Full? ==> s[i].hash == hash(s[i].key) && Placed(s, i))
    && (forall i, j :: 0 <= i < j < |s| && s[i].Full? && s[j].Full? ==> s[i].key != s[j].key)
  }

  ghost predicate Has<K, V>(s: seq<Slot<K, V>>, k: K) {
    exists i :: 0 <= i < |s| && s[i].Full? && s[i].key == k
  }

  /** s stores exactly the map m. */
  ghost predicate Stores<K, V>(s: seq<Slot<K, V>>, m: map<K, V>) {
    && (forall i :: 0 <= i < |s| && s[i].Full? ==> s[i].key in m && m[s[i].key] == s[i].val)
    && (forall k :: k in m ==> Has(s, k))
  }

  /** An empty slot at the end of a probe for k means k is absent. */
  lemma MissMeansAbsent<K, V>(s: seq<Slot<K, V>>, hash: K -> nat, k: K, d: nat)
    requires TableOk(s, hash) && Passed(s, k, hash(k), d) && s[At(hash(k), d, |s|)].Empty?
    ensures forall i :: 0 <= i < |s| && s[i].Full? ==> s[i].key != k
  {
    forall i | 0 <= i < |s| && s[i].Full?
      ensures s[i].key != k
    {
      var e: nat :| e < |s| && At(s[i].hash, e, |s|) == i && Passed(s, s[i].key, s[i].hash, e);
    }
  }

  /** Filling the empty slot at the end of the probe for a new key keeps the table sound. */
  lemma InsertKeepsOk<K, V>(s: seq<Slot<K, V>>, hash: K -> nat, k: K, v: V, d: nat, m: map<K, V>)
    requires TableOk(s, hash) && Stores(s, m) && d < |s|
    requires Passed(s, k, hash(k), d) && s[At(hash(k), d, |s|)].Empty?
    ensures var r := s[At(hash(k), d, |s|) := Full(k, hash(k), v)];
            TableOk(r, hash) && Stores(r, m[k := v]) && k !in m && Occupied(r) == Occupied(s) + 1
  {
    var idx := At(hash(k), d, |s|);
    var x := Full(k, hash(k), v);
    var r := s[idx := x];
    MissMeansAbsent(s, hash, k, d);
    OccupiedUpdate(s, idx, x);
    forall i | 0 <= i < |r| && r[i].Full?
      ensures r[i].hash == hash(r[i].key) && Placed(r, i)
    {
      if i == idx {
        assert Passed(r, k, hash(k), d);
      } else {
        var e: nat :| e < |s| && At(s[i].hash, e, |s|) == i && Passed(s, s[i].key, s[i].hash, e);
        assert Passed(r, r[i].key, r[i].hash, e);
      }
    }
    forall q | q in m[k := v]
      ensures Has(r, q)
    {
      if q == k {
        assert r[idx].key == q;
      } else {
        var i :| 0 <= i < |s| && s[i].Full? && s[i].key == q;
        assert r[i] == s[i];
      }
    }
  }

  /** Overwriting the value of the slot that holds k keeps the table sound. */
  lemma {:induction false} UpdateKeepsOk<K, V>(s: seq<Slot<K, V>>, hash: K -> nat, i: nat, v: V, m: map<K, V>)
    requires TableOk(s, hash) && Stores(s, m) && i < |s| && s[i].Full?
    ensures var r := s[i := s[i].(val := v)];
            TableOk(r, hash) && Stores(r, m[s[i].key := v]) && s[i].key in m && Occupied(r) == Occupied(s)
  {
    var r := s[i := s[i].(val := v)];
    OccupiedOverwrite(s, i, s[i].(val := v));
    forall j | 0 <= j < |r| && r[j].Full?
      ensures r[j].hash == hash(r[j].key) && Placed(r, j)
    {
      var e: nat :| e < |s| && At(s[j].hash, e, |s|) == j && Passed(s, s[j].key, s[j].hash, e);
      assert Passed(r, r[j].key, r[j].hash, e);
    }
    forall q | q in m[s[i].key := v]
      ensures Has(r, q)
    {
      var j :| 0 <= j < |s| && s[j].Full? && s[j].key == q;
      assert r[j].key == q;
    }
  }

  // ---------------------------------------------------------------- the table

  datatype Option<+T> = None | Some(value: T)

  /** The requested capacity, clamped on both sides. */
  function Wanted(initialCap: nat): nat {
    if initialCap < 4 then 4 else if initialCap > MAX_INITIAL then MAX_INITIAL else initialCap
  }

  method InitialCap(initialCap: nat) returns (cap: nat)
    ensures PowerOfTwo(cap) && 4 <= cap <= MAX_CAP
    ensures Wanted(initialCap) <= cap < 2 * Wanted(initialCap)
  {
    var hint := if initialCap > MAX_INITIAL then MAX_INITIAL else initialCap;
    hint := if hint < 4 then 4 else hint;
    MaxInitialPow2();
    NextPow2Least(hint, MAX_INITIAL);
    cap := NextPow2(hint);
  }

  class Table<K(==), V> {
    const hash: K -> nat
    var entries: array<Slot<K, V>>
    var count: nat
    ghost var contents: map<K, V>

    ghost predicate Valid()
      reads this, entries
    {
      && 4 <= entries.Length <= MAX_CAP && PowerOfTwo(entries.Length)
      && TableOk(entries[..], hash)
      && Stores(entries[..], contents)
      && count == Occupied(entries[..]) < entries.Length
    }

    /** str_u32_map_init and merge_map_init when the allocation succeeds. */
    constructor (hash: K -> nat, initialCap: nat)
      ensures Valid() && fresh(entries) && contents == map[] && this.hash == hash
      ensures Wanted(initialCap) <= entries.Length < 2 * Wanted(initialCap)
      ensures 4 <= initialCap <= 0x4000_0000 ==> initialCap <= entries.Length < 2 * initialCap
      ensures initialCap < 4 ==> entries.Length == 4
      ensures initialCap > 0x4000_0000 ==> 0x4000_0000 <= entries.Length < 0x8000_0000
    {
      var cap := InitialCap(initialCap);
      this.hash := hash;
      var slots := new Slot<K, V>[cap](_ => Empty);
      entries := slots;
      count := 0;
      contents := map[];
      OccupiedNone(slots[..]);
    }

    /** The probe loop of _get and _put: stops at the slot that holds k or at the first empty slot.
        It terminates because an empty slot always remains. */
    method Probe(k: K) returns (idx: nat, ghost d: nat)
      requires Valid()
      ensures d < entries.Length && idx == At(hash(k), d, entries.Length)
      ensures Passed(entries[..], k, hash(k), d)
      ensures entries[idx].Empty? || entries[idx].key == k
    {
      ghost var s := entries[..];
      ghost var hole := EmptySlot(s);
      ghost var end := AtReaches(hash(k), hole, |s|);
      idx := Masked(hash(k), entries.Length);
      d := 0;
      ModUnique(hash(k) % |s|, 0, hash(k) % |s|, |s|);
      while entries[idx].Full? && !(entries[idx].hash == hash(k) && entries[idx].key == k)
        invariant 0 <= d <= end && idx == At(hash(k), d, |s|)
        invariant Passed(s, k, hash(k), d)
        decreases end - d
      {
        assert s[idx] == entries[idx];
        AtNext(hash(k), d, |s|);
        assert d != end;
        idx := Masked(idx + 1, entries.Length);
        d := d + 1;
      }
      assert entries[idx].Full? ==> s[idx].Full?;
    }

    /** _get agrees with the abstract map, on hits and on misses. */
    method Get(k: K) returns (r: Option<V>)
      requires Valid()
      ensures r == if k in contents then Some(contents[k]) else None
    {
      var idx, d := Probe(k);
      ghost var s := entries[..];
      assert s[idx] == entries[idx];
      if entries[idx].Full? {
        r := Some(entries[idx].val);
      } else {
        MissMeansAbsent(s, hash, k, d);
        assert Stores(s, contents) && !Has(s, k);
        r := None;
      }
    }

    /** _grow.  allocOk is the outcome of calloc; on failure the old table stays. */
    method Grow(allocOk: bool) returns (grown: bool)
      requires Valid()
      modifies this`entries
      ensures Valid() && (entries == old(entries) || fresh(entries))
      ensures grown <==> old(entries.Length) < MAX_CAP && allocOk
      ensures if grown then entries.Length == 2 * old(entries.Length) else entries == old(entries)
    {
      if entries.Length > (WRAP - 1) / 2 {
        return false;
      }
      if !allocOk {
        return false;
      }
      var bigger := Rehash();
      LengthBelowMax(entries.Length);
      DoublePow2(entries.Length);
      entries := bigger;
      grown := true;
    }

    /** The rehash loop of _grow: every entry moves to the first free slot of its probe in the new
        table, so the new table stores the same map. */
    method Rehash() returns (bigger: array<Slot<K, V>>)
      requires Valid()
      ensures fresh(bigger) && bigger.Length == 2 * entries.Length
      ensures TableOk(bigger[..], hash) && Stores(bigger[..], contents) && Occupied(bigger[..]) == count
    {
      ghost var s := entries[..];
      bigger := new Slot<K, V>[2 * entries.Length](_ => Empty);
      DoublePow2(entries.Length);
      OccupiedNone(bigger[..]);
      ghost var m: map<K, V> := map[];
      for i := 0 to entries.Length
        invariant TableOk(bigger[..], hash) && Stores(bigger[..], m)
        invariant Occupied(bigger[..]) == Occupied(s[..i])
        invariant Stores(s[..i], m)
      {
        assert s[..i + 1][..i] == s[..i];
        if entries[i].Full? {
          assert entries[i] == s[i];
          NewKey(s, i, m, bigger[..], hash);
          StoresNext(s, i, m);
          Move(bigger, entries[i], m);
          m := m[s[i].key := s[i].val];
        }
      }
      assert s[..|s|] == s;
      StoresUnique(s, contents, m);
    }

    /** Put one old entry into the new table. */
    method Move(bigger: array<Slot<K, V>>, e: Slot<K, V>, ghost m: map<K, V>)
      requires e.Full? && e.hash == hash(e.key) && e.key !in m && !Has(bigger[..], e.key)
      requires bigger.Length > 0 && PowerOfTwo(bigger.Length) && Occupied(bigger[..]) < bigger.Length
      requires TableOk(bigger[..], hash) && Stores(bigger[..], m)
      modifies bigger
      ensures TableOk(bigger[..], hash) && Stores(bigger[..], m[e.key := e.val])
      ensures Occupied(bigger[..]) == old(Occupied(bigger[..])) + 1
    {
      ghost var r := bigger[..];
      var idx, d := FreeSlot(bigger, e.key);
      InsertKeepsOk(r, hash, e.key, e.val, d, m);
      bigger[idx] := e;
      assert bigger[..] == r[idx := e];
    }

    /** The inner loop of _grow: the first empty slot of the probe for k, in a table without k. */
    method FreeSlot(a: array<Slot<K, V>>, k: K) returns (idx: nat, ghost d: nat)
      requires a.Length > 0 && PowerOfTwo(a.Length) && Occupied(a[..]) < a.Length && !Has(a[..], k)
      ensures d < a.Length && idx == At(hash(k), d, a.Length) && a[idx].Empty?
      ensures Passed(a[..], k, hash(k), d)
    {
      ghost var s := a[..];
      ghost var hole := EmptySlot(s);
      ghost var end := AtReaches(hash(k), hole, |s|);
      idx := Masked(hash(k), a.Length);
      d := 0;
      ModUnique(hash(k) % |s|, 0, hash(k) % |s|, |s|);
      while a[idx].Full?
        invariant 0 <= d <= end && idx == At(hash(k), d, |s|)
        invariant Passed(s, k, hash(k), d)
        decreases end - d
      {
        assert s[idx] == a[idx];
        AtNext(hash(k), d, |s|);
        assert d != end;
        idx := Masked(idx + 1, a.Length);
        d := d + 1;
      }
    }

    /** The growth test of _put, in wrapping 32-bit arithmetic; a failed growth is tolerated. */
    method MaybeGrow(allocOk: bool) returns (grown: bool)
      requires Valid()
      modifies this`entries
      ensures Valid() && (entries == old(entries) || fresh(entries))
      ensures if grown then entries.Length == 2 * old(entries.Length) else entries == old(entries)
      ensures count == old(entries.Length) - 1 ==> (grown <==> allocOk && old(entries.Length) < MAX_CAP)
      ensures old(entries.Length) < MAX_CAP ==> (grown <==> allocOk && 4 * count >= 3 * old(entries.Length))
      ensures allocOk && old(entries.Length) < MAX_CAP && Light(count, old(entries.Length)) ==> Light(count + 1, entries.Length)
    {
      grown := false;
      GrowthTest(count, entries.Length);
      LightStep(count, entries.Length);
      if AboveThreshold(count, entries.Length) {
        grown := Grow(allocOk);
      } else {
        FullMeansGrow(entries.Length);
      }
    }

    /** Fill the empty slot that the probe for the new key k ended at. */
    method Insert(k: K, v: V, idx: nat, ghost d: nat)
      requires Valid() && count + 1 < entries.Length && d < entries.Length && idx == At(hash(k), d, entries.Length)
      requires Passed(entries[..], k, hash(k), d) && entries[idx].Empty?
      modifies this`count, this`contents, entries
      ensures Valid() && contents == old(contents)[k := v] && k !in old(contents) && count == old(count) + 1
    {
      ghost var s := entries[..];
      InsertKeepsOk(s, hash, k, v, d, contents);
      entries[idx] := Full(k, hash(k), v);
      assert entries[..] == s[idx := Full(k, hash(k), v)];
      count := count + 1;
      contents := contents[k := v];
    }

    method Update(v: V, idx: nat)
      requires Valid() && idx < entries.Length && entries[idx].Full?
      modifies this`contents, entries
      ensures Valid() && contents == old(contents)[old(entries[idx].key) := v]
      ensures old(entries[idx].key) in old(contents)
    {
      ghost var s := entries[..];
      UpdateKeepsOk(s, hash, idx, v, contents);
      entries[idx] := entries[idx].(val := v);
      assert entries[..] == s[idx := s[idx].(val := v)];
      contents := contents[s[idx].key := v];
    }

    /** _put.  An update never fails; an insert fails exactly when the table could not grow and
        only the sentinel slot is left. */
    method Put(k: K, v: V, allocOk: bool) returns (ok: bool)
      requires Valid()
      modifies this, entries
      ensures Valid() && (entries == old(entries) || fresh(entries))
      ensures contents == if ok then old(contents)[k := v] else old(contents)
      ensures !ok <==> k !in old(contents) && old(count) == old(entries.Length) - 1
                       && !(allocOk && old(entries.Length) < MAX_CAP)
      ensures allocOk && old(entries.Length) < MAX_CAP && Light(old(count), old(entries.Length)) ==> Light(count, entries.Length)
    {
      var grown := MaybeGrow(allocOk);
      var idx, d := Probe(k);
      if entries[idx].Empty? {
        ghost var s := entries[..];
        assert s[idx] == entries[idx];
        MissMeansAbsent(s, hash, k, d);
        assert !Has(s, k);
        if count + 1 >= entries.Length {
          return false;
        }
        Insert(k, v, idx, d);
      } else {
        Update(v, idx);
      }
      return true;
    }
  }

  /** At most three quarters of the slots are in use. */
  predicate Light(count: nat, cap: nat) {
    4 * count <= 3 * cap
  }

  lemma LightStep(count: nat, cap: nat)
    requires PowerOfTwo(cap) && cap >= 4
    ensures 4 * count < 3 * cap ==> Light(count + 1, cap)
    ensures Light(count, cap) ==> Light(count + 1, 2 * cap)
  {
    assert cap % 2 == 0 && PowerOfTwo(cap / 2) && cap / 2 % 2 == 0;
  }

  lemma GrowthTest(count: nat, cap: nat)
    requires PowerOfTwo(cap) && 4 <= cap <= MAX_CAP && count < cap
    ensures cap < MAX_CAP ==> (AboveThreshold(count, cap) <==> 4 * count >= 3 * cap)
  {
    if cap < MAX_CAP {
      LengthBelowMax(cap);
    }
  }

  predicate AboveThreshold(count: nat, cap: nat) {
    (count * 4) % WRAP >= (cap * 3) % WRAP
  }

  /** A slot that has not been moved holds a key that the new table does not have. */
  lemma NewKey<K, V>(s: seq<Slot<K, V>>, i: nat, m: map<K, V>, r: seq<Slot<K, V>>, hash: K -> nat)
    requires TableOk(s, hash) && i < |s| && s[i].Full? && Stores(s[..i], m) && Stores(r, m)
    ensures !Has(r, s[i].key) && s[i].key !in m
  {
    var k := s[i].key;
    forall j | 0 <= j < i && s[..i][j].Full?
      ensures s[..i][j].key != k
    {
      assert s[..i][j] == s[j];
    }
    assert k !in m;
  }

  lemma StoresNext<K, V>(s: seq<Slot<K, V>>, i: nat, m: map<K, V>)
    requires i < |s| && s[i].Full? && Stores(s[..i], m) && s[i].key !in m
    ensures Stores(s[..i + 1], m[s[i].key := s[i].val])
  {
    var k := s[i].key;
    forall j | 0 <= j < i && s[j].Full?
      ensures s[j].key in m && m[s[j].key] == s[j].val
    {
      assert s[..i][j] == s[j];
    }
    var t, m' := s[..i + 1], m[k := s[i].val];
    forall q | q in m'
      ensures Has(t, q)
    {
      if q == k {
        assert t[i].Full? && t[i].key == q;
      } else {
        assert Has(s[..i], q);
        var j :| 0 <= j < i && s[..i][j].Full? && s[..i][j].key == q;
        assert t[j].Full? && t[j].key == q;
      }
    }
  }

  lemma StoresUnique<K, V>(s: seq<Slot<K, V>>, m: map<K, V>, n: map<K, V>)
    requires Stores(s, m) && Stores(s, n)
    ensures m == n
  {
    forall k
      ensures k in m <==> k in n
    {
      assert k in m ==> Has(s, k);
      assert k in n ==> Has(s, k);
    }
    assert m.Keys == n.Keys;
    forall k | k in m
      ensures m[k] == n[k]
    {
      assert Has(s, k);
    }
  }

  lemma {:induction false} MulPow2(a: nat, b: nat)
    requires PowerOfTwo(a) && PowerOfTwo(b)
    ensures PowerOfTwo(a * b)
  {
    if a > 1 {
      MulPow2(a / 2, b);
      DoublePow2(a / 2 * b);
      assert a * b == 2 * (a / 2 * b);
    }
  }

  lemma MaxInitialPow2()
    ensures PowerOfTwo(MAX_INITIAL)
  {
    assert PowerOfTwo(4);
    MulPow2(4, 4);
    MulPow2(16, 16);
    MulPow2(256, 4);
    MulPow2(1024, 1024);
    MulPow2(1048576, 1024);
  }

  /** A power of two that does not exceed half the 32-bit range is at most half of MAX_CAP. */
  lemma LengthBelowMax(n: nat)
    requires n <= (WRAP - 1) / 2 && PowerOfTwo(n)
    ensures 2 * n <= MAX_CAP
  {
    MaxInitialPow2();
    Pow2Gap(n, MAX_INITIAL);
  }

  /** A table with one free slot is above the growth threshold, unless it is already too large to
      grow; wrap-around only affects tables of that size. */
  lemma {:induction false} FullMeansGrow(cap: nat)
    requires 4 <= cap <= MAX_CAP && PowerOfTwo(cap)
    ensures cap < MAX_CAP ==> AboveThreshold(cap - 1, cap)
  {
    if cap < MAX_CAP {
      LengthBelowMax(cap);
    }
  }
}
