/** The open-addressed index with tombstones and a fixed probe budget: it is a partial
    map in which every stored key stays findable. */
module BoundedIndex {
  import opened Wrappers
  import opened Words

  const MAX_PROBE := 64

  /** Slot numbers from here on are sentinels. */
  const TOMBSTONE: u32 := U32_MAX - 1

  datatype Entry<+K> = Empty | Tombstone | Live(key: K, slot: nat)

  type Table<K> = t: seq<Entry<K>> | |t| > 0 witness [Empty]

  // ---- probe positions ----------------------------------------------------

  /** The position after `p`, round the table. */
  function Next(size: nat, p: nat): nat
    requires p < size
  {
    if p + 1 == size then 0 else p + 1
  }

  /** The d-th position probed from `home`. */
  function At(size: nat, home: nat, d: nat): (p: nat)
    requires home < size
    ensures p < size
    decreases d
  {
    if d == 0 then home else Next(size, At(size, home, d - 1))
  }

  /** How many probes away a position is. */
  function Dist(size: nat, home: nat, p: nat): nat
    requires home < size && p < size
  {
    if home <= p then p - home else p + size - home
  }

  lemma {:induction false} AtClosed(size: nat, home: nat, d: nat)
    requires home < size && d < size
    ensures At(size, home, d) == if home + d < size then home + d else home + d - size
    decreases d
  {
    if d > 0 {
      AtClosed(size, home, d - 1);
    }
  }

  lemma AtDist(size: nat, home: nat, p: nat)
    requires home < size && p < size
    ensures Dist(size, home, p) < size && At(size, home, Dist(size, home, p)) == p
  {
    AtClosed(size, home, Dist(size, home, p));
  }

  /** Walking never reaches a position earlier than its distance. */
  lemma DistLeast(size: nat, home: nat, d: nat)
    requires home < size
    ensures Dist(size, home, At(size, home, d)) <= d
  {}

  // ---- representation -----------------------------------------------------

  function Home<K(!new)>(hash: K -> u32, size: nat, k: K): (home: nat)
    requires size > 0
    ensures home < size
  {
    hash(k) % size
  }

  /** What the e-th probe for `k` meets. */
  function Met<K(!new)>(hash: K -> u32, t: Table<K>, k: K, e: nat): Entry<K> {
    t[At(|t|, Home(hash, |t|, k), e)]
  }

  predicate Holds<K(!new,==)>(x: Entry<K>, k: K) { x.Live? && x.key == k }

  /** From its home, key `k` reaches position `p` within the budget without meeting an
      empty slot. */
  ghost predicate Reaches<K(!new)>(hash: K -> u32, t: Table<K>, k: K, p: nat)
    requires p < |t|
  {
    var d := Dist(|t|, Home(hash, |t|, k), p);
    d < MAX_PROBE && forall e :: 0 <= e < d ==> !Met(hash, t, k, e).Empty?
  }

  /** The table stores exactly `m`: every live entry is one of its pairs and reachable,
      and every pair sits in exactly one entry, found at `where[k]`. */
  ghost predicate Represents<K(!new)>(hash: K -> u32, t: Table<K>, m: map<K, nat>, where: map<K, nat>) {
    && where.Keys == m.Keys
    && (forall k {:trigger Stored(hash, t, m, where, k)} :: k in m ==> Stored(hash, t, m, where, k))
    && (forall p {:trigger Filed(t, m, where, p)} :: 0 <= p < |t| ==> Filed(t, m, where, p))
  }

  ghost predicate Stored<K(!new)>(hash: K -> u32, t: Table<K>, m: map<K, nat>, where: map<K, nat>, k: K)
    requires k in m && k in where
  {
    where[k] < |t| && t[where[k]] == Live(k, m[k]) && Reaches(hash, t, k, where[k])
  }

  ghost predicate Filed<K(!new)>(t: Table<K>, m: map<K, nat>, where: map<K, nat>, p: nat)
    requires p < |t|
  {
    t[p].Live? ==> t[p].key in m && t[p].key in where && where[t[p].key] == p
  }

  /** Probing `n` positions for `k` met neither an empty slot nor `k`. */
  ghost predicate Passed<K(!new)>(hash: K -> u32, t: Table<K>, k: K, n: nat) {
    forall e :: 0 <= e < n ==> !Met(hash, t, k, e).Empty? && !Holds(Met(hash, t, k, e), k)
  }

  lemma MetAtDist<K(!new)>(hash: K -> u32, t: Table<K>, k: K, p: nat)
    requires p < |t|
    ensures Met(hash, t, k, Dist(|t|, Home(hash, |t|, k), p)) == t[p]
  {
    AtDist(|t|, Home(hash, |t|, k), p);
  }

  /** A probe that stops at an empty slot, or runs out of budget, proves absence. */
  lemma AbsentWhenPassed<K(!new)>(hash: K -> u32, t: Table<K>, m: map<K, nat>, where: map<K, nat>, k: K, n: nat)
    requires Represents(hash, t, m, where) && Passed(hash, t, k, n)
    requires n >= MAX_PROBE || Met(hash, t, k, n).Empty?
    ensures k !in m
  {
    if k in m {
      assert Stored(hash, t, m, where, k);
      MetAtDist(hash, t, k, where[k]);
      assert false;
    }
  }

  /** The first vacancy met by a probe is a place the key can be found at. */
  lemma PassedReaches<K(!new)>(hash: K -> u32, t: Table<K>, k: K, n: nat)
    requires n < MAX_PROBE && Passed(hash, t, k, n)
    ensures Reaches(hash, t, k, At(|t|, Home(hash, |t|, k), n))
  {
    DistLeast(|t|, Home(hash, |t|, k), n);
  }

  /** Filling or emptying a slot, without making it empty again, keeps a key in reach. */
  lemma ReachesKept<K(!new)>(hash: K -> u32, t: Table<K>, p: nat, x: Entry<K>, k: K, q: nat)
    requires p < |t| && q < |t| && !x.Empty? && Reaches(hash, t, k, q)
    ensures Reaches(hash, t[p := x], k, q)
  {
    var t' := t[p := x];
    forall e | 0 <= e < Dist(|t|, Home(hash, |t|, k), q)
      ensures !Met(hash, t', k, e).Empty?
    {
      assert !Met(hash, t, k, e).Empty?;
    }
  }

  /** No probe for `k` before position `p` meets a vacancy. */
  ghost predicate IsFirstVacancy<K(!new)>(hash: K -> u32, t: Table<K>, k: K, p: nat)
    requires p < |t|
  {
    !t[p].Live? && forall e :: 0 <= e < Dist(|t|, Home(hash, |t|, k), p) ==> Met(hash, t, k, e).Live?
  }

  /** Putting an absent key into a vacant slot it can reach keeps every other key findable. */
  lemma PutKeeps<K(!new)>(hash: K -> u32, t: Table<K>, m: map<K, nat>, where: map<K, nat>, k: K, p: nat, slot: nat)
    requires Represents(hash, t, m, where) && p < |t| && !t[p].Live? && k !in m && Reaches(hash, t, k, p)
    ensures Represents(hash, t[p := Live(k, slot)], m[k := slot], where[k := p])
  {
    var t', m', where' := t[p := Live(k, slot)], m[k := slot], where[k := p];
    forall x | x in m'
      ensures Stored(hash, t', m', where', x)
    {
      if x != k { assert Stored(hash, t, m, where, x); }
      ReachesKept(hash, t, p, Live(k, slot), x, where'[x]);
    }
    forall q | 0 <= q < |t|
      ensures Filed(t', m', where', q)
    {
      assert Filed(t, m, where, q);
    }
  }

  lemma UpdateKeeps<K(!new)>(hash: K -> u32, t: Table<K>, m: map<K, nat>, where: map<K, nat>, p: nat, slot: nat)
    requires Represents(hash, t, m, where) && p < |t| && t[p].Live?
    ensures Represents(hash, t[p := Live(t[p].key, slot)], m[t[p].key := slot], where)
  {
    var k := t[p].key;
    var t', m' := t[p := Live(k, slot)], m[k := slot];
    assert Filed(t, m, where, p);
    forall x | x in m'
      ensures Stored(hash, t', m', where, x)
    {
      assert Stored(hash, t, m, where, x);
      ReachesKept(hash, t, p, Live(k, slot), x, where[x]);
    }
    forall q | 0 <= q < |t|
      ensures Filed(t', m', where, q)
    {
      assert Filed(t, m, where, q);
    }
  }

  /** A tombstone keeps the chains that ran through the removed key. */
  lemma RemoveKeeps<K(!new)>(hash: K -> u32, t: Table<K>, m: map<K, nat>, where: map<K, nat>, p: nat)
    requires Represents(hash, t, m, where) && p < |t| && t[p].Live?
    ensures Represents(hash, t[p := Tombstone], m - {t[p].key}, where - {t[p].key})
  {
    var k := t[p].key;
    var t', m', where' := t[p := Tombstone], m - {k}, where - {k};
    assert Filed(t, m, where, p);
    forall x | x in m'
      ensures Stored(hash, t', m', where', x)
    {
      assert Stored(hash, t, m, where, x);
      ReachesKept(hash, t, p, Tombstone, x, where[x]);
    }
    forall q | 0 <= q < |t|
      ensures Filed(t', m', where', q)
    {
      assert Filed(t, m, where, q);
    }
  }

  /** Every probe for `k` meets a live entry of another key. */
  ghost predicate Crowded<K(!new)>(hash: K -> u32, t: Table<K>, k: K) {
    forall e :: 0 <= e < 64 ==> Met(hash, t, k, e).Live? && !Holds(Met(hash, t, k, e), k)
  }

  /** Probes walk the table from the key's hash, round its end. */
  lemma ProbeAt<K(!new)>(hash: K -> u32, t: Table<K>, k: K, e: nat)
    ensures Met(hash, t, k, e) == t[(hash(k) + e) % |t|]
  {
    AtMod(|t|, hash(k), e);
  }

  lemma {:induction false} AtMod(size: nat, n: nat, e: nat)
    requires size > 0
    ensures At(size, n % size, e) == (n + e) % size
    decreases e
  {
    if e > 0 {
      AtMod(size, n, e - 1);
      NextMod(size, n + e - 1);
    }
  }

  lemma NextMod(size: nat, n: nat)
    requires size > 0
    ensures (n + 1) % size == if n % size + 1 == size then 0 else n % size + 1
  {
    var q, r := n / size, n % size;
    if r + 1 == size {
      assert size * (q + 1) == size * q + size;
      ModUnique(size, n + 1, q + 1, 0);
    } else {
      ModUnique(size, n + 1, q, r + 1);
    }
  }

  function Window(size: nat): nat { if size < 64 then size else 64 }

  /** A crowded window takes as many stored keys as it has positions. */
  lemma CrowdedNeedsKeys<K(!new)>(hash: K -> u32, t: Table<K>, m: map<K, nat>, where: map<K, nat>, k: K)
    requires Represents(hash, t, m, where) && Crowded(hash, t, k)
    ensures |m| >= Window(|t|)
  {
    var keys := WindowKeys(hash, t, m, where, k, Window(|t|));
    SubsetSize(keys, m.Keys);
  }

  lemma {:induction false} WindowKeys<K(!new)>(hash: K -> u32, t: Table<K>, m: map<K, nat>, where: map<K, nat>, k: K, n: nat)
    returns (keys: set<K>)
    requires Represents(hash, t, m, where) && Crowded(hash, t, k) && n <= Window(|t|)
    ensures |keys| == n && keys <= m.Keys
    ensures forall x :: x in keys ==> where[x] < |t| && Dist(|t|, Home(hash, |t|, k), where[x]) < n
    decreases n
  {
    keys := {};
    if n > 0 {
      var home := Home(hash, |t|, k);
      var rest := WindowKeys(hash, t, m, where, k, n - 1);
      assert Met(hash, t, k, n - 1).Live?;
      assert Filed(t, m, where, At(|t|, home, n - 1));
      AtClosed(|t|, home, n - 1);
      keys := rest + {Met(hash, t, k, n - 1).key};
    }
  }

  lemma {:induction false} SubsetSize<T>(a: set<T>, b: set<T>)
    requires a <= b
    ensures |a| <= |b|
    decreases |a|
  {
    if a != {} {
      var x :| x in a;
      SubsetSize(a - {x}, b - {x});
    }
  }

  // ---- the index object ---------------------------------------------------

  /** The smallest power of two that is at least `n`. */
  function NextPowerOfTwo(n: nat): (p: nat)
    ensures n <= p && p > 0
  {
    if n <= 1 then 1 else 2 * NextPowerOfTwo((n + 1) / 2)
  }

  /** It is a power of two, and no smaller one is large enough. */
  lemma {:induction false} NextPowerLeast(n: nat, j: nat) returns (k: nat)
    ensures NextPowerOfTwo(n) == Pow2(k)
    ensures Pow2(j) >= n ==> NextPowerOfTwo(n) <= Pow2(j)
    decreases n
  {
    k := 0;
    if n > 1 {
      k := NextPowerLeast((n + 1) / 2, if j == 0 then 0 else j - 1);
      k := k + 1;
    }
  }

  class Index<K(!new,==)> {
    const hash: K -> u32
    const table: array<Entry<K>>
    var occupied: nat
    var probeExhausted: u64
    ghost var contents: map<K, nat>
    ghost var where: map<K, nat>

    ghost predicate Valid()
      reads this, table
    {
      && table.Length > 0
      && Represents(hash, table[..], contents, where)
      && occupied == |contents|
    }

    constructor (hash: K -> u32, capacity: nat)
      ensures Valid() && fresh(table) && this.hash == hash && contents == map[] && probeExhausted == 0
      ensures table.Length >= 2 * capacity && table.Length == NextPowerOfTwo(if capacity == 0 then 2 else 2 * capacity)
    {
      this.hash := hash;
      var size := NextPowerOfTwo(if capacity == 0 then 2 else 2 * capacity);
      table := new Entry<K>[size](_ => Empty);
      occupied, probeExhausted := 0, 0;
      contents, where := map[], map[];
    }

    /** Walk the probe sequence to the entry of `k`. */
    method Find(k: K) returns (r: Option<nat>)
      requires Valid()
      ensures r.None? <==> k !in contents
      ensures r.Some? ==> r.value < table.Length && table[r.value] == Live(k, contents[k])
    {
      ghost var t, home := table[..], Home(hash, table.Length, k);
      var i := hash(k) % table.Length;
      for n := 0 to MAX_PROBE
        invariant i == At(|t|, home, n)
        invariant Passed(hash, t, k, n)
      {
        assert table[i] == Met(hash, t, k, n);
        match table[i] {
          case Empty =>
            AbsentWhenPassed(hash, t, contents, where, k, n);
            return None;
          case Tombstone =>
          case Live(key, _) =>
            if key == k {
              assert Filed(t, contents, where, i) && Stored(hash, t, contents, where, k);
              return Some(i);
            }
        }
        i := if i + 1 == table.Length then 0 else i + 1;
      }
      AbsentWhenPassed(hash, t, contents, where, k, MAX_PROBE);
      return None;
    }

    /** Look a key up; a stored key is always found. */
    method Get(k: K) returns (r: Option<nat>)
      requires Valid()
      ensures r == if k in contents then Some(contents[k]) else None
    {
      var p := Find(k);
      r := if p.Some? then Some(table[p.value].slot) else None;
    }

    /** Walk the probe sequence for an insertion: to the key itself, or else to the first
        tombstone before an empty slot, or that empty slot, or a tombstone within budget. */
    method Seek(k: K) returns (found: bool, p: Option<nat>)
      requires Valid()
      ensures found <==> k in contents
      ensures found ==> p.Some? && p.value < table.Length && table[p.value] == Live(k, contents[k])
      ensures !found && p.Some? ==>
        p.value < table.Length && !table[p.value].Live? && Reaches(hash, table[..], k, p.value)
      ensures !found && p.Some? ==> IsFirstVacancy(hash, table[..], k, p.value)
      ensures p.None? <==> k !in contents && Crowded(hash, table[..], k)
    {
      ghost var t, home := table[..], Home(hash, table.Length, k);
      var i := hash(k) % table.Length;
      p := None;
      for n := 0 to MAX_PROBE
        invariant i == At(|t|, home, n)
        invariant Passed(hash, t, k, n)
        invariant p.None? ==> forall e :: 0 <= e < n ==> Met(hash, t, k, e).Live?
        invariant p.Some? ==>
          && p.value < |t| && t[p.value].Tombstone? && IsFirstVacancy(hash, t, k, p.value)
          && Reaches(hash, t, k, p.value) && !Crowded(hash, t, k)
      {
        assert table[i] == Met(hash, t, k, n);
        PassedReaches(hash, t, k, n);
        DistLeast(|t|, home, n);
        match table[i] {
          case Empty =>
            AbsentWhenPassed(hash, t, contents, where, k, n);
            return false, if p.Some? then p else Some(i);
          case Tombstone =>
            if p.None? {
              p := Some(i);
            }
          case Live(key, _) =>
            if key == k {
              assert Filed(t, contents, where, i) && Stored(hash, t, contents, where, k);
              return true, Some(i);
            }
        }
        i := if i + 1 == table.Length then 0 else i + 1;
      }
      AbsentWhenPassed(hash, t, contents, where, k, MAX_PROBE);
      return false, p;
    }

    /** Insert or update.  Refused exactly when the key is absent and every probe meets
        another live key; a refusal is counted and changes nothing else. */
    method Insert(k: K, slot: nat) returns (ok: bool)
      requires Valid() && slot < TOMBSTONE
      modifies this, table
      ensures Valid() && (ok <==> old(k in contents || !Crowded(hash, table[..], k)))
      ensures contents == if ok then old(contents)[k := slot] else old(contents)
      ensures !ok ==> table[..] == old(table[..]) && old(|contents|) >= Window(table.Length)
      ensures probeExhausted == if ok || old(probeExhausted) == U64_MAX then old(probeExhausted) else old(probeExhausted) + 1
    {
      ghost var t := table[..];
      var found, p := Seek(k);
      if p.None? {
        CrowdedNeedsKeys(hash, t, contents, where, k);
        probeExhausted := if probeExhausted < U64_MAX then probeExhausted + 1 else U64_MAX;
        return false;
      }
      if found {
        UpdateKeeps(hash, t, contents, where, p.value, slot);
      } else {
        PutKeeps(hash, t, contents, where, k, p.value, slot);
        occupied := occupied + 1;
        where := where[k := p.value];
      }
      table[p.value] := Live(k, slot);
      assert table[..] == t[p.value := Live(k, slot)];
      contents := contents[k := slot];
      return true;
    }

    /** Remove a key, leaving a tombstone so that other probes still walk past. */
    method Remove(k: K) returns (r: Option<nat>)
      requires Valid()
      modifies this, table
      ensures Valid() && contents == old(contents) - {k} && probeExhausted == old(probeExhausted)
      ensures r == if k in old(contents) then Some(old(contents)[k]) else None
    {
      ghost var t := table[..];
      var p := Find(k);
      if p.None? {
        return None;
      }
      r := Some(table[p.value].slot);
      RemoveKeeps(hash, t, contents, where, p.value);
      table[p.value] := Tombstone;
      assert table[..] == t[p.value := Tombstone];
      occupied := occupied - 1;
      contents, where := contents - {k}, where - {k};
    }
  }
}
