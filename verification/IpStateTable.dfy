/** The per-address state table: a slab, a free list and an index that together behave as
    a bounded map. */
module IpStateTable {
  import opened Wrappers
  import opened Words
  import B = BoundedIndex

  datatype IpSlot<+K, +V> = IpSlot(ip: K, state: V)

  type Slab<K, V> = seq<Option<IpSlot<K, V>>>

  /** Free-list indices and occupied slots partition the slab, without duplicates. */
  ghost predicate Partition<K, V>(slab: Slab<K, V>, free: seq<nat>) {
    && (forall j, k :: 0 <= j < k < |free| ==> free[j] != free[k])
    && (forall j :: 0 <= j < |free| ==> free[j] < |slab|)
    && (forall i :: 0 <= i < |slab| ==> (slab[i].None? <==> i in free))
  }

  /** Key `k` of the index names a slot that holds `k` with its state in `m`. */
  ghost predicate Named<K(!new), V>(slab: Slab<K, V>, index: map<K, nat>, m: map<K, V>, k: K)
    requires k in index && k in m
  {
    index[k] < |slab| && slab[index[k]] == Some(IpSlot(k, m[k]))
  }

  /** Occupied slot `i` is the one its key names. */
  ghost predicate Owned<K(!new), V>(slab: Slab<K, V>, index: map<K, nat>, i: nat)
    requires i < |slab|
  {
    slab[i].Some? ==> slab[i].value.ip in index && index[slab[i].value.ip] == i
  }

  /** Index and slab agree on every key, and hold exactly the pairs of `m`. */
  ghost predicate Holds<K(!new), V>(slab: Slab<K, V>, index: map<K, nat>, m: map<K, V>) {
    && m.Keys == index.Keys
    && (forall k {:trigger Named(slab, index, m, k)} :: k in index ==> Named(slab, index, m, k))
    && (forall i {:trigger Owned(slab, index, i)} :: 0 <= i < |slab| ==> Owned(slab, index, i))
  }

  /** The three structures together stand for `m`. */
  ghost predicate Stands<K(!new), V>(slab: Slab<K, V>, free: seq<nat>, index: map<K, nat>, m: map<K, V>) {
    Partition(slab, free) && Holds(slab, index, m) && |index| + |free| == |slab|
  }

  lemma HoldsAfterWrite<K(!new), V>(slab: Slab<K, V>, index: map<K, nat>, m: map<K, V>, k: K, v: V, i: nat)
    requires Holds(slab, index, m) && i < |slab|
    requires if k in index then index[k] == i else slab[i].None?
    ensures Holds(slab[i := Some(IpSlot(k, v))], index[k := i], m[k := v])
  {
    var slab', index', m' := slab[i := Some(IpSlot(k, v))], index[k := i], m[k := v];
    if k in index { assert Named(slab, index, m, k); }
    forall x | x in index'
      ensures Named(slab', index', m', x)
    {
      if x in index { assert Named(slab, index, m, x); }
    }
    forall j | 0 <= j < |slab'|
      ensures Owned(slab', index', j)
    {
      assert Owned(slab, index, j);
    }
  }

  lemma HoldsAfterErase<K(!new), V>(slab: Slab<K, V>, index: map<K, nat>, m: map<K, V>, k: K)
    requires Holds(slab, index, m) && k in index
    ensures index[k] < |slab| && Holds(slab[index[k] := None], index - {k}, m - {k})
  {
    assert Named(slab, index, m, k);
    var slab', index', m' := slab[index[k] := None], index - {k}, m - {k};
    forall x | x in index'
      ensures Named(slab', index', m', x)
    {
      assert Named(slab, index, m, x);
    }
    forall j | 0 <= j < |slab'|
      ensures Owned(slab', index', j)
    {
      assert Owned(slab, index, j);
    }
  }

  lemma ReplaceInPlace<K(!new), V>(slab: Slab<K, V>, free: seq<nat>, index: map<K, nat>, m: map<K, V>, k: K, v: V)
    requires Stands(slab, free, index, m) && k in index
    ensures index[k] < |slab| && Stands(slab[index[k] := Some(IpSlot(k, v))], free, index, m[k := v])
  {
    assert Named(slab, index, m, k);
    HoldsAfterWrite(slab, index, m, k, v, index[k]);
    assert index[k := index[k]] == index;
  }

  lemma TakeFree<K(!new), V>(slab: Slab<K, V>, free: seq<nat>, index: map<K, nat>, m: map<K, V>, k: K, v: V)
    requires Stands(slab, free, index, m) && k !in index && free != []
    ensures var i := free[|free| - 1];
      i < |slab| && Stands(slab[i := Some(IpSlot(k, v))], free[..|free| - 1], index[k := i], m[k := v])
  {
    var i := free[|free| - 1];
    var slab', free' := slab[i := Some(IpSlot(k, v))], free[..|free| - 1];
    assert i in free;
    forall j | 0 <= j < |slab'|
      ensures slab'[j].None? <==> j in free'
    {
      if j in free && j != i {
        var n :| 0 <= n < |free| && free[n] == j;
        assert free'[n] == j;
      }
    }
    HoldsAfterWrite(slab, index, m, k, v, i);
  }

  lemma GiveBack<K(!new), V>(slab: Slab<K, V>, free: seq<nat>, index: map<K, nat>, m: map<K, V>, k: K)
    requires Stands(slab, free, index, m) && k in index
    ensures index[k] < |slab| && slab[index[k]].Some?
    ensures Stands(slab[index[k] := None], free + [index[k]], index - {k}, m - {k})
  {
    HoldsAfterErase(slab, index, m, k);
    assert Named(slab, index, m, k);
    var slab', free' := slab[index[k] := None], free + [index[k]];
    forall j | 0 <= j < |slab'|
      ensures slab'[j].None? <==> j in free'
    {
      if j in free { assert j in free'; }
    }
    assert index.Keys == (index - {k}).Keys + {k};
  }

  lemma KeysSize<K, V, W>(a: map<K, V>, b: map<K, W>)
    requires a.Keys == b.Keys
    ensures |a| == |b|
  {}

  lemma MinusAbsent<K, V>(m: map<K, V>, k: K)
    requires k !in m
    ensures m - {k} == m
  {}

  /** In a sweep that began with `c`: `m` is left, and what is still to go is `pending`. */
  ghost predicate Sweeping<K(!new), V>(c: map<K, V>, stale: set<K>, m: map<K, V>, pending: seq<K>) {
    && (forall k :: k in pending ==> k in stale)
    && (forall k :: k in m ==> k in c && m[k] == c[k] && (k in stale ==> k in pending))
    && (forall k :: k in c && k !in stale ==> k in m)
  }

  lemma SweepStep<K(!new), V>(c: map<K, V>, stale: set<K>, m: map<K, V>, pending: seq<K>)
    requires Sweeping(c, stale, m, pending) && pending != []
    ensures Sweeping(c, stale, m - {pending[|pending| - 1]}, pending[..|pending| - 1])
  {
    var init, last := pending[..|pending| - 1], pending[|pending| - 1];
    assert pending == init + [last];
  }

  class Table<K(!new,==), V> {
    const slab: array<Option<IpSlot<K, V>>>
    const index: B.Index<K>
    const lastSeen: V -> int
    var freeList: seq<nat>
    var evictScratch: seq<K>
    ghost var contents: map<K, V>  // the map the table stands for

    ghost predicate Valid()
      reads this, slab, index, index.table
    {
      && (slab as object) != index.table
      && slab.Length < B.TOMBSTONE && 2 * slab.Length <= index.table.Length
      && index.Valid()
      && Stands(slab[..], freeList, index.contents, contents)
    }

    /** With the capacities the slot sentinels allow. */
    constructor (capacity: nat, hash: K -> u32, lastSeen: V -> int)
      requires capacity < B.TOMBSTONE
      ensures Valid() && fresh(slab) && fresh(index) && fresh(index.table)
      ensures slab.Length == capacity && contents == map[] && evictScratch == [] && this.lastSeen == lastSeen
    {
      slab := new Option<IpSlot<K, V>>[capacity](_ => None);
      index := new B.Index(hash, capacity);
      this.lastSeen := lastSeen;
      evictScratch := [];
      freeList := [];
      contents := map[];
      new;
      var i := capacity;
      while i > 0
        invariant 0 <= i <= capacity && |freeList| == capacity - i
        invariant forall j :: 0 <= j < |freeList| ==> freeList[j] == capacity - 1 - j
        invariant evictScratch == [] && index.Valid() && index.contents == map[]
        invariant forall j :: 0 <= j < capacity ==> slab[j].None?
        modifies `freeList
      {
        i := i - 1;
        freeList := freeList + [i];
      }
      forall j | 0 <= j < capacity
        ensures j in freeList
      {
        assert freeList[capacity - 1 - j] == j;
      }
    }

    method Len() returns (n: nat)
      requires Valid()
      ensures n == |contents|
    {
      n := index.occupied;
      KeysSize(contents, index.contents);
    }

    /** The state stored for an address. */
    method GetMut(ip: K) returns (r: Option<V>)
      requires Valid()
      ensures r == if ip in contents then Some(contents[ip]) else None
    {
      var i := index.Get(ip);
      if i.Some? {
        assert Named(slab[..], index.contents, contents, ip);
      }
      r := if i.Some? then Some(slab[i.value].value.state) else None;
    }

    /** Write a slot the index already names. */
    method Fill(i: nat, ip: K, state: V)
      requires i < slab.Length
      modifies slab
      ensures slab[..] == old(slab[..])[i := Some(IpSlot(ip, state))]
    {
      slab[i] := Some(IpSlot(ip, state));
    }

    /** Write a known address's state through the reference that a lookup returned. */
    method WriteThrough(ip: K, state: V)
      requires Valid() && ip in contents
      modifies this, slab
      ensures Valid() && contents == old(contents)[ip := state]
      ensures freeList == old(freeList) && evictScratch == old(evictScratch)
    {
      var i := index.Get(ip);
      ReplaceInPlace(slab[..], freeList, index.contents, contents, ip, state);
      Fill(i.value, ip, state);
      contents := contents[ip := state];
    }

    /** Empty a slot the index no longer names and return it to the free list. */
    method Release(i: nat) returns (state: V)
      requires i < slab.Length && slab[i].Some?
      modifies slab, `freeList
      ensures slab[..] == old(slab[..])[i := None] && freeList == old(freeList) + [i]
      ensures state == old(slab[i].value.state)
    {
      state := slab[i].value.state;
      slab[i] := None;
      freeList := freeList + [i];
    }

    /** Insert an address the table does not hold. */
    method InsertNew(ip: K, state: V) returns (ok: bool)
      requires Valid() && ip !in index.contents
      modifies this, slab, index, index.table
      ensures Valid() && evictScratch == old(evictScratch)
      ensures ok <==> old(freeList != [] && !B.Crowded(index.hash, index.table[..], ip))
      ensures contents == if ok then old(contents)[ip := state] else old(contents)
      ensures !ok ==> slab[..] == old(slab[..]) && freeList == old(freeList)
      ensures !ok && old(freeList) != [] ==> old(|index.contents|) >= B.Window(index.table.Length)
    {
      ghost var s, f := slab[..], freeList;
      if freeList == [] {
        return false;
      }
      TakeFree(s, f, index.contents, contents, ip, state);
      var i := freeList[|freeList| - 1];
      freeList := freeList[..|freeList| - 1];
      ok := index.Insert(ip, i);
      if ok {
        Fill(i, ip, state);
        contents := contents[ip := state];
      } else {
        freeList := freeList + [i];
        assert freeList == f && slab[..] == s;
      }
    }

    /** Insert or replace in place.  Refused exactly when the address is new and the slab is
        full or the index window crowded; a refusal leaves slab and free list as they were.
        Tables of up to 64 entries are refused only when full. */
    method Insert(ip: K, state: V) returns (ok: bool)
      requires Valid()
      modifies this, slab, index, index.table
      ensures Valid() && evictScratch == old(evictScratch)
      ensures ok <==> old(ip in contents ||
        (|contents| < slab.Length && !B.Crowded(index.hash, index.table[..], ip)))
      ensures contents == if ok then old(contents)[ip := state] else old(contents)
      ensures !ok ==> slab[..] == old(slab[..]) && freeList == old(freeList)
      ensures ip in old(contents) ==> freeList == old(freeList)
      ensures slab.Length <= 64 ==> (ok <==> old(ip in contents || |contents| < slab.Length))
    {
      KeysSize(contents, index.contents);
      var found := index.Get(ip);
      if found.Some? {
        ReplaceInPlace(slab[..], freeList, index.contents, contents, ip, state);
        Fill(found.value, ip, state);
        contents := contents[ip := state];
        ok := true;
      } else {
        ok := InsertNew(ip, state);
      }
    }

    /** Forget an address and free its slot. */
    method Remove(ip: K) returns (r: Option<V>)
      requires Valid()
      modifies this, slab, index, index.table
      ensures Valid() && evictScratch == old(evictScratch)
      ensures contents == old(contents) - {ip}
      ensures r == if ip in old(contents) then Some(old(contents)[ip]) else None
    {
      ghost var s, f, m := slab[..], freeList, index.contents;
      var i := index.Remove(ip);
      if i.None? {
        MinusAbsent(m, ip);
        MinusAbsent(contents, ip);
        r := None;
      } else {
        GiveBack(s, f, m, contents, ip);
        assert Named(s, m, contents, ip);
        var state := Release(i.value);
        contents := contents - {ip};
        r := Some(state);
      }
    }

    /** The code's test, which saturates. */
    predicate IsStale(state: V, now: int, ttl: nat) {
      SaturatingSub(now, lastSeen(state)) >= ttl
    }

    /** Seen within the last `ttl`. */
    predicate Lives(state: V, now: int, ttl: nat) { ttl > 0 && now - lastSeen(state) < ttl }

    /** Collect the stale addresses in slab order; at most one per slot. */
    method Scan(now: int, ttl: nat)
      requires Valid()
      modifies `evictScratch
      ensures Valid() && |evictScratch| <= slab.Length
      ensures forall k :: k in evictScratch <==> k in contents && !Lives(contents[k], now, ttl)
    {
      evictScratch := [];
      for i := 0 to slab.Length
        invariant |evictScratch| <= i && Valid()
        invariant forall k :: k in evictScratch <==> k in contents && index.contents[k] < i && !Lives(contents[k], now, ttl)
      {
        assert Owned(slab[..], index.contents, i);
        if slab[i].Some? {
          assert Named(slab[..], index.contents, contents, slab[i].value.ip);
          if IsStale(slab[i].value.state, now, ttl) {
            evictScratch := evictScratch + [slab[i].value.ip];
          }
        }
        forall k | k in contents && index.contents[k] == i
          ensures slab[i] == Some(IpSlot(k, contents[k]))
        {
          assert Named(slab[..], index.contents, contents, k);
        }
      }
      forall k | k in contents
        ensures index.contents[k] < slab.Length
      {
        assert Named(slab[..], index.contents, contents, k);
      }
    }

    /** Keep exactly the entries seen within the last `ttl`, as they are, and drop the others. */
    method EvictOlderThan(now: int, ttl: nat)
      requires Valid()
      modifies this, slab, index, index.table
      ensures Valid() && evictScratch == []
      ensures contents == map k | k in old(contents) && ttl > 0 && now - lastSeen(old(contents)[k]) < ttl :: old(contents)[k]
    {
      ghost var c := contents;
      Scan(now, ttl);
      Sweep(c, (set k | k in c && !Lives(c[k], now, ttl)));
    }

    /** Remove the collected addresses, last first. */
    method Sweep(ghost c: map<K, V>, ghost stale: set<K>)
      requires Valid() && |evictScratch| <= slab.Length && Sweeping(c, stale, contents, evictScratch)
      modifies this, slab, index, index.table
      ensures Valid() && evictScratch == []
      ensures contents == map k | k in c && k !in stale :: c[k]
    {
      while evictScratch != []
        invariant Valid() && |evictScratch| <= slab.Length
        invariant Sweeping(c, stale, contents, evictScratch)
        decreases |evictScratch|
      {
        var ip := evictScratch[|evictScratch| - 1];
        ghost var left, pending := contents - {ip}, evictScratch[..|evictScratch| - 1];
        SweepStep(c, stale, contents, evictScratch);
        evictScratch := evictScratch[..|evictScratch| - 1];
        var _ := Remove(ip);
        assert contents == left && evictScratch == pending;
      }
    }

    /** The address seen longest ago, if there is any. */
    method OldestIp() returns (r: Option<K>)
      requires Valid()
      ensures r.None? <==> contents == map[]
      ensures r.Some? ==> r.value in contents && forall k :: k in contents ==>
        lastSeen(contents[r.value]) <= lastSeen(contents[k])
    {
      r := None;
      var best := 0;
      for i := 0 to slab.Length
        invariant r.None? ==> forall j :: 0 <= j < i ==> slab[j].None?
        invariant r.Some? ==> r.value in contents && best == lastSeen(contents[r.value])
        invariant r.Some? ==> forall j :: 0 <= j < i && slab[j].Some? ==> best <= lastSeen(slab[j].value.state)
      {
        if slab[i].Some? {
          assert Owned(slab[..], index.contents, i);
          assert Named(slab[..], index.contents, contents, slab[i].value.ip);
          var seen := lastSeen(slab[i].value.state);
          if r.None? || seen < best {
            r, best := Some(slab[i].value.ip), seen;
          }
        }
      }
      forall k | k in contents
        ensures r.Some? && lastSeen(contents[r.value]) <= lastSeen(contents[k])
      {
        assert Named(slab[..], index.contents, contents, k);
        assert slab[index.contents[k]].Some?;
      }
    }
  }
}
