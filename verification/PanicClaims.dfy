/** Concurrent claims of terminal timestamps and panic counters: any number of threads
    race on one high-water mark with compare-and-swap loops.  Each atomic operation is
    one step; a run interleaves them in any order. */
module PanicClaims {
  import opened Words

  /** The largest timestamp a terminal frame may carry. */
  const LIMIT: u64 := U64_MAX - 1

  /** The Rust loop uses a weak compare-and-swap, which may fail spuriously, and learns
      the current value from a failure; the Go loop uses a strong one and loads again. */
  datatype Flavour = Rust | Go

  /** A claim in progress.  `started` and `seen` count the grants made before the claim
      began and before its last load; `lost` counts its failed swaps, spurious ones apart. */
  datatype Claim = Claim(raw: u64, previous: u64, started: nat, seen: nat, lost: nat, reload: bool)

  datatype Grant = Grant(thread: nat, raw: u64, value: u64)

  /** A refused claim, with the value it had loaded and the grants made before it. */
  datatype Refusal = Refusal(raw: u64, previous: u64, at: nat)

  datatype State = State(highWater: u64, active: map<nat, Claim>, grants: seq<Grant>, refusals: seq<Refusal>)

  const INIT: State := State(0, map[], [], [])

  datatype Step =
    | Start(thread: nat, raw: u64)
    | Attempt(thread: nat, spurious: bool)
    | Reload(thread: nat)

  /** The Rust claim clamps its clock reading; the Go claim does not. */
  function Clamp(f: Flavour, raw: u64): u64 { if f == Rust then Min(raw, LIMIT) else raw }

  function Candidate(c: Claim): u64
    requires c.previous < LIMIT
  {
    Max(c.raw, c.previous + 1)
  }

  predicate Refuses(f: Flavour, c: Claim) {
    c.previous >= LIMIT || (f == Go && Candidate(c) == U64_MAX)
  }

  predicate Swaps(f: Flavour, s: State, c: Claim, spurious: bool) {
    s.highWater == c.previous && !(f == Rust && spurious)
  }

  predicate Enabled(s: State, t: Step) {
    match t
    case Start(thread, _) => thread !in s.active
    case Attempt(thread, _) => thread in s.active && !s.active[thread].reload
    case Reload(thread) => thread in s.active && s.active[thread].reload
  }

  function After(f: Flavour, s: State, t: Step): State
    requires Enabled(s, t)
  {
    match t
    case Start(thread, raw) =>
      s.(active := s.active[thread := Claim(Clamp(f, raw), s.highWater, |s.grants|, |s.grants|, 0, false)])
    case Reload(thread) =>
      s.(active := s.active[thread := s.active[thread].(previous := s.highWater, seen := |s.grants|, reload := false)])
    case Attempt(thread, spurious) =>
      var c := s.active[thread];
      if Refuses(f, c) then
        s.(active := s.active - {thread}, refusals := s.refusals + [Refusal(c.raw, c.previous, |s.grants|)])
      else if Swaps(f, s, c, spurious) then
        s.(highWater := Candidate(c), active := s.active - {thread},
           grants := s.grants + [Grant(thread, c.raw, Candidate(c))])
      else
        var lost := if s.highWater == c.previous then c.lost else c.lost + 1;
        if f == Rust then s.(active := s.active[thread := c.(previous := s.highWater, seen := |s.grants|, lost := lost)])
        else s.(active := s.active[thread := c.(lost := lost, reload := true)])
  }

  predicate IsRun(f: Flavour, s: State, steps: seq<Step>)
    decreases |steps|
  {
    steps == [] || (Enabled(s, steps[0]) && IsRun(f, After(f, s, steps[0]), steps[1..]))
  }

  function Final(f: Flavour, s: State, steps: seq<Step>): State
    requires IsRun(f, s, steps)
    decreases |steps|
  {
    if steps == [] then s else Final(f, After(f, s, steps[0]), steps[1..])
  }

  // ---- what every interleaving keeps --------------------------------------

  /** The high-water mark after the first `n` grants. */
  function Mark(grants: seq<Grant>, n: nat): u64
    requires n <= |grants|
  {
    if n == 0 then 0 else grants[n - 1].value
  }

  /** The grants, in swap order, are a sequential execution: each is the larger of its
      own reading and one more than the grant before it. */
  predicate Sequential(grants: seq<Grant>) {
    forall k :: 0 <= k < |grants| ==> Follows(grants, k)
  }

  predicate Follows(grants: seq<Grant>, k: nat)
    requires k < |grants|
  {
    && Mark(grants, k) < LIMIT
    && grants[k].value == Max(grants[k].raw, Mark(grants, k) + 1)
    && grants[k].value <= LIMIT
  }

  predicate ClaimInv(s: State, thread: nat, c: Claim) {
    && c.started <= c.seen <= |s.grants|
    && c.previous == Mark(s.grants, c.seen)
    && c.lost <= (if c.reload then |s.grants| else c.seen) - c.started
    && forall k :: c.started <= k < |s.grants| ==> s.grants[k].thread != thread
  }

  predicate RefusalInv(f: Flavour, s: State, r: Refusal) {
    if r.previous >= LIMIT then r.at == |s.grants| && s.highWater >= LIMIT
    else f == Go && r.raw == U64_MAX
  }

  predicate Inv(f: Flavour, s: State) {
    && s.highWater == Mark(s.grants, |s.grants|)
    && Sequential(s.grants)
    && (forall t :: t in s.active ==> ClaimInv(s, t, s.active[t]) && (f == Rust ==> s.active[t].raw <= LIMIT))
    && (forall k :: 0 <= k < |s.refusals| ==> RefusalInv(f, s, s.refusals[k]))
  }

  /** Marks strictly increase, so a mark identifies how many grants came before it. */
  lemma {:induction false} MarksRise(grants: seq<Grant>, i: nat, j: nat)
    requires Sequential(grants) && i <= j <= |grants|
    ensures Mark(grants, i) + (j - i) <= Mark(grants, j)
    decreases j
  {
    if i < j {
      MarksRise(grants, i, j - 1);
      assert Follows(grants, j - 1);
    }
  }

  lemma GrantsRise(grants: seq<Grant>, i: nat, j: nat)
    requires Sequential(grants) && i < j < |grants|
    ensures grants[i].value < grants[j].value
  {
    MarksRise(grants, i + 1, j + 1);
    assert Mark(grants, i + 1) == grants[i].value && Mark(grants, j + 1) == grants[j].value;
  }

  lemma GrantKeepsInv(f: Flavour, s: State, thread: nat, spurious: bool)
    requires Inv(f, s) && Enabled(s, Attempt(thread, spurious))
    requires !Refuses(f, s.active[thread]) && Swaps(f, s, s.active[thread], spurious)
    ensures Inv(f, After(f, s, Attempt(thread, spurious)))
  {
    var s', c := After(f, s, Attempt(thread, spurious)), s.active[thread];
    SequentialExtends(s.grants, s'.grants[|s.grants|]);
    forall t | t in s'.active
      ensures ClaimInv(s', t, s'.active[t])
    {
      assert ClaimInv(s, t, s.active[t]);
      SamePrefix(s.grants, s'.grants[|s.grants|], s.active[t].seen);
    }
    forall k | 0 <= k < |s'.refusals|
      ensures RefusalInv(f, s', s'.refusals[k])
    {
      assert RefusalInv(f, s, s.refusals[k]);
    }
  }

  lemma SamePrefix(grants: seq<Grant>, g: Grant, n: nat)
    requires n <= |grants|
    ensures Mark(grants + [g], n) == Mark(grants, n)
  {}

  lemma SequentialExtends(grants: seq<Grant>, g: Grant)
    requires Sequential(grants) && Mark(grants, |grants|) < LIMIT
    requires g.value == Max(g.raw, Mark(grants, |grants|) + 1) && g.value <= LIMIT
    ensures Sequential(grants + [g]) && Mark(grants + [g], |grants| + 1) == g.value
  {
    var all := grants + [g];
    forall k | 0 <= k < |all|
      ensures Follows(all, k)
    {
      SamePrefix(grants, g, k);
      if k < |grants| { assert Follows(grants, k); }
    }
  }

  lemma FailKeepsInv(f: Flavour, s: State, thread: nat, spurious: bool)
    requires Inv(f, s) && Enabled(s, Attempt(thread, spurious))
    requires !Refuses(f, s.active[thread]) && !Swaps(f, s, s.active[thread], spurious)
    ensures Inv(f, After(f, s, Attempt(thread, spurious)))
  {
    var s', c := After(f, s, Attempt(thread, spurious)), s.active[thread];
    assert ClaimInv(s, thread, c);
    if s.highWater != c.previous {
      assert c.seen < |s.grants|;
    }
    forall t | t in s'.active
      ensures ClaimInv(s', t, s'.active[t])
    {
      if t != thread { assert ClaimInv(s, t, s.active[t]); }
    }
  }

  lemma RefuseKeepsInv(f: Flavour, s: State, thread: nat, spurious: bool)
    requires Inv(f, s) && Enabled(s, Attempt(thread, spurious)) && Refuses(f, s.active[thread])
    ensures Inv(f, After(f, s, Attempt(thread, spurious)))
  {
    var s', c := After(f, s, Attempt(thread, spurious)), s.active[thread];
    assert ClaimInv(s, thread, c);
    MarksRise(s.grants, c.seen, |s.grants|);
    if c.previous >= LIMIT {
      assert s.highWater >= LIMIT;
    }
    forall t | t in s'.active
      ensures ClaimInv(s', t, s'.active[t])
    {
      assert ClaimInv(s, t, s.active[t]);
    }
  }

  lemma AfterKeepsInv(f: Flavour, s: State, t: Step)
    requires Inv(f, s) && Enabled(s, t)
    ensures Inv(f, After(f, s, t))
  {
    match t
    case Attempt(thread, spurious) =>
      if Refuses(f, s.active[thread]) {
        RefuseKeepsInv(f, s, thread, spurious);
      } else if Swaps(f, s, s.active[thread], spurious) {
        GrantKeepsInv(f, s, thread, spurious);
      } else {
        FailKeepsInv(f, s, thread, spurious);
      }
    case Start(thread, raw) => LoadKeepsInv(f, s, t, thread);
    case Reload(thread) => LoadKeepsInv(f, s, t, thread);
  }

  lemma LoadKeepsInv(f: Flavour, s: State, t: Step, thread: nat)
    requires Inv(f, s) && Enabled(s, t) && !t.Attempt? && t.thread == thread
    ensures Inv(f, After(f, s, t))
  {
    var s' := After(f, s, t);
    forall u | u in s'.active
      ensures ClaimInv(s', u, s'.active[u])
    {
      if u in s.active { assert ClaimInv(s, u, s.active[u]); }
    }
  }

  lemma {:induction false} RunKeepsInv(f: Flavour, s: State, steps: seq<Step>)
    requires Inv(f, s) && IsRun(f, s, steps)
    ensures Inv(f, Final(f, s, steps))
    decreases |steps|
  {
    if steps != [] {
      AfterKeepsInv(f, s, steps[0]);
      RunKeepsInv(f, After(f, s, steps[0]), steps[1..]);
    }
  }

  /** Over all interleavings the granted timestamps equal a sequential execution in swap
      order; so they strictly increase, lie in 1..2^64-2, and are at least the clamped
      reading of their claim. */
  lemma EveryInterleaving(f: Flavour, steps: seq<Step>)
    requires IsRun(f, INIT, steps)
    ensures var g := Final(f, INIT, steps).grants;
      && Sequential(g)
      && (forall i, j :: 0 <= i < j < |g| ==> g[i].value < g[j].value)
      && (forall k :: 0 <= k < |g| ==> 1 <= g[k].value <= LIMIT && g[k].raw <= g[k].value)
      && |g| <= LIMIT
  {
    RunKeepsInv(f, INIT, steps);
    var g := Final(f, INIT, steps).grants;
    forall i, j | 0 <= i < j < |g|
      ensures g[i].value < g[j].value
    {
      GrantsRise(g, i, j);
    }
    forall k | 0 <= k < |g|
      ensures 1 <= g[k].value <= LIMIT && g[k].raw <= g[k].value
    {
      assert Follows(g, k);
    }
    MarksRise(g, 0, |g|);
  }

  // ---- grants and the readings callers passed ------------------------------

  /** The reading of the thread's last claim in `steps`. */
  function LastReading(steps: seq<Step>, thread: nat): u64
    decreases |steps|
  {
    if steps == [] then 0
    else
      var last := steps[|steps| - 1];
      if last.Start? && last.thread == thread then last.raw else LastReading(steps[..|steps| - 1], thread)
  }

  /** Every claim in progress works with its caller's reading, which the Rust flavour cuts to
      2^64 - 2. */
  predicate ReadsOf(f: Flavour, s: State, steps: seq<Step>) {
    forall t :: t in s.active ==>
      s.active[t].raw == if f == Rust && LastReading(steps, t) == U64_MAX then U64_MAX - 1 else LastReading(steps, t)
  }

  lemma {:induction false} RunLast(f: Flavour, s: State, steps: seq<Step>, t: Step)
    requires IsRun(f, s, steps + [t])
    ensures IsRun(f, s, steps) && Enabled(Final(f, s, steps), t)
    ensures Final(f, s, steps + [t]) == After(f, Final(f, s, steps), t)
    decreases |steps|
  {
    if steps == [] {
      assert [] + [t] == [t] && [t][1..] == [];
    } else {
      assert (steps + [t])[1..] == steps[1..] + [t];
      RunLast(f, After(f, s, steps[0]), steps[1..], t);
    }
  }

  lemma {:induction false} RunReads(f: Flavour, steps: seq<Step>)
    requires IsRun(f, INIT, steps)
    ensures ReadsOf(f, Final(f, INIT, steps), steps)
    decreases |steps|
  {
    if steps != [] {
      var before, t := steps[..|steps| - 1], steps[|steps| - 1];
      assert steps == before + [t];
      RunLast(f, INIT, before, t);
      RunReads(f, before);
    }
  }

  /** What an attempt does, by the mark it last loaded, the mark there is, and the reading its
      caller passed.  Over all interleavings: a granted timestamp is the larger of the reading,
      in the Rust flavour cut to 2^64 - 2, and one more than the mark before it. */
  lemma AttemptGrants(f: Flavour, steps: seq<Step>, thread: nat, spurious: bool)
    requires IsRun(f, INIT, steps + [Attempt(thread, spurious)])
    ensures IsRun(f, INIT, steps) && thread in Final(f, INIT, steps).active
    ensures var s, s' := Final(f, INIT, steps), Final(f, INIT, steps + [Attempt(thread, spurious)]);
      thread in s'.active <==> |s'.grants| == |s.grants| && |s'.refusals| == |s.refusals|
    ensures var s, s' := Final(f, INIT, steps), Final(f, INIT, steps + [Attempt(thread, spurious)]);
      var raw, mark, loaded := LastReading(steps, thread), s.highWater, s.active[thread].previous;
      if loaded > U64_MAX - 2 || (f == Go && raw == U64_MAX)
      then s'.grants == s.grants && s'.highWater == mark && |s'.refusals| == |s.refusals| + 1
      else if mark != loaded || (f == Rust && spurious)
      then s'.grants == s.grants && s'.highWater == mark && s'.refusals == s.refusals
      else
        && |s'.grants| == |s.grants| + 1 && s'.grants[..|s.grants|] == s.grants && s'.refusals == s.refusals
        && s'.grants[|s.grants|].thread == thread && s'.highWater == s'.grants[|s.grants|].value
        && s'.highWater == (if raw <= mark then mark + 1 else if f == Rust && raw == U64_MAX then U64_MAX - 1 else raw)
  {
    RunLast(f, INIT, steps, Attempt(thread, spurious));
    RunReads(f, steps);
  }

  /** With an honest strong swap, failures are paid for by others: a claim has lost at
      most as many swaps as other threads were granted since it began, and the swap of a
      claim succeeds unless some other thread was granted since its last load. */
  lemma LockFree(f: Flavour, s: State, thread: nat)
    requires Inv(f, s) && thread in s.active
    ensures var c := s.active[thread];
      && c.lost <= |s.grants| - c.started
      && (forall k :: c.started <= k < |s.grants| ==> s.grants[k].thread != thread)
      && (s.highWater == c.previous <==> c.seen == |s.grants|)
  {
    var c := s.active[thread];
    assert ClaimInv(s, thread, c);
    MarksRise(s.grants, c.seen, |s.grants|);
  }

  /** Every grant uses up some of the finite range, so retries cannot go on for ever. */
  lemma GrantsConsume(f: Flavour, s: State, t: Step)
    requires Inv(f, s) && Enabled(s, t)
    ensures s.highWater <= After(f, s, t).highWater <= LIMIT
    ensures |After(f, s, t).grants| > |s.grants| ==> LIMIT - After(f, s, t).highWater < LIMIT - s.highWater
  {
    AfterKeepsInv(f, s, t);
    if |s.grants| > 0 { assert Follows(s.grants, |s.grants| - 1); }
    var g := After(f, s, t).grants;
    if |g| > 0 { assert Follows(g, |g| - 1); }
  }

  // ---- exhaustion ---------------------------------------------------------

  lemma {:induction false} GrantsGrow(f: Flavour, s: State, steps: seq<Step>)
    requires IsRun(f, s, steps)
    ensures |s.grants| <= |Final(f, s, steps).grants| && |s.refusals| <= |Final(f, s, steps).refusals|
    ensures forall k :: 0 <= k < |s.refusals| ==> Final(f, s, steps).refusals[k] == s.refusals[k]
    decreases |steps|
  {
    if steps != [] {
      GrantsGrow(f, After(f, s, steps[0]), steps[1..]);
    }
  }

  /** A refused claim is final, no grant ever follows it, unless it is a Go claim with the
      reading 2^64 - 1 that met a mark below the limit. */
  lemma RefusalIsFinal(f: Flavour, s: State, steps: seq<Step>, k: nat)
    requires Inv(f, s) && IsRun(f, s, steps) && k < |s.refusals|
    requires !(f == Go && s.refusals[k].raw == U64_MAX && s.refusals[k].previous < LIMIT)
    ensures |Final(f, s, steps).grants| == s.refusals[k].at == |s.grants|
  {
    RunKeepsInv(f, s, steps);
    GrantsGrow(f, s, steps);
    var r := Final(f, s, steps).refusals[k];
    assert r == s.refusals[k];
    assert r.at == |Final(f, s, steps).grants|;
  }

  /** No claim starts from a clock reading above `max`. */
  predicate Readings(steps: seq<Step>, max: u64) {
    forall i :: 0 <= i < |steps| && steps[i].Start? ==> steps[i].raw <= max
  }

  predicate WithinReadings(s: State, max: u64) {
    && (forall t :: t in s.active ==> s.active[t].raw <= max)
    && (forall k :: 0 <= k < |s.refusals| ==> s.refusals[k].raw <= max)
  }

  lemma {:induction false} RunKeepsReadings(f: Flavour, s: State, steps: seq<Step>, max: u64)
    requires IsRun(f, s, steps) && Readings(steps, max) && WithinReadings(s, max)
    ensures WithinReadings(Final(f, s, steps), max)
    decreases |steps|
  {
    if steps != [] {
      RunKeepsReadings(f, After(f, s, steps[0]), steps[1..], max);
    }
  }

  /** The largest reading the Go caller can pass: it converts a signed 64-bit duration. */
  const INT64_MAX: u64 := 0x7FFF_FFFF_FFFF_FFFF

  /** As the program is, every refusal is final in both flavours: with readings a signed
      64-bit duration can give, no grant ever follows one. */
  lemma CallersRefusalIsFinal(f: Flavour, steps: seq<Step>, more: seq<Step>, k: nat)
    requires IsRun(f, INIT, steps) && (f == Go ==> Readings(steps, INT64_MAX))
    requires k < |Final(f, INIT, steps).refusals| && IsRun(f, Final(f, INIT, steps), more)
    ensures var s := Final(f, INIT, steps); |Final(f, s, more).grants| == s.refusals[k].at == |s.grants|
  {
    RunKeepsInv(f, INIT, steps);
    if f == Go {
      RunKeepsReadings(f, INIT, steps, INT64_MAX);
    }
    RefusalIsFinal(f, Final(f, INIT, steps), more, k);
  }

  lemma {:induction false} FreshThread(threads: set<nat>) returns (t: nat)
    ensures forall u :: u in threads ==> u < t
    decreases |threads|
  {
    if threads == {} {
      t := 0;
    } else {
      var u :| u in threads;
      var v := FreshThread(threads - {u});
      t := if u < v then v else u + 1;
      forall w | w in threads
        ensures w < t
      {
        if w != u { assert w in threads - {u}; }
      }
    }
  }

  /** Below the limit no refusal is final: some continuation grants again. */
  lemma BelowLimitGrants(f: Flavour, s: State) returns (steps: seq<Step>)
    requires Inv(f, s) && s.highWater < LIMIT
    ensures IsRun(f, s, steps) && |Final(f, s, steps).grants| == |s.grants| + 1
  {
    var t := FreshThread(s.active.Keys);
    var s1 := After(f, s, Start(t, 0));
    assert s1.active[t].previous == s.highWater && Swaps(f, s1, s1.active[t], false);
    assert |After(f, s1, Attempt(t, false)).grants| == |s.grants| + 1;
    var s2 := After(f, s1, Attempt(t, false));
    assert IsRun(f, s2, []) && Final(f, s2, []) == s2;
    Prepend(f, s1, Attempt(t, false), []);
    Prepend(f, s, Start(t, 0), [Attempt(t, false)] + []);
    steps := [Start(t, 0)] + ([Attempt(t, false)] + []);
  }

  /** The exception happens: a Go claim with reading 2^64 - 1 is refused on a fresh mark,
      and the next claim is granted. */
  lemma GoRefusalNotFinal() returns (steps: seq<Step>)
    ensures IsRun(Go, INIT, steps)
    ensures var s := Final(Go, INIT, steps); |s.refusals| == 1 && s.refusals[0].at == 0 && |s.grants| == 1
  {
    var a, b, c, d := Start(0, U64_MAX), Attempt(0, false), Start(1, 5), Attempt(1, false);
    var s1 := After(Go, INIT, a);
    var s2 := After(Go, s1, b);
    var s3 := After(Go, s2, c);
    var s4 := After(Go, s3, d);
    Prepend(Go, s3, d, []);
    Prepend(Go, s2, c, [d]);
    Prepend(Go, s1, b, [c, d]);
    Prepend(Go, INIT, a, [b, c, d]);
    assert [d] + [] == [d] && [c] + [d] == [c, d] && [b] + [c, d] == [b, c, d] && [a] + [b, c, d] == [a, b, c, d];
    steps := [a, b, c, d];
  }

  lemma Prepend(f: Flavour, s: State, t: Step, rest: seq<Step>)
    requires Enabled(s, t) && IsRun(f, After(f, s, t), rest)
    ensures IsRun(f, s, [t] + rest) && Final(f, s, [t] + rest) == Final(f, After(f, s, t), rest)
  {}
}
