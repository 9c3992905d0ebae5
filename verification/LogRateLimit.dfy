/** The per-kind cooldown of diagnostic logging. */
module LogRateLimit {
  import opened Wrappers
  import opened Words

  const COOLDOWN_NS: u64 := 1_000_000_000
  const KINDS := 6

  /** `lastEmit` zero means the kind has never been emitted. */
  datatype Bucket = Bucket(lastEmit: u64, queued: u64, total: u64)

  const FRESH: Bucket := Bucket(0, 0, 0)

  predicate Emits(b: Bucket, now: u64) {
    b.lastEmit == 0 || SaturatingSub(now, b.lastEmit) >= COOLDOWN_NS
  }

  /** The bucket after one call, and the number of drops the call reports if it emits. */
  function Call(b: Bucket, now: u64): (Bucket, Option<u64>) {
    if Emits(b, now) then (b.(lastEmit := now, queued := 0), Some(b.queued))
    else (b.(queued := SaturatingInc(b.queued, U64_MAX), total := SaturatingInc(b.total, U64_MAX)), None)
  }

  // ---- runs of one kind ---------------------------------------------------

  /** A call made at `now` and its answer. */
  datatype Answer = Answer(now: u64, reported: Option<u64>)

  function Bucketed(b: Bucket, times: seq<u64>): Bucket
    decreases |times|
  {
    if times == [] then b else Call(Bucketed(b, times[..|times| - 1]), times[|times| - 1]).0
  }

  function Answers(b: Bucket, times: seq<u64>): (a: seq<Answer>)
    ensures |a| == |times|
    decreases |times|
  {
    if times == [] then []
    else
      var before, now := times[..|times| - 1], times[|times| - 1];
      Answers(b, before) + [Answer(now, Call(Bucketed(b, before), now).1)]
  }

  function Emissions(a: seq<Answer>): nat
    decreases |a|
  {
    if a == [] then 0 else Emissions(a[..|a| - 1]) + if a[|a| - 1].reported.Some? then 1 else 0
  }

  function Suppressed(a: seq<Answer>): nat
    decreases |a|
  {
    if a == [] then 0 else Suppressed(a[..|a| - 1]) + if a[|a| - 1].reported.Some? then 0 else 1
  }

  /** The sum of the drops that emissions reported. */
  function Reported(a: seq<Answer>): nat
    decreases |a|
  {
    if a == [] then 0
    else Reported(a[..|a| - 1]) + if a[|a| - 1].reported.Some? then a[|a| - 1].reported.value else 0
  }

  /** Every call is emitted or counted as suppressed; the running total saturates; and
      until it does, each suppressed call is reported once or still queued. */
  lemma {:induction false} Accounting(times: seq<u64>)
    ensures var b, a := Bucketed(FRESH, times), Answers(FRESH, times);
      && |times| == Emissions(a) + Suppressed(a)
      && b.total == Min(Suppressed(a), U64_MAX)
      && Reported(a) + b.queued <= Suppressed(a)
      && (Suppressed(a) <= U64_MAX ==> Reported(a) + b.queued == Suppressed(a))
    decreases |times|
  {
    if times != [] {
      Accounting(times[..|times| - 1]);
      var a := Answers(FRESH, times);
      assert a[..|a| - 1] == Answers(FRESH, times[..|times| - 1]);
    }
  }

  /** The last emission before the end of a run is what the bucket remembers. */
  predicate LastEmission(a: seq<Answer>, i: nat, lastEmit: u64) {
    i < |a| && a[i].reported.Some? && a[i].now == lastEmit && forall k :: i < k < |a| ==> a[k].reported.None?
  }

  lemma {:induction false} RemembersLast(times: seq<u64>) returns (i: nat)
    ensures var b, a := Bucketed(FRESH, times), Answers(FRESH, times);
      if b.lastEmit == 0
      then forall k :: 0 <= k < |a| && a[k].reported.Some? ==> a[k].now == 0
      else LastEmission(a, i, b.lastEmit)
    decreases |times|
  {
    i := 0;
    if times != [] {
      var before := times[..|times| - 1];
      i := RemembersLast(before);
      var a := Answers(FRESH, times);
      assert a[..|a| - 1] == Answers(FRESH, before);
      assert forall k :: 0 <= k < |a| - 1 ==> a[k] == Answers(FRESH, before)[k];
      if Emits(Bucketed(FRESH, before), times[|times| - 1]) {
        i := |times| - 1;
      }
    }
  }

  /** For arbitrary clock inputs: after an emission at a nonzero time every later emission
      of the kind is at least one second later, so emission times then strictly rise. */
  lemma {:induction false} Spacing(times: seq<u64>, i: nat, j: nat)
    requires i < j < |times|
    requires var a := Answers(FRESH, times); a[i].reported.Some? && a[j].reported.Some? && a[i].now != 0
    ensures times[j] >= (times[i] as int) + 1_000_000_000
    decreases j
  {
    var before := times[..j];
    AnswersPrefix(times, j);
    AnswersPrefix(times, j + 1);
    assert times[..j + 1][..j] == before;
    var a, b := Answers(FRESH, before), Bucketed(FRESH, before);
    assert a[i] == Answers(FRESH, times)[i];
    assert Emits(b, times[j]);
    var k := RemembersLast(before);
    AnswerTimes(times);
    AnswerTimes(before);
    if k != i {
      Spacing(before, i, k);
    }
  }

  lemma {:induction false} AnswersPrefix(times: seq<u64>, n: nat)
    requires n <= |times|
    ensures Answers(FRESH, times)[..n] == Answers(FRESH, times[..n])
    decreases |times|
  {
    if n < |times| {
      var before := times[..|times| - 1];
      AnswersPrefix(before, n);
      assert before[..n] == times[..n];
      assert Answers(FRESH, times)[..n] == Answers(FRESH, before)[..n];
    } else {
      assert times[..n] == times;
    }
  }

  lemma {:induction false} AnswerTimes(times: seq<u64>)
    ensures forall k :: 0 <= k < |times| ==> Answers(FRESH, times)[k].now == times[k]
    decreases |times|
  {
    if times != [] {
      AnswerTimes(times[..|times| - 1]);
    }
  }

  /** Exactly when a call emits: every earlier emission of the kind, but for those at time
      zero, lies at least a second back. */
  lemma EmitsIff(times: seq<u64>, now: u64)
    ensures var a := Answers(FRESH, times);
      Answers(FRESH, times + [now])[|times|].reported.Some? <==>
        forall k :: 0 <= k < |a| && a[k].reported.Some? && a[k].now != 0 ==> now >= a[k].now + 1_000_000_000
  {
    var b, a := Bucketed(FRESH, times), Answers(FRESH, times);
    assert (times + [now])[..|times|] == times;
    var i := RemembersLast(times);
    AnswerTimes(times);
    if Emits(b, now) && b.lastEmit != 0 {
      forall k | 0 <= k < |a| && a[k].reported.Some? && a[k].now != 0
        ensures now >= a[k].now + 1_000_000_000
      {
        if k < i {
          Spacing(times, k, i);
        }
      }
    }
  }

  /** Any two emissions of a run are at least a second apart. */
  predicate AllSpaced(times: seq<u64>) {
    var a := Answers(FRESH, times);
    forall i, j :: 0 <= i < j < |a| && a[i].reported.Some? && a[j].reported.Some? ==>
      a[j].now >= a[i].now + 1_000_000_000
  }

  lemma FirstEmits(now: u64)
    ensures Answers(FRESH, [now]) == [Answer(now, Some(0))] && Bucketed(FRESH, [now]) == Bucket(now, 0, 0)
  {
    var none: seq<u64> := [];
    assert [now][..0] == none && Answers(FRESH, none) == [] && Bucketed(FRESH, none) == FRESH;
  }

  lemma SecondEmits(now: u64)
    ensures Answers(FRESH, [0, now])[1].reported.Some?
  {
    FirstEmits(0);
    assert [0, now][..1] == [0];
  }

  /** The first call emits, and after a call at time zero so does the second: the limiter
      takes an emission at time zero for none. */
  lemma Openings(times: seq<u64>)
    ensures var a := Answers(FRESH, times);
      && (|times| > 0 ==> a[0].reported.Some?)
      && (|times| > 1 && times[0] == 0 ==> a[1].reported.Some?)
  {
    var a := Answers(FRESH, times);
    if |times| > 0 {
      AnswersPrefix(times, 1);
      assert times[..1] == [times[0]] && a[0] == a[..1][0];
      FirstEmits(times[0]);
    }
    if |times| > 1 && times[0] == 0 {
      AnswersPrefix(times, 2);
      assert times[..2] == [0, times[1]] && a[1] == a[..2][1];
      SecondEmits(times[1]);
    }
  }

  /** Exactly when all emissions of a run are at least a second apart, by the call times: if
      the first call is not at time zero, or the second comes a second after it. */
  lemma AllSpacedIff(times: seq<u64>)
    ensures AllSpaced(times) <==> |times| < 2 || times[0] != 0 || times[1] >= 1_000_000_000
  {
    var a := Answers(FRESH, times);
    Openings(times);
    AnswerTimes(times);
    if |times| < 2 || times[0] != 0 || times[1] >= 1_000_000_000 {
      forall i, j | 0 <= i < j < |a| && a[i].reported.Some? && a[j].reported.Some?
        ensures a[j].now >= a[i].now + 1_000_000_000
      {
        var first := if times[0] != 0 then 0 else 1;
        if first < i {
          Spacing(times, first, i);
        }
        if times[i] != 0 {
          Spacing(times, i, j);
        } else if first < j {
          Spacing(times, first, j);
        }
      }
    }
  }

  /** It happens: two calls at time zero both emit. */
  lemma TwoAtZero()
    ensures Answers(FRESH, [0, 0]) == [Answer(0, Some(0)), Answer(0, Some(0))] && !AllSpaced([0, 0])
  {
    AllSpacedIff([0, 0]);
    FirstEmits(0);
    assert [0, 0][..1] == [0];
  }

  // ---- kinds are independent ---------------------------------------------

  datatype Request = Request(kind: nat, now: u64)

  function All(b: seq<Bucket>, calls: seq<Request>): (r: seq<Bucket>)
    requires |b| == KINDS && forall i :: 0 <= i < |calls| ==> calls[i].kind < KINDS
    ensures |r| == KINDS
    decreases |calls|
  {
    if calls == [] then b
    else
      var before, c := All(b, calls[..|calls| - 1]), calls[|calls| - 1];
      before[c.kind := Call(before[c.kind], c.now).0]
  }

  /** The times at which one kind is called. */
  function Of(calls: seq<Request>, kind: nat): seq<u64>
    decreases |calls|
  {
    if calls == [] then []
    else
      var before, c := Of(calls[..|calls| - 1], kind), calls[|calls| - 1];
      if c.kind == kind then before + [c.now] else before
  }

  /** Under any interleaving of kinds, each bucket is what its own calls alone make it. */
  lemma {:induction false} KindsIndependent(b: seq<Bucket>, calls: seq<Request>, kind: nat)
    requires |b| == KINDS && kind < KINDS && forall i :: 0 <= i < |calls| ==> calls[i].kind < KINDS
    ensures All(b, calls)[kind] == Bucketed(b[kind], Of(calls, kind))
    decreases |calls|
  {
    if calls != [] {
      var before, c := calls[..|calls| - 1], calls[|calls| - 1];
      KindsIndependent(b, before, kind);
      if c.kind == kind {
        var times := Of(calls, kind);
        assert times[..|times| - 1] == Of(before, kind);
      }
    }
  }

  // ---- the limiter object -------------------------------------------------

  class LogRateLimiter {
    const buckets: array<Bucket>

    ghost predicate Valid() { buckets.Length == KINDS }

    constructor ()
      ensures Valid() && fresh(buckets) && buckets.Length == 6 && buckets[..] == seq(KINDS, _ => FRESH)
    {
      buckets := new Bucket[KINDS](_ => FRESH);
    }

    method ShouldEmit(kind: nat, now: u64) returns (r: Option<u64>)
      requires Valid() && kind < KINDS
      modifies buckets
      ensures buckets[..] == old(buckets[..])[kind := Call(old(buckets[kind]), now).0]
      ensures r == Call(old(buckets[kind]), now).1
    {
      var b := buckets[kind];
      if b.lastEmit == 0 || SaturatingSub(now, b.lastEmit) >= COOLDOWN_NS {
        buckets[kind] := b.(lastEmit := now, queued := 0);
        return Some(b.queued);
      }
      buckets[kind] := b.(queued := SaturatingInc(b.queued, U64_MAX), total := SaturatingInc(b.total, U64_MAX));
      return None;
    }

    method SnapshotTotals() returns (out: array<u64>)
      requires Valid()
      ensures fresh(out) && out.Length == KINDS && forall i :: 0 <= i < KINDS ==> out[i] == buckets[i].total
    {
      out := new u64[KINDS](_ => 0);
      for i := 0 to KINDS
        invariant forall k :: 0 <= k < i ==> out[k] == buckets[k].total
      {
        out[i] := buckets[i].total;
      }
    }
  }
}
