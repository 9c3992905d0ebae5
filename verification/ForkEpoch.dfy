/** The process-lineage epoch that marks inherited client state as stale. */
module ForkEpoch {
  import opened Wrappers
  import opened Words

  /** How many values the epoch counter has: it is as wide as a machine word. */
  type Modulus = m: nat | m == U32_MAX + 1 || m == U64_MAX + 1 witness U64_MAX + 1

  /** The process-wide statics: the epoch counter, the one-shot registration flag and
      the registration's error number. */
  datatype Lineage = Lineage(modulus: Modulus, epoch: u64, once: bool, result: int)

  function Unregistered(m: Modulus): Lineage { Lineage(m, 0, false, -0x8000_0000) }

  predicate Registered(l: Lineage) { l.once && l.result == 0 }

  /** The fetch-add of the child callback wraps. */
  function Advance(m: Modulus, epoch: u64): u64 { (epoch + 1) % m }

  /** The epoch counts advances modulo the width of the counter. */
  lemma AdvanceCounts(m: Modulus, n: nat)
    ensures Advance(m, n % m) == (n + 1) % m
  {
    var q, r := n / m, n % m;
    if r + 1 < m {
      ModUnique(m, n + 1, q, r + 1);
      ModUnique(m, r + 1, 0, r + 1);
    } else {
      assert m * (q + 1) == m * q + m;
      ModUnique(m, n + 1, q + 1, 0);
      ModUnique(m, r + 1, 1, 0);
    }
  }

  /** Two advance counts show the same epoch exactly when a multiple of the width apart. */
  lemma SameEpochIff(m: Modulus, a: nat, b: nat)
    requires a <= b
    ensures a % m == b % m <==> (b - a) % m == 0
    ensures (b - a) % m == 0 ==> a == b || b - a >= m
  {
    SameModIff(m, a, b);
  }

  /** What fork(2) leaves in the child: a copy, advanced if the callback is installed. */
  function InChild(l: Lineage): Lineage {
    if Registered(l) then l.(epoch := Advance(l.modulus, l.epoch)) else l
  }

  function AfterRegister(l: Lineage, reply: int): Lineage {
    if l.once then l else l.(once := true, result := reply)
  }

  /** A lineage after several registrations, with what pthread_atfork would reply to each. */
  function AfterAll(l: Lineage, replies: seq<int>): Lineage
    decreases |replies|
  {
    if replies == [] then l else AfterRegister(AfterAll(l, replies[..|replies| - 1]), replies[|replies| - 1])
  }

  /** The first reply stands, whatever later ones would be. */
  lemma {:induction false} FirstReplyStands(m: Modulus, replies: seq<int>)
    ensures var l := AfterAll(Unregistered(m), replies);
      l.epoch == 0 && l.once == (replies != []) && (replies != [] ==> l.result == replies[0])
    decreases |replies|
  {
    if replies != [] {
      FirstReplyStands(m, replies[..|replies| - 1]);
    }
  }

  class Statics {
    const modulus: Modulus
    var epoch: u64
    var once: bool
    var result: int

    function State(): Lineage
      reads this
    {
      Lineage(modulus, epoch, once, result)
    }

    constructor (m: Modulus)
      ensures State() == Unregistered(m)
    {
      modulus := m;
      epoch, once, result := 0, false, -0x8000_0000;
    }

    method AdvanceChildEpoch()
      modifies this
      ensures State() == old(State()).(epoch := Advance(modulus, old(epoch)))
    {
      epoch := (epoch + 1) % modulus;
    }

    /** Install the callback at most once; `reply` is what pthread_atfork returns. */
    method Register(reply: int) returns (r: Result<u64, int>)
      modifies this
      ensures State() == AfterRegister(old(State()), reply)
      ensures r == if Registered(State()) then Success(epoch) else Failure(result)
    {
      if !once {
        once := true;
        result := reply;
      }
      r := if result == 0 then Success(epoch) else Failure(result);
    }
  }
}
