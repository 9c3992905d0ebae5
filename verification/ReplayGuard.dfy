/** The secure listener's replay guard for one authenticated sender: per-prefix counters
    with a one-deep history, and high-water marks across prefixes. */
module ReplayGuard {
  import opened Wrappers
  import opened Words
  import opened VlpFrame

  /** What authentication establishes about a received datagram. */
  datatype Datagram = Datagram(pid: u32, iv: Bytes, counter: u32, nonce: u64, timestamp: u64)

  predicate IsTerminal(d: Datagram) { d.nonce == NONCE_TERMINAL }

  datatype Sender = Sender(
    iv: Bytes, lastCounter: u32, prevIv: Bytes, prevLastCounter: u32,
    maxRegular: u64, maxTerminal: Option<u64>, lastSeen: nat)

  const NO_IV: Bytes := [0, 0, 0, 0, 0, 0, 0, 0]

  /** Advance the high-water mark the datagram belongs to. */
  function Observe(s: Sender, d: Datagram): Sender {
    if IsTerminal(d) then
      s.(maxTerminal := Some(if s.maxTerminal.None? then d.timestamp else Max(s.maxTerminal.value, d.timestamp)))
    else
      s.(maxRegular := Max(s.maxRegular, d.nonce))
  }

  function Anew(d: Datagram, now: nat): Sender {
    Observe(Sender(d.iv, d.counter, NO_IV, 0, 0, None, now), d)
  }

  predicate Advances(s: Sender, d: Datagram) {
    if IsTerminal(d) then s.maxTerminal.None? || d.timestamp > s.maxTerminal.value else d.nonce > s.maxRegular
  }

  /** A regular datagram after `gap` nanoseconds of silence may restart the session. */
  predicate Restarts(s: Sender, d: Datagram, now: nat, gap: nat) {
    !IsTerminal(d) && SaturatingSub(now, s.lastSeen) >= gap
  }

  datatype Verdict = Refused | Accepted | AcceptedAnew

  /** Check and update in one step.  `room` tells whether an unknown sender finds a slot. */
  function Judge(known: Option<Sender>, d: Datagram, now: nat, gap: nat, room: bool): (Option<Sender>, Verdict) {
    if known.None? then
      if room then (Some(Anew(d, now)), AcceptedAnew) else (None, Refused)
    else
      var s := known.value;
      if s.iv == d.iv then
        if d.counter > s.lastCounter
        then (Some(Observe(s, d).(lastCounter := d.counter, lastSeen := now)), Accepted)
        else (known, Refused)
      else if s.prevIv == d.iv then
        if d.counter > s.prevLastCounter
        then (Some(Observe(s, d).(prevLastCounter := d.counter, lastSeen := now)), Accepted)
        else (known, Refused)
      else if Advances(s, d) then
        (Some(Observe(s, d).(prevIv := s.iv, prevLastCounter := s.lastCounter, iv := d.iv, lastCounter := d.counter,
                             lastSeen := now)), Accepted)
      else if Restarts(s, d, now, gap) then (Some(Anew(d, now)), AcceptedAnew)
      else (known, Refused)
  }

  // ---- runs ---------------------------------------------------------------

  /** The network may deliver anything that was sent, in any order, any number of times;
      the listener may forget a silent sender. */
  datatype Event = Arrive(d: Datagram, now: nat, gap: nat, room: bool) | Forget

  /** An accepted datagram, with the number of times the sender's state had been begun and the
      time of arrival. */
  datatype Entry = Entry(d: Datagram, epoch: nat, at: nat)

  /** `history` lists everything ever accepted; `epoch` counts how often the sender's state
      was begun anew. */
  datatype Lane = Lane(known: Option<Sender>, epoch: nat, history: seq<Entry>)

  function Apply(l: Lane, e: Event): Lane {
    match e
    case Forget => l.(known := None)
    case Arrive(d, now, gap, room) =>
      var (known, verdict) := Judge(l.known, d, now, gap, room);
      match verdict
      case Refused => l.(known := known)
      case Accepted => Lane(known, l.epoch, l.history + [Entry(d, l.epoch, now)])
      case AcceptedAnew => Lane(known, l.epoch + 1, l.history + [Entry(d, l.epoch + 1, now)])
  }

  function Replay(l: Lane, events: seq<Event>): Lane
    decreases |events|
  {
    if events == [] then l else Replay(Apply(l, events[0]), events[1..])
  }

  const UNKNOWN: Lane := Lane(None, 0, [])

  /** How a genuine sender labels what it sends: a nonce slot names one datagram; within a
      prefix, later counters carry later regular nonces; a terminal frame has a prefix of
      its own. */
  predicate Genuine(sent: set<Datagram>) {
    forall a, b :: a in sent && b in sent && a.iv == b.iv ==>
      && (a.counter == b.counter ==> a == b)
      && (IsTerminal(a) ==> a == b)
      && (!IsTerminal(a) && !IsTerminal(b) && a.counter < b.counter ==> a.nonce < b.nonce)
  }

  lemma GenuineSubset(a: set<Datagram>, b: set<Datagram>)
    requires Genuine(b) && a <= b
    ensures Genuine(a)
  {}

  /** Regular datagrams of a genuine sender stay genuine beside terminal ones that each have a
      prefix of their own. */
  lemma GenuineUnion(regular: set<Datagram>, terminal: set<Datagram>)
    requires Genuine(regular) && (forall d :: d in regular ==> !IsTerminal(d))
    requires forall t, d :: t in terminal && (d in regular || d in terminal) && t.iv == d.iv ==> t == d
    requires forall t :: t in terminal ==> IsTerminal(t)
    ensures Genuine(regular + terminal)
  {}

  /** Entry `i` was accepted since the sender's state was last begun. */
  predicate IsCurrent(l: Lane, i: int) {
    0 <= i < |l.history| && l.history[i].epoch == l.epoch
  }

  /** What the guard knows covers what it accepted. */
  predicate Covers(s: Sender, d: Datagram) {
    && (if IsTerminal(d) then s.maxTerminal.Some? && d.timestamp <= s.maxTerminal.value else d.nonce <= s.maxRegular)
    && (d.iv == s.iv ==> d.counter <= s.lastCounter)
    && (d.iv == s.prevIv && s.iv != s.prevIv ==> d.counter <= s.prevLastCounter)
  }

  /** The prefixes of the current epoch still remembered, by what was accepted: a prefix that
      is neither of them becomes the latest, and the latest the one before. */
  function Remember(history: seq<Entry>): (Bytes, Bytes)
    decreases |history|
  {
    if history == [] then (NO_IV, NO_IV)
    else
      var init, last := history[..|history| - 1], history[|history| - 1];
      if init == [] || init[|init| - 1].epoch != last.epoch then (last.d.iv, NO_IV)
      else
        var (latest, before) := Remember(init);
        if last.d.iv == latest || last.d.iv == before then (latest, before) else (last.d.iv, latest)
  }

  /** Nothing of the sender was accepted for `gap`. */
  predicate IsSilent(history: seq<Entry>, now: nat, gap: nat) {
    history != [] && (gap == 0 || history[|history| - 1].at + gap <= now)
  }

  /** A known sender was last seen when its last datagram was accepted, and is remembered by
      the prefixes of its epoch. */
  predicate Dated(l: Lane) {
    l.known.Some? ==>
      && l.history != [] && l.history[|l.history| - 1].epoch == l.epoch >= 1
      && l.known.value.lastSeen == l.history[|l.history| - 1].at
      && (l.known.value.iv, l.known.value.prevIv) == Remember(l.history)
  }

  lemma RememberMore(history: seq<Entry>, x: Entry)
    requires history != []
    ensures var (latest, before) := Remember(history);
      Remember(history + [x]) ==
        if history[|history| - 1].epoch != x.epoch then (x.d.iv, NO_IV)
        else if x.d.iv == latest || x.d.iv == before then (latest, before)
        else (x.d.iv, latest)
  {
    assert (history + [x])[..|history|] == history;
  }

  predicate Bounded(l: Lane) {
    forall i :: 0 <= i < |l.history| ==> l.history[i].epoch <= l.epoch
  }

  lemma AcceptKeepsDated(l: Lane, d: Datagram, now: nat, gap: nat, room: bool)
    requires Dated(l) && Judge(l.known, d, now, gap, room).1 == Accepted
    ensures Dated(Apply(l, Arrive(d, now, gap, room)))
  {
    RememberMore(l.history, Entry(d, l.epoch, now));
  }

  /** The lane of a sender whose state begins with `d`. */
  function Begun(l: Lane, d: Datagram, now: nat): Lane {
    Lane(Some(Anew(d, now)), l.epoch + 1, l.history + [Entry(d, l.epoch + 1, now)])
  }

  lemma RememberFirst(x: Entry)
    ensures Remember([x]) == (x.d.iv, NO_IV)
  {
    assert [x][..0] == [];
  }

  lemma BegunDated(l: Lane, d: Datagram, now: nat)
    requires Bounded(l)
    ensures Dated(Begun(l, d, now))
  {
    var x := Entry(d, l.epoch + 1, now);
    if l.history == [] {
      assert [] + [x] == [x];
      RememberFirst(x);
    } else {
      RememberMore(l.history, x);
    }
  }

  lemma AnewIsBegun(l: Lane, d: Datagram, now: nat, gap: nat, room: bool)
    requires Judge(l.known, d, now, gap, room).1 == AcceptedAnew
    ensures Apply(l, Arrive(d, now, gap, room)) == Begun(l, d, now)
  {}

  lemma ApplyKeepsDated(l: Lane, e: Event)
    requires Dated(l) && Bounded(l)
    ensures Dated(Apply(l, e)) && Bounded(Apply(l, e))
  {
    if e.Arrive? {
      match Judge(l.known, e.d, e.now, e.gap, e.room).1
      case Refused =>
      case Accepted => AcceptKeepsDated(l, e.d, e.now, e.gap, e.room);
      case AcceptedAnew =>
        AnewIsBegun(l, e.d, e.now, e.gap, e.room);
        BegunDated(l, e.d, e.now);
    }
  }

  ghost predicate HasCounter(l: Lane, iv: Bytes, counter: u32) {
    exists i :: IsCurrent(l, i) && l.history[i].d.iv == iv && l.history[i].d.counter == counter
  }

  ghost predicate HasNonce(l: Lane, nonce: u64) {
    exists i :: IsCurrent(l, i) && !IsTerminal(l.history[i].d) && l.history[i].d.nonce == nonce
  }

  ghost predicate HasTerminal(l: Lane, timestamp: u64) {
    exists i :: IsCurrent(l, i) && IsTerminal(l.history[i].d) && l.history[i].d.timestamp == timestamp
  }

  /** What the guard knows, it has from a current entry. */
  ghost predicate Attained(s: Sender, l: Lane) { PrefixAttained(s, l) && ClockAttained(s, l) }

  ghost predicate PrefixAttained(s: Sender, l: Lane) {
    && HasCounter(l, s.iv, s.lastCounter)
    && ((s.prevIv == NO_IV && s.prevLastCounter == 0) || HasCounter(l, s.prevIv, s.prevLastCounter))
  }

  ghost predicate ClockAttained(s: Sender, l: Lane) {
    && (s.maxRegular == 0 || HasNonce(l, s.maxRegular))
    && (s.maxTerminal.Some? ==> HasTerminal(l, s.maxTerminal.value))
  }

  /** Later acceptances are of the same or a later epoch; of the same datagram, of a later. */
  predicate EpochsRise(history: seq<Entry>) {
    forall i, j :: 0 <= i < j < |history| ==>
      && history[i].epoch <= history[j].epoch
      && (history[i].d == history[j].d ==> history[i].epoch < history[j].epoch)
  }

  /** Every entry was sent, in an epoch there has been. */
  predicate Recorded(sent: set<Datagram>, l: Lane) {
    forall i :: 0 <= i < |l.history| ==> l.history[i].d in sent && 1 <= l.history[i].epoch <= l.epoch
  }

  ghost predicate AllCovered(s: Sender, l: Lane) {
    forall i {:trigger IsCurrent(l, i)} :: IsCurrent(l, i) ==> Covers(s, l.history[i].d)
  }

  ghost predicate Inv(sent: set<Datagram>, l: Lane) {
    && Recorded(sent, l)
    && EpochsRise(l.history)
    && Dated(l)
    && (l.known.Some? ==> l.epoch >= 1 && AllCovered(l.known.value, l) && Attained(l.known.value, l))
  }

  /** An accepted datagram is new to the epoch, and the guard goes on to cover everything
      accepted in it. */
  lemma AcceptCovers(sent: set<Datagram>, l: Lane, d: Datagram, now: nat, gap: nat, room: bool, i: int)
    requires Genuine(sent) && Recorded(sent, l) && d in sent && IsCurrent(l, i)
    requires Judge(l.known, d, now, gap, room).1 == Accepted && Covers(l.known.value, l.history[i].d)
    ensures l.history[i].d != d && Covers(Judge(l.known, d, now, gap, room).0.value, l.history[i].d)
  {
    var s, e := l.known.value, l.history[i].d;
    assert e in sent;
    if s.iv != d.iv && s.prevIv != d.iv && e.iv == d.iv {
      assert e.counter != d.counter;
      assert !(d.counter < e.counter);
    }
  }

  /** What current entries show, they go on to show when the epoch gains another. */
  lemma ShowsMore(l: Lane, l': Lane, d: Datagram, now: nat)
    requires l'.epoch == l.epoch && l'.history == l.history + [Entry(d, l.epoch, now)]
    ensures forall iv, c :: HasCounter(l, iv, c) ==> HasCounter(l', iv, c)
    ensures forall n :: HasNonce(l, n) ==> HasNonce(l', n)
    ensures forall t :: HasTerminal(l, t) ==> HasTerminal(l', t)
    ensures HasCounter(l', d.iv, d.counter)
    ensures if IsTerminal(d) then HasTerminal(l', d.timestamp) else HasNonce(l', d.nonce)
  {
    assert IsCurrent(l', |l.history|) && l'.history[|l.history|].d == d;
    assert forall i :: IsCurrent(l, i) ==> IsCurrent(l', i) && l'.history[i] == l.history[i];
  }

  lemma ObserveAttains(s: Sender, d: Datagram, l: Lane, l': Lane, now: nat)
    requires ClockAttained(s, l) && l'.epoch == l.epoch && l'.history == l.history + [Entry(d, l.epoch, now)]
    ensures ClockAttained(Observe(s, d), l')
  {
    ShowsMore(l, l', d, now);
  }

  /** An accepted datagram updates the marks and one of the two remembered prefixes. */
  lemma AcceptShape(s: Sender, d: Datagram, now: nat, gap: nat, room: bool)
    requires Judge(Some(s), d, now, gap, room).1 == Accepted
    ensures var s', o := Judge(Some(s), d, now, gap, room).0.value, Observe(s, d);
      && s'.maxRegular == o.maxRegular && s'.maxTerminal == o.maxTerminal
      && ((s'.iv, s'.lastCounter, s'.prevIv, s'.prevLastCounter) == (d.iv, d.counter, s.prevIv, s.prevLastCounter) ||
          (s'.iv, s'.lastCounter, s'.prevIv, s'.prevLastCounter) == (s.iv, s.lastCounter, d.iv, d.counter) ||
          (s'.iv, s'.lastCounter, s'.prevIv, s'.prevLastCounter) == (d.iv, d.counter, s.iv, s.lastCounter))
  {}

  lemma AcceptAttains(s: Sender, l: Lane, d: Datagram, now: nat, gap: nat, room: bool)
    requires l.known == Some(s) && Attained(s, l) && Judge(l.known, d, now, gap, room).1 == Accepted
    ensures Attained(Judge(l.known, d, now, gap, room).0.value, Apply(l, Arrive(d, now, gap, room)))
  {
    var l' := Apply(l, Arrive(d, now, gap, room));
    AcceptShape(s, d, now, gap, room);
    ObserveAttains(s, d, l, l', now);
    ShowsMore(l, l', d, now);
  }

  lemma AcceptExtends(sent: set<Datagram>, l: Lane, d: Datagram, now: nat, s': Sender)
    requires Recorded(sent, l) && EpochsRise(l.history) && l.epoch >= 1 && d in sent && Covers(s', d)
    requires forall i :: IsCurrent(l, i) ==> l.history[i].d != d && Covers(s', l.history[i].d)
    ensures var l' := Lane(Some(s'), l.epoch, l.history + [Entry(d, l.epoch, now)]);
      Recorded(sent, l') && EpochsRise(l'.history) && AllCovered(s', l')
  {
    var l' := Lane(Some(s'), l.epoch, l.history + [Entry(d, l.epoch, now)]);
    forall i | IsCurrent(l', i)
      ensures Covers(s', l'.history[i].d)
    {
      if i < |l.history| {
        assert IsCurrent(l, i);
      }
    }
    forall i, j | 0 <= i < j < |l'.history|
      ensures l'.history[i].epoch <= l'.history[j].epoch
      ensures l'.history[i].d == l'.history[j].d ==> l'.history[i].epoch < l'.history[j].epoch
    {
      if j == |l.history| && l'.history[i].epoch == l.epoch {
        assert IsCurrent(l, i);
      }
    }
  }

  lemma AcceptKeepsCover(sent: set<Datagram>, l: Lane, d: Datagram, now: nat, gap: nat, room: bool)
    requires Genuine(sent) && Recorded(sent, l) && EpochsRise(l.history) && l.epoch >= 1 && d in sent
    requires Judge(l.known, d, now, gap, room).1 == Accepted && AllCovered(l.known.value, l)
    ensures var l' := Apply(l, Arrive(d, now, gap, room));
      Recorded(sent, l') && EpochsRise(l'.history) && AllCovered(l'.known.value, l')
  {
    var s' := Judge(l.known, d, now, gap, room).0.value;
    forall i | IsCurrent(l, i)
      ensures l.history[i].d != d && Covers(s', l.history[i].d)
    {
      AcceptCovers(sent, l, d, now, gap, room, i);
    }
    AcceptExtends(sent, l, d, now, s');
  }

  lemma AcceptKeepsInv(sent: set<Datagram>, l: Lane, d: Datagram, now: nat, gap: nat, room: bool)
    requires Genuine(sent) && Inv(sent, l) && d in sent
    requires Judge(l.known, d, now, gap, room).1 == Accepted
    ensures Inv(sent, Apply(l, Arrive(d, now, gap, room)))
  {
    AcceptKeepsCover(sent, l, d, now, gap, room);
    AcceptAttains(l.known.value, l, d, now, gap, room);
    AcceptKeepsDated(l, d, now, gap, room);
  }

  lemma BegunRecords(sent: set<Datagram>, l: Lane, d: Datagram, now: nat)
    requires Recorded(sent, l) && EpochsRise(l.history) && d in sent
    ensures Recorded(sent, Begun(l, d, now)) && EpochsRise(Begun(l, d, now).history)
  {}

  lemma BegunCovers(sent: set<Datagram>, l: Lane, d: Datagram, now: nat)
    requires Recorded(sent, l)
    ensures AllCovered(Anew(d, now), Begun(l, d, now))
  {}

  lemma BegunAttains(l: Lane, d: Datagram, now: nat)
    ensures Attained(Anew(d, now), Begun(l, d, now))
  {
    var l' := Begun(l, d, now);
    assert IsCurrent(l', |l.history|) && l'.history[|l.history|].d == d;
  }

  lemma AnewKeepsInv(sent: set<Datagram>, l: Lane, d: Datagram, now: nat, gap: nat, room: bool)
    requires Inv(sent, l) && d in sent
    requires Judge(l.known, d, now, gap, room).1 == AcceptedAnew
    ensures Inv(sent, Apply(l, Arrive(d, now, gap, room)))
  {
    AnewIsBegun(l, d, now, gap, room);
    BegunRecords(sent, l, d, now);
    BegunCovers(sent, l, d, now);
    BegunAttains(l, d, now);
    BegunDated(l, d, now);
  }

  lemma ApplyKeepsInv(sent: set<Datagram>, l: Lane, e: Event)
    requires Genuine(sent) && Inv(sent, l) && (e.Arrive? ==> e.d in sent)
    ensures Inv(sent, Apply(l, e))
  {
    if e.Arrive? {
      match Judge(l.known, e.d, e.now, e.gap, e.room).1
      case Refused =>
      case Accepted => AcceptKeepsInv(sent, l, e.d, e.now, e.gap, e.room);
      case AcceptedAnew => AnewKeepsInv(sent, l, e.d, e.now, e.gap, e.room);
    }
  }

  predicate Delivers(events: seq<Event>, sent: set<Datagram>) {
    forall i :: 0 <= i < |events| && events[i].Arrive? ==> events[i].d in sent
  }

  lemma {:induction false} RunKeepsInv(sent: set<Datagram>, l: Lane, events: seq<Event>)
    requires Genuine(sent) && Inv(sent, l) && Delivers(events, sent)
    ensures Inv(sent, Replay(l, events))
    decreases |events|
  {
    if events != [] {
      ApplyKeepsInv(sent, l, events[0]);
      RunKeepsInv(sent, Apply(l, events[0]), events[1..]);
    }
  }

  /** However the network reorders, drops and repeats genuine datagrams, the guard accepts
      none of them twice in one epoch. */
  lemma NoReplay(sent: set<Datagram>, events: seq<Event>)
    requires Genuine(sent) && Delivers(events, sent)
    ensures EpochsRise(Replay(UNKNOWN, events).history)
  {
    RunKeepsInv(sent, UNKNOWN, events);
  }

  // ---- when a datagram is accepted, again or for the first time -----------

  /** The datagram's counter is above every one accepted in this epoch under its prefix. */
  ghost predicate CounterLeads(l: Lane, d: Datagram) {
    && (d.iv == NO_IV ==> d.counter > 0)
    && forall i :: IsCurrent(l, i) && l.history[i].d.iv == d.iv ==> l.history[i].d.counter < d.counter
  }

  /** A regular datagram's nonce, or a terminal one's timestamp, is above every one accepted
      in this epoch. */
  ghost predicate ClockLeads(l: Lane, d: Datagram) {
    if IsTerminal(d)
    then forall i :: IsCurrent(l, i) && IsTerminal(l.history[i].d) ==> l.history[i].d.timestamp < d.timestamp
    else d.nonce > 0 && forall i :: IsCurrent(l, i) && !IsTerminal(l.history[i].d) ==> l.history[i].d.nonce < d.nonce
  }

  lemma RememberedIff(sent: set<Datagram>, l: Lane, d: Datagram)
    requires Inv(sent, l) && l.known.Some?
    ensures var s := l.known.value;
      && (d.iv == s.iv ==> (d.counter > s.lastCounter <==> CounterLeads(l, d)))
      && (d.iv != s.iv && d.iv == s.prevIv ==> (d.counter > s.prevLastCounter <==> CounterLeads(l, d)))
  {
    var s := l.known.value;
    assert Attained(s, l) && AllCovered(s, l);
  }

  lemma AdvancesIff(sent: set<Datagram>, l: Lane, d: Datagram)
    requires Inv(sent, l) && l.known.Some?
    ensures Advances(l.known.value, d) <==> ClockLeads(l, d)
  {
    var s := l.known.value;
    assert Attained(s, l) && AllCovered(s, l);
  }

  /** The guard's verdict on a datagram it accepted before, in this epoch or an earlier one, or
      never, by what it accepted and when: an unknown sender's begins an epoch if there is
      room; one of a remembered prefix is accepted if its counter leads its prefix in this
      epoch; any other if its nonce or timestamp leads this epoch; and a regular one that does
      not lead begins an epoch after `gap` of silence. */
  lemma AcceptedIff(sent: set<Datagram>, l: Lane, d: Datagram, now: nat, gap: nat, room: bool)
    requires Inv(sent, l)
    ensures var (latest, before) := Remember(l.history);
      Judge(l.known, d, now, gap, room).1 ==
        if l.known.None? then (if room then AcceptedAnew else Refused)
        else if d.iv == latest || d.iv == before then (if CounterLeads(l, d) then Accepted else Refused)
        else if ClockLeads(l, d) then Accepted
        else if !IsTerminal(d) && IsSilent(l.history, now, gap) then AcceptedAnew
        else Refused
  {
    if l.known.Some? {
      RememberedIff(sent, l, d);
      AdvancesIff(sent, l, d);
    }
  }

  /** So a datagram accepted in this epoch is accepted again exactly if it is regular, its
      prefix is no longer remembered, and the sender was silent for `gap`; that begins an
      epoch. */
  lemma RepeatAcceptedIff(sent: set<Datagram>, l: Lane, i: int, now: nat, gap: nat, room: bool)
    requires Inv(sent, l) && l.known.Some? && IsCurrent(l, i)
    ensures var d, (latest, before) := l.history[i].d, Remember(l.history);
      Judge(l.known, d, now, gap, room).1 ==
        if !IsTerminal(d) && d.iv != latest && d.iv != before && IsSilent(l.history, now, gap)
        then AcceptedAnew else Refused
  {
    AcceptedIff(sent, l, l.history[i].d, now, gap, room);
    AdvancesIff(sent, l, l.history[i].d);
    RememberedIff(sent, l, l.history[i].d);
  }

  // ---- how often a datagram can be accepted -------------------------------

  function Times(history: seq<Entry>, d: Datagram): nat
    decreases |history|
  {
    if history == [] then 0
    else Times(history[..|history| - 1], d) + if history[|history| - 1].d == d then 1 else 0
  }

  lemma {:induction false} OncePerEpoch(history: seq<Entry>, d: Datagram, bound: nat)
    requires EpochsRise(history)
    requires forall i :: 0 <= i < |history| && history[i].d == d ==> 1 <= history[i].epoch <= bound
    ensures Times(history, d) <= bound
    decreases |history|
  {
    if history != [] {
      var init, last := history[..|history| - 1], history[|history| - 1];
      OncePerEpoch(init, d, if last.d == d then last.epoch - 1 else bound);
    }
  }

  /** How often the listener forgot the sender. */
  function Forgets(events: seq<Event>): nat
    decreases |events|
  {
    if events == [] then 0 else Forgets(events[1..]) + if events[0].Forget? then 1 else 0
  }

  /** How many arrivals came when nothing had been accepted for `gap`. */
  function Silences(l: Lane, events: seq<Event>): nat
    decreases |events|
  {
    if events == [] then 0
    else
      var e := events[0];
      Silences(Apply(l, e), events[1..]) + if e.Arrive? && IsSilent(l.history, e.now, e.gap) then 1 else 0
  }

  /** Each epoch is paid for by the sender's first appearance, by its having been forgotten,
      or by a silence. */
  lemma {:induction false} EpochsPaidFor(l: Lane, events: seq<Event>)
    requires Dated(l) && Bounded(l)
    ensures var z := Replay(l, events);
      z.epoch + (if z.known.None? then 1 else 0)
        <= l.epoch + (if l.known.None? then 1 else 0) + Forgets(events) + Silences(l, events)
    decreases |events|
  {
    if events != [] {
      ApplyKeepsDated(l, events[0]);
      EpochsPaidFor(Apply(l, events[0]), events[1..]);
    }
  }

  /** In every run a genuine datagram is accepted at most once more than the sender was
      forgotten or came back after `gap` of silence. */
  lemma AcceptedAtMost(sent: set<Datagram>, events: seq<Event>, d: Datagram)
    requires Genuine(sent) && Delivers(events, sent)
    ensures Times(Replay(UNKNOWN, events).history, d) <= 1 + Forgets(events) + Silences(UNKNOWN, events)
  {
    RunKeepsInv(sent, UNKNOWN, events);
    EpochsPaidFor(UNKNOWN, events);
    OncePerEpoch(Replay(UNKNOWN, events).history, d, Replay(UNKNOWN, events).epoch);
  }

  // ---- how it fails -------------------------------------------------------

  /** An evicted sender is unknown: whatever it sent before, the next datagram to arrive begins
      an epoch, if there is room. */
  lemma EvictedIsUnknown(l: Lane, d: Datagram, now: nat, gap: nat)
    ensures Replay(l, [Forget, Arrive(d, now, gap, true)]).history == l.history + [Entry(d, l.epoch + 1, now)]
    ensures Replay(l, [Forget, Arrive(d, now, gap, false)]) == l.(known := None)
  {
    forall room: bool
      ensures Replay(l, [Forget, Arrive(d, now, gap, room)]) == Apply(Apply(l, Forget), Arrive(d, now, gap, room))
    {
      ReplayFirst(l, Forget, [Arrive(d, now, gap, room)]);
      ReplayFirst(Apply(l, Forget), Arrive(d, now, gap, room), []);
      assert [Forget, Arrive(d, now, gap, room)] == [Forget] + [Arrive(d, now, gap, room)];
      assert [Arrive(d, now, gap, room)] == [Arrive(d, now, gap, room)] + [];
    }
  }

  /** A new prefix with a leading nonce joins the epoch. */
  lemma Rotated(l: Lane, s: Sender, d: Datagram, now: nat, gap: nat)
    requires l.known == Some(s) && !IsTerminal(d) && d.iv != s.iv && d.iv != s.prevIv && d.nonce > s.maxRegular
    ensures Apply(l, Arrive(d, now, gap, true)) ==
      Lane(Some(Sender(d.iv, d.counter, s.iv, s.lastCounter, d.nonce, s.maxTerminal, now)), l.epoch,
           l.history + [Entry(d, l.epoch, now)])
  {}

  /** A forgotten prefix with an old nonce begins an epoch after a silence. */
  lemma Restarted(l: Lane, s: Sender, d: Datagram, now: nat, gap: nat)
    requires l.known == Some(s) && !IsTerminal(d) && d.iv != s.iv && d.iv != s.prevIv && d.nonce <= s.maxRegular
    requires now >= s.lastSeen + gap
    ensures Apply(l, Arrive(d, now, gap, true)) ==
      Lane(Some(Sender(d.iv, d.counter, NO_IV, 0, d.nonce, None, now)), l.epoch + 1,
           l.history + [Entry(d, l.epoch + 1, now)])
  {}

  /** Regular datagrams of two different prefixes, neither all zeros, the later with the
      later nonce. */
  predicate Rotation(a: Datagram, b: Datagram) {
    !IsTerminal(a) && !IsTerminal(b) && a.iv != b.iv && a.iv != NO_IV && b.iv != NO_IV && a.nonce < b.nonce
  }

  lemma TwoRotations(l: Lane, a: Datagram, b: Datagram, c: Datagram, s: Sender, now: nat, gap: nat)
    requires Rotation(a, b) && Rotation(b, c) && Rotation(a, c)
    requires l.known == Some(s) && s.iv == a.iv && s.prevIv == NO_IV && s.maxRegular == a.nonce
    ensures var l' := Apply(Apply(l, Arrive(b, now, gap, true)), Arrive(c, now, gap, true));
      && l'.epoch == l.epoch && l'.history == l.history + [Entry(b, l.epoch, now), Entry(c, l.epoch, now)]
      && l'.known.Some? && var z := l'.known.value;
         z.iv == c.iv && z.prevIv == b.iv && z.maxRegular == c.nonce && z.lastSeen == now
  {
    Rotated(l, s, b, now, gap);
    var l1 := Apply(l, Arrive(b, now, gap, true));
    Rotated(l1, l1.known.value, c, now, gap);
  }

  /** A silence lets in more than the datagram that breaks it: any three regular datagrams of
      three prefixes, in order, are all accepted, and after a silence of `gap` all accepted
      once more.  No process needs to be restarted, and only the first of the repeats begins
      an epoch. */
  lemma SilenceReplays(a: Datagram, b: Datagram, c: Datagram, now: nat, later: nat, gap: nat)
    requires Rotation(a, b) && Rotation(b, c) && Rotation(a, c) && later >= now + gap
    ensures Genuine({a, b, c})
    ensures Replay(UNKNOWN, [Arrive(a, now, gap, true), Arrive(b, now, gap, true), Arrive(c, now, gap, true),
                             Arrive(a, later, gap, true), Arrive(b, later, gap, true), Arrive(c, later, gap, true)]).history
      == [Entry(a, 1, now), Entry(b, 1, now), Entry(c, 1, now), Entry(a, 2, later), Entry(b, 2, later), Entry(c, 2, later)]
  {
    var l1 := Apply(UNKNOWN, Arrive(a, now, gap, true));
    TwoRotations(l1, a, b, c, l1.known.value, now, gap);
    var l3 := Apply(Apply(l1, Arrive(b, now, gap, true)), Arrive(c, now, gap, true));
    Restarted(l3, l3.known.value, a, later, gap);
    var l4 := Apply(l3, Arrive(a, later, gap, true));
    TwoRotations(l4, a, b, c, l4.known.value, later, gap);
    ReplaySix(UNKNOWN, Arrive(a, now, gap, true), Arrive(b, now, gap, true), Arrive(c, now, gap, true),
              Arrive(a, later, gap, true), Arrive(b, later, gap, true), Arrive(c, later, gap, true));
  }

  lemma ReplayFirst(l: Lane, e: Event, rest: seq<Event>)
    ensures Replay(l, [e] + rest) == Replay(Apply(l, e), rest)
  {
    assert ([e] + rest)[1..] == rest;
  }

  lemma ReplaySix(l: Lane, a: Event, b: Event, c: Event, d: Event, e: Event, f: Event)
    ensures Replay(l, [a, b, c, d, e, f]) == Apply(Apply(Apply(Apply(Apply(Apply(l, a), b), c), d), e), f)
  {
    var l1 := Apply(l, a);
    var l2 := Apply(l1, b);
    var l3 := Apply(l2, c);
    var l4 := Apply(l3, d);
    ReplayFirst(l, a, [b, c, d, e, f]);
    ReplayFirst(l1, b, [c, d, e, f]);
    ReplayFirst(l2, c, [d, e, f]);
    ReplayFirst(l3, d, [e, f]);
    ReplayFirst(l4, e, [f]);
    ReplayFirst(Apply(l4, e), f, []);
    assert [a, b, c, d, e, f] == [a] + [b, c, d, e, f] && [b, c, d, e, f] == [b] + [c, d, e, f];
    assert [c, d, e, f] == [c] + [d, e, f] && [d, e, f] == [d] + [e, f] && [e, f] == [e] + [f] && [f] == [f] + [];
  }

  /** Within a prefix the nonces must rise with the counters.  Where the beat nonce wraps in
      mid-prefix they do not, and a datagram can be accepted twice in one epoch: any `first`
      after the wrap whose predecessor `last` comes late, behind two further prefixes. */
  lemma WrapReplays(last: Datagram, first: Datagram, b: Datagram, c: Datagram, now: nat, gap: nat)
    requires last.iv == first.iv && last.counter < first.counter
    requires Rotation(first, b) && Rotation(b, c) && Rotation(first, c) && !IsTerminal(last) && c.nonce < last.nonce
    ensures !Genuine({last, first, b, c})
    ensures Replay(UNKNOWN, [Arrive(first, now, gap, true), Arrive(b, now, gap, true), Arrive(c, now, gap, true),
                             Arrive(last, now, gap, true), Arrive(first, now, gap, true), Forget]).history
      == [Entry(first, 1, now), Entry(b, 1, now), Entry(c, 1, now), Entry(last, 1, now), Entry(first, 1, now)]
  {
    var l1 := Apply(UNKNOWN, Arrive(first, now, gap, true));
    TwoRotations(l1, first, b, c, l1.known.value, now, gap);
    var l3 := Apply(Apply(l1, Arrive(b, now, gap, true)), Arrive(c, now, gap, true));
    Rotated(l3, l3.known.value, last, now, gap);
    ReplaySix(UNKNOWN, Arrive(first, now, gap, true), Arrive(b, now, gap, true), Arrive(c, now, gap, true),
              Arrive(last, now, gap, true), Arrive(first, now, gap, true), Forget);
    var sent := {last, first, b, c};
    assert last in sent && first in sent;
  }

  /** A nonce slot names one datagram, and a terminal frame has a prefix of its own. */
  predicate Labelled(sent: set<Datagram>) {
    forall a, b :: a in sent && b in sent && a.iv == b.iv ==>
      (a.counter == b.counter ==> a == b) && (IsTerminal(a) ==> a == b)
  }

  /** Regular datagrams of one prefix, of which the later has no later nonce. */
  predicate Falls(last: Datagram, first: Datagram) {
    !IsTerminal(last) && !IsTerminal(first) && last.iv == first.iv && last.counter < first.counter
    && last.nonce >= first.nonce
  }

  /** Wherever nonces fall in a prefix, two further prefixes lie between in nonce order. */
  ghost predicate Rich(sent: set<Datagram>) {
    forall last, first :: last in sent && first in sent && Falls(last, first) ==>
      exists b, c :: b in sent && c in sent && Rotation(first, b) && Rotation(b, c) && Rotation(first, c)
        && c.nonce < last.nonce
  }

  /** No delivery makes the guard accept one of them twice in one epoch. */
  ghost predicate NeverTwice(sent: set<Datagram>) {
    forall events :: Delivers(events, sent) ==> EpochsRise(Replay(UNKNOWN, events).history)
  }

  lemma FallsTwice(sent: set<Datagram>, last: Datagram, first: Datagram, b: Datagram, c: Datagram)
    requires last in sent && first in sent && b in sent && c in sent && Falls(last, first)
    requires Rotation(first, b) && Rotation(b, c) && Rotation(first, c) && c.nonce < last.nonce
    ensures !NeverTwice(sent)
  {
    WrapReplays(last, first, b, c, 0, 1);
    var events := [Arrive(first, 0, 1, true), Arrive(b, 0, 1, true), Arrive(c, 0, 1, true),
                   Arrive(last, 0, 1, true), Arrive(first, 0, 1, true), Forget];
    assert Delivers(events, sent);
    var h := Replay(UNKNOWN, events).history;
    assert h[0].d == h[4].d && h[0].epoch == h[4].epoch;
  }

  /** Given the sender's other labels, and prefixes enough to make the guard forget, rising
      nonces are exactly what keeps the guard from accepting a datagram twice in one epoch. */
  lemma NeverTwiceIff(sent: set<Datagram>)
    requires Labelled(sent) && Rich(sent)
    ensures NeverTwice(sent) <==> Genuine(sent)
  {
    if Genuine(sent) {
      forall events | Delivers(events, sent)
        ensures EpochsRise(Replay(UNKNOWN, events).history)
      {
        NoReplay(sent, events);
      }
    } else {
      var last, first :| last in sent && first in sent && Falls(last, first);
      var b, c :| b in sent && c in sent && Rotation(first, b) && Rotation(b, c) && Rotation(first, c)
        && c.nonce < last.nonce;
      FallsTwice(sent, last, first, b, c);
    }
  }
}
