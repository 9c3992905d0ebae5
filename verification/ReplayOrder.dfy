/** No false alarms: what the replay guard makes of regular datagrams that arrive in the
    order they were sent, with any losses and at any times. */
module ReplayOrder {
  import opened Wrappers
  import opened ReplayGuard

  /** Of two datagrams with one prefix, the later has the later counter, and all between
      them have that prefix too. */
  predicate Laid(sent: seq<Datagram>, i: nat, j: nat)
    requires i < j < |sent|
  {
    sent[i].iv == sent[j].iv ==>
      sent[i].counter < sent[j].counter && forall m :: i <= m <= j ==> sent[m].iv == sent[j].iv
  }

  /** Regular datagrams in sending order: counters rise within a prefix, and a prefix once
      left is not used again; no prefix is all zeros. */
  predicate Layout(sent: seq<Datagram>) {
    && (forall i :: 0 <= i < |sent| ==> !IsTerminal(sent[i]) && sent[i].iv != NO_IV)
    && (forall i, j {:trigger Laid(sent, i, j)} :: 0 <= i < j < |sent| ==> Laid(sent, i, j))
  }

  /** The nonce at `j` is above all before it. */
  predicate Leads(sent: seq<Datagram>, j: nat)
    requires j < |sent|
  {
    forall i :: 0 <= i < j ==> sent[i].nonce < sent[j].nonce
  }

  predicate Rotates(sent: seq<Datagram>, j: nat)
    requires j < |sent|
  {
    j > 0 && sent[j - 1].iv != sent[j].iv
  }

  /** Every change of prefix comes with a nonce above all before it. */
  predicate RotationsLead(sent: seq<Datagram>) {
    forall j {:trigger Rotates(sent, j)} :: 0 <= j < |sent| ==> Rotates(sent, j) ==> Leads(sent, j)
  }

  predicate NoncesRise(sent: seq<Datagram>) {
    forall i, j :: 0 <= i < j < |sent| ==> sent[i].nonce < sent[j].nonce
  }

  // ---- losses -------------------------------------------------------------

  predicate Increasing(kept: seq<nat>, n: nat) {
    && (forall i :: 0 <= i < |kept| ==> kept[i] < n)
    && (forall i, j :: 0 <= i < j < |kept| ==> kept[i] < kept[j])
  }

  /** What is left of a stream when only the positions in `kept` get through. */
  function Pick<T>(sent: seq<T>, kept: seq<nat>): (p: seq<T>)
    requires Increasing(kept, |sent|)
    ensures |p| == |kept|
  {
    seq(|kept|, i requires 0 <= i < |kept| => sent[kept[i]])
  }

  /** Losses keep a layout, and rising nonces. */
  lemma LossKeepsLayout(sent: seq<Datagram>, kept: seq<nat>)
    requires Layout(sent) && Increasing(kept, |sent|)
    ensures Layout(Pick(sent, kept))
    ensures NoncesRise(sent) ==> NoncesRise(Pick(sent, kept))
  {
    var p := Pick(sent, kept);
    forall i, j | 0 <= i < j < |p|
      ensures Laid(p, i, j)
    {
      assert Laid(sent, kept[i], kept[j]);
    }
  }

  lemma RisingLeads(sent: seq<Datagram>)
    requires NoncesRise(sent)
    ensures RotationsLead(sent)
  {}

  // ---- the guard on a stream in order -------------------------------------

  /** The guard after the datagrams received so far, all accepted in one epoch. */
  ghost predicate UpToDate(s: Sender, sent: seq<Datagram>) {
    && sent != []
    && var last := sent[|sent| - 1];
       && s.iv == last.iv && s.lastCounter == last.counter && s.prevIv != s.iv
       && (s.prevIv == NO_IV || exists i :: 0 <= i < |sent| && sent[i].iv == s.prevIv)
       && (forall i :: 0 <= i < |sent| ==> sent[i].nonce <= s.maxRegular)
       && (s.maxRegular == 0 || exists i :: 0 <= i < |sent| && sent[i].nonce == s.maxRegular)
  }

  /** A prefix that is new now was never seen before. */
  lemma NotRemembered(s: Sender, sent: seq<Datagram>, d: Datagram)
    requires Layout(sent + [d]) && UpToDate(s, sent) && d.iv != s.iv
    ensures d.iv != s.prevIv
  {
    var all := sent + [d];
    assert all[|sent|] == d && all[|sent| - 1] == sent[|sent| - 1];
    forall i | 0 <= i < |sent|
      ensures sent[i].iv != d.iv
    {
      assert Laid(all, i, |sent|) && all[i] == sent[i];
    }
  }

  /** The next datagram joins the epoch exactly if it keeps the prefix or leads all nonces. */
  lemma NextJoinsIff(s: Sender, sent: seq<Datagram>, d: Datagram, now: nat, gap: nat, room: bool)
    requires Layout(sent + [d]) && UpToDate(s, sent)
    ensures Judge(Some(s), d, now, gap, room).1 == Accepted <==>
      (Rotates(sent + [d], |sent|) ==> Leads(sent + [d], |sent|))
  {
    var all := sent + [d];
    assert all[|sent|] == d && all[|sent| - 1] == sent[|sent| - 1];
    assert Laid(all, |sent| - 1, |sent|);
    assert !IsTerminal(d);
    if d.iv != s.iv {
      NotRemembered(s, sent, d);
      assert forall i :: 0 <= i < |sent| ==> all[i] == sent[i];
      if d.nonce <= s.maxRegular {
        assert !Leads(all, |sent|) by {
          if s.maxRegular == 0 {
            assert all[0].nonce >= d.nonce;
          } else {
            var i :| 0 <= i < |sent| && sent[i].nonce == s.maxRegular;
            assert all[i].nonce >= d.nonce;
          }
        }
      }
    }
  }

  lemma StaysUpToDate(s: Sender, sent: seq<Datagram>, d: Datagram, now: nat, gap: nat, room: bool)
    requires Layout(sent + [d]) && UpToDate(s, sent) && Judge(Some(s), d, now, gap, room).1 == Accepted
    ensures UpToDate(Judge(Some(s), d, now, gap, room).0.value, sent + [d])
  {
    var all, s' := sent + [d], Judge(Some(s), d, now, gap, room).0.value;
    assert all[|sent|] == d && !IsTerminal(d);
    assert forall i :: 0 <= i < |sent| ==> all[i] == sent[i];
    if d.iv != s.iv {
      NotRemembered(s, sent, d);
      assert all[|sent| - 1].iv == s'.prevIv;
    } else if s.prevIv != NO_IV {
      var i :| 0 <= i < |sent| && sent[i].iv == s.prevIv;
      assert all[i].iv == s'.prevIv;
    }
    if s'.maxRegular != d.nonce && s.maxRegular != 0 {
      var i :| 0 <= i < |sent| && sent[i].nonce == s.maxRegular;
      assert all[i].nonce == s'.maxRegular;
    }
  }

  /** Everything was accepted in the first epoch. */
  predicate AllInOne(history: seq<Entry>, sent: seq<Datagram>) {
    |history| == |sent| && forall i :: 0 <= i < |sent| ==> history[i].d == sent[i] && history[i].epoch == 1
  }

  ghost predicate Tracks(l: Lane, sent: seq<Datagram>) {
    && AllInOne(l.history, sent)
    && if sent == [] then l == UNKNOWN else l.epoch == 1 && l.known.Some? && UpToDate(l.known.value, sent)
  }

  /** Something was refused, or taken for the beginning of another epoch. */
  predicate IsOff(l: Lane, n: nat) {
    |l.history| < n || exists i :: 0 <= i < |l.history| && l.history[i].epoch != 1
  }

  lemma StaysOff(l: Lane, n: nat, e: Event)
    requires IsOff(l, n)
    ensures IsOff(Apply(l, e), n + 1)
  {
    if |l.history| >= n {
      var i :| 0 <= i < |l.history| && l.history[i].epoch != 1;
      assert Apply(l, e).history[i] == l.history[i];
    }
  }

  lemma FirstTracks(d: Datagram, now: nat, gap: nat)
    requires !IsTerminal(d) && d.iv != NO_IV
    ensures Tracks(Apply(UNKNOWN, Arrive(d, now, gap, true)), [d])
  {
    var s := Anew(d, now);
    assert [d][0].nonce == s.maxRegular;
  }

  lemma NextTracksIff(l: Lane, before: seq<Datagram>, d: Datagram, now: nat, gap: nat, room: bool)
    requires Layout(before + [d]) && Tracks(l, before) && before != []
    ensures if Rotates(before + [d], |before|) ==> Leads(before + [d], |before|)
      then Tracks(Apply(l, Arrive(d, now, gap, room)), before + [d])
      else IsOff(Apply(l, Arrive(d, now, gap, room)), |before| + 1)
  {
    NextJoinsIff(l.known.value, before, d, now, gap, room);
    var l' := Apply(l, Arrive(d, now, gap, room));
    if Judge(l.known, d, now, gap, room).1 == Accepted {
      StaysUpToDate(l.known.value, before, d, now, gap, room);
    } else if |l'.history| > |before| {
      assert l'.history[|before|].epoch == 2;
    }
  }

  lemma {:induction false} ReplayLast(l: Lane, events: seq<Event>, e: Event)
    ensures Replay(l, events + [e]) == Apply(Replay(l, events), e)
    decreases |events|
  {
    if events == [] {
      assert [e][1..] == [];
    } else {
      assert (events + [e])[1..] == events[1..] + [e];
      ReplayLast(Apply(l, events[0]), events[1..], e);
    }
  }

  /** Arrivals, each with its own time, and room for the first. */
  predicate AllArrive(events: seq<Event>) {
    (forall i :: 0 <= i < |events| ==> events[i].Arrive?) && (events != [] ==> events[0].room)
  }

  function Arriving(events: seq<Event>): (d: seq<Datagram>)
    requires AllArrive(events)
    ensures |d| == |events|
  {
    seq(|events|, i requires 0 <= i < |events| => events[i].d)
  }

  lemma LayoutInit(before: seq<Datagram>, d: Datagram)
    requires Layout(before + [d])
    ensures Layout(before)
    ensures RotationsLead(before + [d]) <==>
      RotationsLead(before) && (Rotates(before + [d], |before|) ==> Leads(before + [d], |before|))
  {
    var all := before + [d];
    forall i, j | 0 <= i < j < |before|
      ensures Laid(before, i, j)
    {
      assert Laid(all, i, j);
      assert forall m :: 0 <= m < |before| ==> all[m] == before[m];
    }
    forall j | 0 <= j < |before|
      ensures Rotates(before, j) == Rotates(all, j) && Leads(before, j) == Leads(all, j)
    {
      assert forall m :: 0 <= m < |before| ==> all[m] == before[m];
    }
    forall i | 0 <= i < |before|
      ensures !IsTerminal(before[i]) && before[i].iv != NO_IV
    {
      assert all[i] == before[i];
    }
  }

  lemma {:induction false} InOrderRun(events: seq<Event>)
    requires AllArrive(events) && Layout(Arriving(events))
    ensures var l := Replay(UNKNOWN, events);
      if RotationsLead(Arriving(events)) then Tracks(l, Arriving(events)) else IsOff(l, |events|)
    decreases |events|
  {
    if events != [] {
      var before, e := events[..|events| - 1], events[|events| - 1];
      var ds := Arriving(before);
      assert Arriving(events) == ds + [e.d] && events == before + [e];
      LayoutInit(ds, e.d);
      InOrderRun(before);
      ReplayLast(UNKNOWN, before, e);
      OneMore(Replay(UNKNOWN, before), ds, e);
    }
  }

  lemma OneMore(l: Lane, ds: seq<Datagram>, e: Event)
    requires e.Arrive? && (ds == [] ==> e.room) && Layout(ds + [e.d])
    requires if RotationsLead(ds) then Tracks(l, ds) else IsOff(l, |ds|)
    ensures if RotationsLead(ds + [e.d]) then Tracks(Apply(l, e), ds + [e.d]) else IsOff(Apply(l, e), |ds| + 1)
  {
    LayoutInit(ds, e.d);
    if !RotationsLead(ds) {
      StaysOff(l, |ds|, e);
    } else if ds == [] {
      assert (ds + [e.d])[0] == e.d && ds + [e.d] == [e.d];
      FirstTracks(e.d, e.now, e.gap);
    } else {
      NextTracksIff(l, ds, e.d, e.now, e.gap, e.room);
    }
  }

  /** Exactly when a stream in order is accepted in full and in one epoch, whenever its
      datagrams arrive: if every change of prefix comes with a nonce above all before it. */
  lemma InOrderAcceptedIff(events: seq<Event>)
    requires AllArrive(events) && Layout(Arriving(events))
    ensures AllInOne(Replay(UNKNOWN, events).history, Arriving(events)) <==> RotationsLead(Arriving(events))
  {
    InOrderRun(events);
  }

  /** So a stream with rising nonces is accepted in full, whatever was lost of it on the way
      and whenever the rest arrives. */
  lemma LossyAccepted(sent: seq<Datagram>, kept: seq<nat>, events: seq<Event>)
    requires Layout(sent) && NoncesRise(sent) && Increasing(kept, |sent|)
    requires AllArrive(events) && Arriving(events) == Pick(sent, kept)
    ensures AllInOne(Replay(UNKNOWN, events).history, Pick(sent, kept))
  {
    LossKeepsLayout(sent, kept);
    RisingLeads(Pick(sent, kept));
    InOrderAcceptedIff(events);
  }
}
