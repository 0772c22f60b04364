/** A PCI transmit ring: descriptors that driver and hardware hand back and forth, and the queue of the
    frames they point to. */
module TxRing {

  type Skb = seq<bv8>

  /** Set `own` means the hardware's turn. */
  datatype Desc = Desc(own: bool, buffer: Skb)

  /** Position k counted from idx, around the ring. */
  function Slot(idx: nat, k: nat, entries: nat): (j: nat)
    requires idx < entries && k <= entries
    ensures j < entries
  {
    if idx + k < entries then idx + k else idx + k - entries
  }

  /** How far position j is from idx. */
  function Offset(idx: nat, j: nat, entries: nat): (k: nat)
    requires idx < entries && j < entries
    ensures k < entries && Slot(idx, k, entries) == j
    ensures forall k' :: 0 <= k' < entries && Slot(idx, k', entries) == j ==> k' == k
  {
    if idx <= j then j - idx else j + entries - idx
  }

  lemma {:induction false} SlotIsModulo(idx: nat, k: nat, entries: nat)
    requires idx < entries && k <= entries
    ensures (idx + k) % entries == Slot(idx, k, entries)
  {
    if idx + k < entries {
      SmallModulo(idx + k, entries);
    } else {
      SmallModulo(idx + k - entries, entries);
      assert (idx + k) % entries == (idx + k - entries) % entries by {
        assert idx + k == (idx + k - entries) + entries;
        AddModulo(idx + k - entries, entries);
      }
    }
  }

  lemma {:induction false} SmallModulo(a: nat, n: nat)
    requires a < n
    ensures a % n == a
  {
  }

  lemma {:induction false} AddModulo(a: nat, n: nat)
    requires a < n
    ensures (a + n) % n == a
  {
    assert (a + n) / n == 1;
  }

  lemma {:induction false} OffsetOfSlot(idx: nat, k: nat, entries: nat)
    requires idx < entries && k < entries
    ensures Offset(idx, Slot(idx, k, entries), entries) == k
  {
  }

  lemma {:induction false} SlotNext(idx: nat, k: nat, entries: nat)
    requires idx < entries && k < entries
    ensures Slot(idx, k + 1, entries) == Slot(Slot(idx, k, entries), 1, entries)
    ensures Slot(Slot(idx, 1, entries), k, entries) == Slot(idx, k + 1, entries)
    ensures Slot(idx, 0, entries) == idx
    ensures Slot(idx, entries, entries) == idx
  {
  }

  /** Seen from the next position everything is one step closer. */
  lemma {:induction false} OffsetNext(idx: nat, j: nat, entries: nat)
    requires idx < entries && j < entries
    ensures Offset(Slot(idx, 1, entries), j, entries)
         == if Offset(idx, j, entries) == 0 then entries - 1 else Offset(idx, j, entries) - 1
  {
  }

  /** What the descriptor at distance k from idx has to be. */
  predicate Fits(d: Desc, k: nat, queue: seq<Skb>, done: nat) {
    if k < |queue| then d == Desc(k >= done, queue[k]) else !d.own
  }

  /** Every descriptor is what it has to be. */
  ghost predicate Layout(descs: seq<Desc>, idx: nat, queue: seq<Skb>, done: nat, entries: nat)
    requires idx < entries == |descs|
  {
    forall j :: 0 <= j < entries ==> Fits(descs[j], Offset(idx, j, entries), queue, done)
  }

  lemma {:induction false} FreshLayout(descs: seq<Desc>, entries: nat)
    requires 0 < entries == |descs| && forall j :: 0 <= j < entries ==> descs[j] == Desc(false, [])
    ensures Layout(descs, 0, [], 0, entries)
  {
    hide Offset;
  }

  lemma {:induction false} LayoutNext(descs: seq<Desc>, idx: nat, queue: seq<Skb>, done: nat, entries: nat)
    requires idx < entries == |descs| && 0 < done <= |queue| <= entries && Layout(descs, idx, queue, done, entries)
    ensures Layout(descs, Slot(idx, 1, entries), queue[1..], done - 1, entries)
  {
    hide Slot, Offset, Fits;
    forall j | 0 <= j < entries
      ensures Fits(descs[j], Offset(Slot(idx, 1, entries), j, entries), queue[1..], done - 1)
    {
      OffsetNext(idx, j, entries);
      FitsNext(descs[j], Offset(idx, j, entries), queue, done, entries);
    }
  }

  lemma {:induction false} LayoutQueued(descs: seq<Desc>, idx: nat, queue: seq<Skb>, done: nat, entries: nat, skb: Skb)
    requires idx < entries == |descs| && done <= |queue| < entries && Layout(descs, idx, queue, done, entries)
    ensures Layout(descs[Slot(idx, |queue|, entries) := Desc(true, skb)], idx, queue + [skb], done, entries)
    ensures !descs[Slot(idx, |queue|, entries)].own
  {
    OffsetOfSlot(idx, |queue|, entries);
    hide Slot;
    assert Fits(descs[Slot(idx, |queue|, entries)], |queue|, queue, done);
  }

  lemma {:induction false} FullRing(descs: seq<Desc>, idx: nat, queue: seq<Skb>, done: nat, entries: nat)
    requires idx < entries == |descs| && done <= |queue| == entries && Layout(descs, idx, queue, done, entries)
    ensures descs[Slot(idx, entries, entries)].own <==> done == 0
  {
    hide Slot;
    OffsetOfSlot(idx, 0, entries);
    SlotNext(idx, 0, entries);
    assert Fits(descs[idx], 0, queue, done);
  }

  lemma {:induction false} LayoutCompleted(descs: seq<Desc>, idx: nat, queue: seq<Skb>, done: nat, entries: nat)
    requires idx < entries == |descs| && done <= |queue| <= entries && Layout(descs, idx, queue, done, entries)
    ensures var i := Slot(idx, done, entries);
            if done < |queue| then
              descs[i] == Desc(true, queue[done]) && Layout(descs[i := Desc(false, queue[done])], idx, queue, done + 1, entries)
            else !descs[i].own
  {
    hide Slot;
    if done < entries {
      OffsetOfSlot(idx, done, entries);
      assert Fits(descs[Slot(idx, done, entries)], done, queue, done);
    } else {
      OffsetOfSlot(idx, 0, entries);
      SlotNext(idx, 0, entries);
      assert Fits(descs[idx], 0, queue, done);
    }
  }

  lemma {:induction false} FitsNext(d: Desc, k: nat, queue: seq<Skb>, done: nat, entries: nat)
    requires Fits(d, k, queue, done) && 0 < done <= |queue| <= entries && k < entries
    ensures Fits(d, if k == 0 then entries - 1 else k - 1, queue[1..], done - 1)
  {
  }

  const WAKE_LEVEL := 4

  /** The ring as a queue: frames held, how many of them the hardware is done with, whether mac80211 is
      stopped; and the histories of frames queued, sent and reported back. */
  datatype Flow = Flow(entries: nat, queue: seq<Skb>, done: nat, stopped: bool, accepted: seq<Skb>, aired: seq<Skb>, reported: seq<Skb>)

  function Idle(entries: nat): Flow {
    Flow(entries, [], 0, false, [], [], [])
  }

  function Queued(f: Flow, skb: Skb): Flow {
    f.(queue := f.queue + [skb], accepted := f.accepted + [skb], stopped := f.stopped || f.entries - |f.queue + [skb]| < 2)
  }

  function Completed(f: Flow): Flow {
    if f.done < |f.queue| then f.(done := f.done + 1, aired := f.aired + [f.queue[f.done]]) else f
  }

  /** All that came back are reported; the first of them is the one that may be too many to wake up for. */
  function Reported(f: Flow): Flow
    requires f.done <= |f.queue|
  {
    f.(queue := f.queue[f.done..], done := 0, reported := f.reported + f.queue[..f.done],
       stopped := f.stopped && (f.done == 0 || f.entries - (|f.queue| - 1) > WAKE_LEVEL))
  }

  /** `struct rtl8192_tx_ring` with the mac80211 queue it serves, and the hardware behind it. */
  class TxRing {
    const entries: nat
    const desc: array<Desc>
    var idx: nat
    var queue: seq<Skb>
    var stopped: bool
    /** Frames whose transmission was reported back, in order. */
    var reported: seq<Skb>
    /** The hardware: where it will look next, and what it has sent. */
    var hwIdx: nat
    var aired: seq<Skb>
    /** Everything ever queued, and how many queued frames the hardware is done with. */
    ghost var accepted: seq<Skb>
    ghost var done: nat

    ghost predicate Shape()
      reads this
    {
      && 2 <= entries == desc.Length
      && idx < entries
      && |queue| <= entries
      && done <= |queue|
      && hwIdx == Slot(idx, done, entries)
      && accepted == reported + queue
      && |reported| + done <= |accepted|
      && aired == accepted[..|reported| + done]
    }

    ghost function FlowOf(): Flow
      reads this
    {
      Flow(entries, queue, done, stopped, accepted, aired, reported)
    }

    /** The k-th queued frame is always the one written to the k-th descriptor from idx on; the hardware
        owns exactly the descriptors of frames it has not sent. */
    ghost predicate Sound()
      reads this, desc
    {
      && Shape()
      && Layout(desc[..], idx, queue, done, entries)
    }

    /** Under a mac80211 queue that respects being stopped: it is stopped exactly when one descriptor is left. */
    ghost predicate Valid()
      reads this, desc
    {
      Sound() && |queue| < entries && (stopped <==> |queue| == entries - 1)
    }

    constructor (entries: nat)
      requires 2 <= entries
      ensures Valid() && FlowOf() == Idle(entries) && fresh(desc)
    {
      this.entries := entries;
      desc := new Desc[entries](_ => Desc(false, []));
      idx := 0;
      queue := [];
      stopped := false;
      reported := [];
      hwIdx := 0;
      aired := [];
      accepted := [];
      done := 0;
      new;
      hide Slot, Layout;
      FreshLayout(desc[..], entries);
      SlotNext(0, 0, entries);
    }

    /** `rtl_pci_tx`, up to telling the hardware to poll. A descriptor still owned by the hardware means busy.
        It goes wrong exactly when the ring is full and the hardware is done with the oldest frame. */
    method Tx(skb: Skb) returns (busy: bool)
      requires Sound()
      modifies this`queue, this`stopped, this`accepted, desc
      ensures busy <==> old(|queue|) == entries && old(done) == 0
      ensures if busy then FlowOf() == old(FlowOf()) && desc[..] == old(desc[..]) else FlowOf() == Queued(old(FlowOf()), skb)
      ensures !busy ==> desc[..] == old(desc[..])[Slot(idx, old(|queue|), entries) := Desc(true, skb)]
      ensures Sound() <==> old(|queue|) < entries || old(done) == 0
      ensures old(Valid()) && !old(stopped) ==> Valid()
    {
      hide Slot, Layout;
      ghost var descs := desc[..];
      SlotIsModulo(idx, |queue|, entries);
      var i := (idx + |queue|) % entries;
      if |queue| < entries {
        LayoutQueued(descs, idx, queue, done, entries, skb);
      } else {
        FullRing(descs, idx, queue, done, entries);
      }
      busy := desc[i].own;
      if busy {
        return;
      }
      desc[i] := Desc(false, skb);
      ghost var prefix := accepted[..|reported| + done];
      accepted := accepted + [skb];
      assert accepted[..|reported| + done] == prefix;
      queue := queue + [skb];
      desc[i] := desc[i].(own := true);
      assert desc[..] == descs[i := Desc(true, skb)];
      if entries - |queue| < 2 {
        stopped := true;
      }
    }

    /** The hardware sends the frame of the descriptor it looks at next, and gives the descriptor back. */
    method HwComplete()
      requires Sound()
      modifies this`hwIdx, this`aired, this`done, desc
      ensures Sound() && (old(Valid()) ==> Valid())
      ensures FlowOf() == Completed(old(FlowOf()))
    {
      hide Slot, Layout;
      ghost var descs := desc[..];
      LayoutCompleted(descs, idx, queue, done, entries);
      if desc[hwIdx].own {
        aired := aired + [desc[hwIdx].buffer];
        assert accepted[|reported| + done] == queue[done];
        assert accepted[..|reported| + done + 1] == accepted[..|reported| + done] + [queue[done]];
        SlotNext(idx, done, entries);
        SlotNext(hwIdx, 0, entries);
        desc[hwIdx] := desc[hwIdx].(own := false);
        assert desc[..] == descs[hwIdx := Desc(false, queue[done])];
        SlotIsModulo(hwIdx, 1, entries);
        hwIdx := (hwIdx + 1) % entries;
        done := done + 1;
      }
    }

    /** `_rtl_pci_tx_isr`: frames whose descriptors came back are reported, oldest first. */
    method TxIsr()
      requires Sound()
      modifies this`idx, this`queue, this`stopped, this`reported, this`done
      ensures Sound() && (old(Valid()) ==> Valid())
      ensures old(done) <= |old(queue)| && FlowOf() == Reported(old(FlowOf()))
    {
      hide Sound, Valid;
      DoneIsBounded();
      ghost var n := 0;
      ghost var f := FlowOf();
      while |queue| > 0
        invariant Sound() && (old(Valid()) ==> Valid())
        invariant n <= f.done <= |f.queue| && done == f.done - n
        invariant queue == f.queue[n..] && reported == f.reported + f.queue[..n]
        invariant stopped == (f.stopped && (n == 0 || entries - (|f.queue| - 1) > WAKE_LEVEL))
      {
        var closed := IsTxDescClosed();
        if !closed {
          return;
        }
        assert f.queue[..n + 1] == f.queue[..n] + [f.queue[n]];
        Reap();
        n := n + 1;
      }
    }

    lemma {:induction false} DoneIsBounded()
      requires Sound()
      ensures done <= |queue|
    {
    }

    /** The descriptor of the oldest frame has come back. */
    method IsTxDescClosed() returns (closed: bool)
      requires Sound() && 0 < |queue|
      ensures closed <==> 0 < done
    {
      hide Slot, Offset;
      OffsetOfSlot(idx, 0, entries);
      SlotNext(idx, 0, entries);
      assert Fits(desc[..][idx], 0, queue, done);
      closed := !desc[idx].own;
    }

    method Reap()
      requires Sound() && 0 < |queue| && 0 < done
      modifies this`idx, this`queue, this`stopped, this`reported, this`done
      ensures Sound() && (old(Valid()) ==> Valid())
      ensures done == old(done) - 1 && queue == old(queue)[1..] && reported == old(reported) + [old(queue)[0]]
      ensures stopped == (old(stopped) && entries - |queue| > WAKE_LEVEL)
    {
      hide Slot, Layout;
      SlotIsModulo(idx, 1, entries);
      SlotNext(idx, done - 1, entries);
      LayoutNext(desc[..], idx, queue, done, entries);
      assert reported + queue == reported + [queue[0]] + queue[1..];
      idx := (idx + 1) % entries;
      reported := reported + [queue[0]];
      queue := queue[1..];
      done := done - 1;
      if entries - |queue| <= WAKE_LEVEL {
        stopped := false;
      }
    }
  }

  /** A fresh ring after as many calls as it has descriptors. */
  method Filled(entries: nat, skb: Skb) returns (ring: TxRing)
    requires 2 <= entries
    ensures fresh(ring) && fresh(ring.desc) && ring.Sound() && ring.entries == entries
    ensures |ring.queue| == entries && ring.queue[0] == skb && ring.done == 0 && ring.reported == []
  {
    hide Slot, Layout;
    ring := new TxRing(entries);
    for i := 0 to entries
      invariant fresh(ring) && fresh(ring.desc) && ring.Sound() && ring.entries == entries
      invariant |ring.queue| == i && ring.done == 0 && ring.reported == []
      invariant i > 0 ==> ring.queue[0] == skb
    {
      var busy := ring.Tx(skb);
    }
  }

  /** A caller that does not respect the stop: it fills a fresh ring, the hardware finishes the oldest frame,
      and the next frame takes that frame's descriptor although the frame is still queued. */
  method Overrun(entries: nat, first: Skb, last: Skb) returns (ring: TxRing)
    requires 2 <= entries && first != last
    ensures fresh(ring) && ring.desc.Length == entries && ring.idx < entries
    ensures ring.queue != [] && ring.queue[0] == first && ring.reported == []
    ensures ring.desc[ring.idx] == Desc(true, last) && !ring.Sound()
  {
    hide Slot, Layout;
    ring := Filled(entries, first);
    ring.HwComplete();
    SlotNext(ring.idx, 0, entries);
    var busy := ring.Tx(last);
  }

  // ---------------------------------------------------------------------------------------------
  // Whole runs

  /** mac80211 offers a frame, and holds it back while the queue is stopped; the hardware finishes one;
      the interrupt comes. */
  datatype Event = Offer(skb: Skb) | HwDone | Interrupt

  ghost predicate Consistent(f: Flow) {
    && 2 <= f.entries
    && f.done <= |f.queue| < f.entries
    && (f.stopped <==> |f.queue| == f.entries - 1)
    && f.accepted == f.reported + f.queue
    && f.aired == f.accepted[..|f.reported| + f.done]
  }

  function Step(f: Flow, e: Event): Flow
    requires f.done <= |f.queue|
  {
    match e
    case Offer(skb) => if f.stopped then f else Queued(f, skb)
    case HwDone => Completed(f)
    case Interrupt => Reported(f)
  }

  function Run(f: Flow, es: seq<Event>): (r: Flow)
    requires f.done <= |f.queue|
    ensures r.done <= |r.queue|
  {
    if es == [] then f else Step(Run(f, es[..|es| - 1]), es[|es| - 1])
  }

  lemma {:induction false} StepConsistent(f: Flow, e: Event)
    requires Consistent(f)
    ensures Consistent(Step(f, e)) && Step(f, e).entries == f.entries
  {
    hide Consistent, Queued, Completed, Reported;
    StepBounds(f, e);
    match e
    case Offer(skb) =>
      if !f.stopped {
        QueuedConsistent(f, skb);
      }
    case HwDone =>
      CompletedConsistent(f);
    case Interrupt =>
      ReportedConsistent(f);
  }

  lemma {:induction false} StepBounds(f: Flow, e: Event)
    requires Consistent(f)
    ensures f.done <= |f.queue| && Step(f, e).entries == f.entries
  {
  }

  lemma {:induction false} QueuedConsistent(f: Flow, skb: Skb)
    requires Consistent(f) && !f.stopped
    ensures Consistent(Queued(f, skb))
  {
    assert (f.accepted + [skb])[..|f.reported| + f.done] == f.accepted[..|f.reported| + f.done];
    assert f.reported + f.queue + [skb] == f.reported + (f.queue + [skb]);
  }

  lemma {:induction false} CompletedConsistent(f: Flow)
    requires Consistent(f)
    ensures Consistent(Completed(f))
  {
    if f.done < |f.queue| {
      var n := |f.reported| + f.done;
      assert f.accepted[n] == f.queue[f.done];
      assert f.accepted[..n + 1] == f.accepted[..n] + [f.accepted[n]];
    }
  }

  lemma {:induction false} ReportedConsistent(f: Flow)
    requires Consistent(f)
    ensures Consistent(Reported(f))
  {
    assert f.queue == f.queue[..f.done] + f.queue[f.done..];
    assert f.reported + f.queue == f.reported + f.queue[..f.done] + f.queue[f.done..];
  }

  /** Over every run frames are sent and reported once each in the order they were queued, the ring never
      fills up, and mac80211 is stopped exactly while one descriptor is left. */
  lemma {:induction false} RunConsistent(entries: nat, es: seq<Event>)
    requires 2 <= entries
    ensures Consistent(Run(Idle(entries), es)) && Run(Idle(entries), es).entries == entries
    ensures var f := Run(Idle(entries), es);
            && f.accepted == f.reported + f.queue && f.aired == f.accepted[..|f.reported| + f.done]
            && |f.queue| < entries && (f.stopped <==> |f.queue| == entries - 1)
  {
    if es != [] {
      RunConsistent(entries, es[..|es| - 1]);
      StepConsistent(Run(Idle(entries), es[..|es| - 1]), es[|es| - 1]);
    }
  }

  /** Whenever a stopped ring's oldest frame is finished, the next interrupt wakes mac80211. */
  lemma {:induction false} InterruptWakes(f: Flow)
    requires Consistent(f) && f.done > 0
    ensures !Reported(f).stopped
  {
  }

  /** When mac80211 is stopped and woken, in any state: stopped by the frame that leaves at most one descriptor;
      woken by a report with at most four descriptors left behind the first frame that came back. */
  lemma {:induction false} StoppedAndWoken(f: Flow, skb: Skb)
    requires f.done <= |f.queue|
    ensures Queued(f, skb).accepted == f.accepted + [skb]
    ensures Queued(f, skb).stopped <==> f.stopped || f.entries <= |f.queue| + 2
    ensures Reported(f).stopped <==> f.stopped && (f.done > 0 ==> f.entries - |f.queue| > 3)
  {
  }

  function HwDones(f: Flow, n: nat): (r: Flow)
    requires f.done <= |f.queue|
    ensures r.done <= |r.queue|
  {
    if n == 0 then f else Completed(HwDones(f, n - 1))
  }

  lemma {:induction false} HwFinishes(f: Flow, n: nat)
    requires f.done <= |f.queue| && f.done + n <= |f.queue|
    ensures HwDones(f, n) == f.(done := f.done + n, aired := f.aired + f.queue[f.done..f.done + n])
  {
    if n > 0 {
      HwFinishes(f, n - 1);
      assert f.queue[f.done..f.done + n] == f.queue[f.done..f.done + n - 1] + [f.queue[f.done + n - 1]];
    }
  }

  /** From any reachable state, once the hardware has worked off what it owns one interrupt reports
      everything that was ever queued, and mac80211 may go on. */
  lemma {:induction false} Drains(entries: nat, es: seq<Event>)
    requires 2 <= entries
    ensures var f := Run(Idle(entries), es);
            var g := Reported(HwDones(f, |f.queue| - f.done));
            g.queue == [] && !g.stopped && g.reported == g.aired == g.accepted == f.accepted
  {
    RunConsistent(entries, es);
    var f := Run(Idle(entries), es);
    HwFinishes(f, |f.queue| - f.done);
    assert f.queue[..|f.queue|] == f.queue;
    assert f.accepted[..|f.reported| + f.done] + f.queue[f.done..] == f.accepted;
  }
}
