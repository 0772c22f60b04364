/** Safety and usefulness of the reordering buffer over whole runs. */
module ReorderTheorems {
  import opened SequenceNumbers
  import opened ReorderSpec
  import opened Wrappers

  datatype Event = Arrival(frame: Frame, now: Jiffies) | Tick(now: Jiffies)

  function Step(w: Window, e: Event, timeout: nat): Outcome {
    match e
    case Arrival(f, now) => Arrive(w, f, now, timeout)
    case Tick(now) => Release(w, now)
  }

  datatype Trace = Trace(final: Window, delivered: seq<Delivery>, dropped: seq<Frame>)

  function Run(w: Window, es: seq<Event>, timeout: nat): Trace {
    if es == [] then Trace(w, [], [])
    else
      var t := Run(w, es[..|es| - 1], timeout);
      var e := es[|es| - 1];
      var o := Step(t.final, e, timeout);
      Trace(o.next, t.delivered + o.delivered, if o.dropped && e.Arrival? then t.dropped + [e.frame] else t.dropped)
  }

  // ---------------------------------------------------------------------------------------------
  // One step

  lemma {:induction false} RunEndIsHole(m: Slots, h: nat, limit: nat)
    requires h <= limit
    ensures h <= RunEnd(m, h, limit) <= limit
    ensures RunEnd(m, h, limit) == limit || RunEnd(m, h, limit) !in m
    ensures forall u :: h <= u < RunEnd(m, h, limit) ==> u in m
    decreases limit - h
  {
    if h < limit && h in m {
      RunEndIsHole(m, h + 1, limit);
    }
  }

  lemma {:induction false} SkipEndIsHole(m: Slots, h: nat, p: nat, limit: nat, now: Jiffies)
    requires h <= p <= limit && Hole(m, h, p)
    ensures h <= SkipEnd(m, h, p, limit, now) <= limit
    ensures SkipEnd(m, h, p, limit, now) == limit || SkipEnd(m, h, p, limit, now) !in m
    decreases limit - p
  {
    if p < limit {
      if p !in m {
        SkipEndIsHole(m, h, p + 1, limit, now);
      } else if !(h < p && After(m[p].due, now)) {
        SkipEndIsHole(m, p + 1, p + 1, limit, now);
      }
    }
  }

  lemma ReleaseSettles(w: Window, now: Jiffies)
    requires w.Valid()
    ensures Release(w, now).next.Settled()
    ensures w.head <= Release(w, now).next.head <= w.head + BUFFER_SIZE
  {
    RunEndIsHole(w.slots, w.head, w.head + BUFFER_SIZE);
    SkipEndIsHole(w.slots, w.head, w.head, w.head + BUFFER_SIZE, now);
  }

  lemma StoredIsValid(w: Window, f: Frame, now: Jiffies, timeout: nat)
    requires w.Settled() && !Drops(w, f)
    ensures Stored(w, f, now, timeout).Valid()
    ensures w.head <= Stored(w, f, now, timeout).head
  {
    AheadPosition(w, f.sn);
  }

  /** Every step keeps the window settled and never moves its head back. */
  lemma StepSettles(w: Window, e: Event, timeout: nat)
    requires w.Settled()
    ensures Step(w, e, timeout).next.Settled()
    ensures w.head <= Step(w, e, timeout).next.head
  {
    match e
    case Tick(now) =>
      ReleaseSettles(w, now);
    case Arrival(f, now) =>
      if !Drops(w, f) {
        StoredIsValid(w, f, now, timeout);
        ReleaseSettles(Stored(w, f, now, timeout), now);
      }
  }

  /** In order, each position once, each frame at the position its sequence number stands for. */
  ghost predicate InOrder(ds: seq<Delivery>, lo: nat, hi: nat) {
    && (forall i :: 0 <= i < |ds| ==> lo <= ds[i].position < hi && ds[i].frame.sn == Wrap(ds[i].position))
    && (forall i, j :: 0 <= i < j < |ds| ==> ds[i].position < ds[j].position)
  }

  lemma {:induction false} CollectInOrder(w: Window, lo: nat, hi: nat)
    requires w.Valid()
    ensures InOrder(Collect(w.slots, lo, hi), lo, hi)
    decreases hi
  {
    if lo < hi {
      CollectInOrder(w, lo, hi - 1);
    }
  }

  lemma InOrderJoin(a: seq<Delivery>, b: seq<Delivery>, lo: nat, mid: nat, hi: nat)
    requires InOrder(a, lo, mid) && InOrder(b, mid, hi) && lo <= mid <= hi
    ensures InOrder(a + b, lo, hi)
  {
  }

  lemma StepInOrder(w: Window, e: Event, timeout: nat)
    requires w.Settled()
    ensures InOrder(Step(w, e, timeout).delivered, w.head, Step(w, e, timeout).next.head)
  {
    hide Collect, ReleaseEnd, Wrap;
    StepSettles(w, e, timeout);
    match e
    case Tick(now) =>
      CollectInOrder(w, w.head, ReleaseEnd(w, now));
    case Arrival(f, now) =>
      AheadPosition(w, f.sn);
      if !Drops(w, f) {
        var s := Stored(w, f, now, timeout);
        var end := ReleaseEnd(s, now);
        StoredIsValid(w, f, now, timeout);
        ReleaseSettles(s, now);
        CollectInOrder(w, w.head, s.head);
        CollectInOrder(s, s.head, end);
        InOrderJoin(Collect(w.slots, w.head, s.head), Collect(s.slots, s.head, end), w.head, s.head, end);
      }
  }

  /** Over every run of arrivals and timer fires, however often the 12-bit numbers wrap, the frames
      delivered have strictly increasing positions and all lie behind the final head. */
  lemma {:induction false} RunInOrder(w: Window, es: seq<Event>, timeout: nat)
    requires w.Settled()
    ensures Run(w, es, timeout).final.Settled()
    ensures w.head <= Run(w, es, timeout).final.head
    ensures InOrder(Run(w, es, timeout).delivered, w.head, Run(w, es, timeout).final.head)
  {
    if es != [] {
      var before := es[..|es| - 1];
      var t := Run(w, before, timeout);
      var o := Step(t.final, es[|es| - 1], timeout);
      RunInOrder(w, before, timeout);
      StepSettles(t.final, es[|es| - 1], timeout);
      StepInOrder(t.final, es[|es| - 1], timeout);
      InOrderJoin(t.delivered, o.delivered, w.head, t.final.head, o.next.head);
    }
  }

  // ---------------------------------------------------------------------------------------------
  // Nothing is lost or duplicated

  function Buffered(w: Window): multiset<Frame> {
    multiset(Drain(w.slots, w.head, w.head + BUFFER_SIZE))
  }

  lemma {:induction false} DrainSplit(m: Slots, lo: nat, mid: nat, hi: nat)
    requires lo <= mid <= hi
    ensures Drain(m, lo, hi) == Drain(m, lo, mid) + Drain(m, mid, hi)
    decreases hi
  {
    if mid < hi {
      DrainSplit(m, lo, mid, hi - 1);
    }
  }

  /** The part of a window at or after `head`, seen from a window that starts there. */
  lemma BufferedFrom(w: Window, head: nat)
    requires w.Valid() && w.head <= head
    ensures Buffered(w) == multiset(Drain(w.slots, w.head, head)) + Buffered(Window(head, From(w.slots, head)))
  {
    hide Drain, Wrap;
    var n := From(w.slots, head);
    DrainAgree(w.slots, n, head, head + BUFFER_SIZE);
    DrainSplit(w.slots, w.head, head, head + BUFFER_SIZE);
    DrainHole(w.slots, w.head, w.head + BUFFER_SIZE, head + BUFFER_SIZE);
    var a, b := Drain(w.slots, w.head, head), Drain(n, head, head + BUFFER_SIZE);
    assert multiset(a + b) == multiset(a) + multiset(b);
  }

  lemma StoredKeepsAll(w: Window, f: Frame, now: Jiffies, timeout: nat)
    requires w.Settled() && !Drops(w, f)
    ensures var s := Stored(w, f, now, timeout);
            multiset(Drain(w.slots, w.head, s.head)) + Buffered(s) == Buffered(w) + multiset{f}
  {
    hide Drain, Wrap, Ahead;
    var s := Stored(w, f, now, timeout);
    var u := w.head + Ahead(w, f.sn);
    var rest := From(w.slots, s.head);
    BufferedFrom(w, s.head);
    DrainRemove(s.slots, s.head, s.head + BUFFER_SIZE, u);
    assert s.slots - {u} == rest;
    Regroup(multiset(Drain(w.slots, w.head, s.head)), multiset{f}, Buffered(Window(s.head, rest)));
  }

  lemma Regroup<T>(a: multiset<T>, b: multiset<T>, c: multiset<T>)
    ensures a + (b + c) == a + c + b
  {
  }

  lemma ReleaseKeepsAll(w: Window, now: Jiffies)
    requires w.Valid()
    ensures Buffered(w) == multiset(Frames(Release(w, now).delivered)) + Buffered(Release(w, now).next)
  {
    ReleaseSettles(w, now);
    BufferedFrom(w, ReleaseEnd(w, now));
    DrainIsCollect(w.slots, w.head, ReleaseEnd(w, now));
  }

  function Arrived(e: Event): seq<Frame> {
    if e.Arrival? then [e.frame] else []
  }

  function DroppedBy(e: Event, o: Outcome): seq<Frame> {
    if o.dropped then Arrived(e) else []
  }

  lemma StepConserves(w: Window, e: Event, timeout: nat)
    requires w.Settled()
    ensures var o := Step(w, e, timeout);
            Buffered(w) + multiset(Arrived(e)) == multiset(Frames(o.delivered)) + multiset(DroppedBy(e, o)) + Buffered(o.next)
  {
    hide Drain, ReleaseEnd, Stored, Ahead, Wrap;
    match e
    case Tick(now) =>
      ReleaseKeepsAll(w, now);
    case Arrival(f, now) =>
      if Drops(w, f) {
        ArriveDrops(w, f, now, timeout);
      } else if f.sn == Wrap(w.head) && w.slots == map[] {
        ArriveInOrder(w, f, now, timeout);
        DrainHole(map[], w.head, w.head, w.head + BUFFER_SIZE);
        DrainHole(map[], w.head + 1, w.head + 1, w.head + 1 + BUFFER_SIZE);
      } else {
        var s := Stored(w, f, now, timeout);
        StoredIsValid(w, f, now, timeout);
        StoredKeepsAll(w, f, now, timeout);
        ReleaseKeepsAll(s, now);
        DrainIsCollect(s.slots, s.head, ReleaseEnd(s, now));
        ArriveBuffers(w, f, now, timeout, []);
      }
  }

  function ArrivedIn(es: seq<Event>): seq<Frame> {
    if es == [] then [] else ArrivedIn(es[..|es| - 1]) + Arrived(es[|es| - 1])
  }

  lemma Balance<T>(b0: multiset<T>, a: multiset<T>, d: multiset<T>, x: multiset<T>, b1: multiset<T>,
                   a': multiset<T>, d': multiset<T>, x': multiset<T>, b2: multiset<T>)
    requires b0 + a == d + x + b1 && b1 + a' == d' + x' + b2
    ensures b0 + (a + a') == (d + d') + (x + x') + b2
  {
    forall f: T
      ensures (b0 + (a + a'))[f] == ((d + d') + (x + x') + b2)[f]
    {
      assert (b0 + a)[f] == (d + x + b1)[f] && (b1 + a')[f] == (d' + x' + b2)[f];
    }
  }

  lemma RunGrows(w: Window, es: seq<Event>, timeout: nat)
    requires es != []
    ensures var e := es[|es| - 1];
            var t := Run(w, es[..|es| - 1], timeout);
            var o := Step(t.final, e, timeout);
            && Run(w, es, timeout).final == o.next
            && multiset(Frames(Run(w, es, timeout).delivered)) == multiset(Frames(t.delivered)) + multiset(Frames(o.delivered))
            && multiset(Run(w, es, timeout).dropped) == multiset(t.dropped) + multiset(DroppedBy(e, o))
            && multiset(ArrivedIn(es)) == multiset(ArrivedIn(es[..|es| - 1])) + multiset(Arrived(e))
  {
    hide Step;
    var t := Run(w, es[..|es| - 1], timeout);
    var o := Step(t.final, es[|es| - 1], timeout);
    assert Frames(t.delivered + o.delivered) == Frames(t.delivered) + Frames(o.delivered);
  }

  /** Over every run each received frame is delivered, dropped or still buffered: exactly one of them,
      exactly once. */
  lemma {:induction false} RunConserves(w: Window, es: seq<Event>, timeout: nat)
    requires w.Settled()
    ensures var t := Run(w, es, timeout);
            Buffered(w) + multiset(ArrivedIn(es)) == multiset(Frames(t.delivered)) + multiset(t.dropped) + Buffered(t.final)
  {
    if es != [] {
      hide Run, Step, Buffered, Arrived, ArrivedIn, Frames, DroppedBy;
      var before := es[..|es| - 1];
      var e := es[|es| - 1];
      var t := Run(w, before, timeout);
      var o := Step(t.final, e, timeout);
      RunConserves(w, before, timeout);
      RunInOrder(w, before, timeout);
      StepConserves(t.final, e, timeout);
      RunGrows(w, es, timeout);
      Balance(Buffered(w), multiset(ArrivedIn(before)), multiset(Frames(t.delivered)), multiset(t.dropped), Buffered(t.final),
              multiset(Arrived(e)), multiset(Frames(o.delivered)), multiset(DroppedBy(e, o)), Buffered(o.next));
    }
  }

  /** A frame is dropped exactly when its number precedes the head or is already buffered; a drop
      releases nothing and changes nothing, so discarding the release queue loses no frame. */
  lemma DroppedExactly(w: Window, f: Frame, now: Jiffies, timeout: nat)
    requires w.Settled()
    ensures var o := Arrive(w, f, now, timeout);
            && (o.dropped <==> Less(f.sn, Wrap(w.head)) || exists u :: u in w.slots && w.slots[u].frame.sn == f.sn)
            && (o.dropped ==> o.delivered == [] && o.next == w)
  {
    hide Wrap;
    AheadPosition(w, f.sn);
    AheadTests(w, f.sn);
    var u := w.head + Ahead(w, f.sn);
    if v :| v in w.slots && w.slots[v].frame.sn == f.sn {
      if u <= v { WrapInjective(u, v); } else { WrapInjective(v, u); }
    }
  }

  // ---------------------------------------------------------------------------------------------
  // The timer

  lemma {:induction false} SkipAcrossHole(m: Slots, h: nat, p: nat, u: nat, limit: nat, now: Jiffies)
    requires h <= p <= u <= limit && Hole(m, p, u)
    ensures SkipEnd(m, h, p, limit, now) == SkipEnd(m, h, u, limit, now)
    decreases u - p
  {
    if p < u {
      SkipAcrossHole(m, h, p + 1, u, limit, now);
    }
  }

  lemma {:induction false} NextIsFirst(m: Slots, p: nat, limit: nat)
    requires p <= limit
    ensures p <= Next(m, p, limit) <= limit && Hole(m, p, Next(m, p, limit))
    ensures Next(m, p, limit) == limit || Next(m, p, limit) in m
    decreases limit - p
  {
    if p < limit && p !in m {
      NextIsFirst(m, p + 1, limit);
    }
  }

  lemma {:induction false} CollectFirst(m: Slots, lo: nat, n: nat, hi: nat)
    requires lo <= n < hi && Hole(m, lo, n) && n in m
    ensures Collect(m, lo, hi) != [] && Collect(m, lo, hi)[0] == Delivery(n, m[n].frame)
    decreases hi
  {
    if n == hi - 1 {
      CollectHole(m, lo, lo, n);
    } else {
      CollectFirst(m, lo, n, hi - 1);
    }
  }

  lemma {:induction false} CollectHole(m: Slots, lo: nat, mid: nat, hi: nat)
    requires lo <= mid <= hi && Hole(m, mid, hi)
    ensures Collect(m, lo, hi) == Collect(m, lo, mid)
  {
    if mid < hi {
      CollectHole(m, lo, mid, hi - 1);
    }
  }

  lemma Overdue(due: Jiffies, late: nat)
    requires late < TICKS / 2 - 1
    ensures !After(due, Later(Later(due, 1), late))
  {
  }

  /** The timer is pending exactly while frames are buffered, and whenever it runs out, however late
      within half the clock's range, at least the first buffered frame is delivered. */
  lemma TimerMakesProgress(w: Window, late: nat)
    requires w.Settled() && late < TICKS / 2 - 1
    ensures TimerFor(w).Some? <==> w.slots != map[]
    ensures TimerFor(w).Some? ==>
              var first := Next(w.slots, w.head, w.head + BUFFER_SIZE);
              var r := Release(w, Later(TimerFor(w).value, late));
              first in w.slots && r.delivered != [] && r.delivered[0] == Delivery(first, w.slots[first].frame)
  {
    hide After, Later;
    var limit := w.head + BUFFER_SIZE;
    var first := Next(w.slots, w.head, limit);
    NextIsFirst(w.slots, w.head, limit);
    if w.slots != map[] {
      var u :| u in w.slots;
      assert first in w.slots;
      var now := Later(TimerFor(w).value, late);
      Overdue(w.slots[first].due, late);
      SkipAcrossHole(w.slots, w.head, w.head, first, limit, now);
      SkipEndIsHole(w.slots, first + 1, first + 1, limit, now);
      CollectFirst(w.slots, w.head, first, ReleaseEnd(w, now));
    }
  }
}
