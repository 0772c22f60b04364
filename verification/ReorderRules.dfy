/** The release rule, stated without the walk over the buffer: which frames go out, which may be given up
    on, and what the timer is set to. */
module ReorderRules {
  import opened SequenceNumbers
  import opened ReorderSpec
  import opened ReorderTheorems
  import opened Wrappers

  /** Where releasing may end. With the head's frame there, exactly the run of frames at the head goes out.
      Without it, every frame that goes out is overdue or follows its predecessor, and the first frame left
      is neither. Nothing is given up behind the last frame that goes out. */
  ghost predicate StopsAt(w: Window, now: Jiffies, end: nat) {
    && w.head <= end <= w.head + 32
    && end !in w.slots
    && (end == w.head || end - 1 in w.slots)
    && if w.head in w.slots then forall u :: w.head <= u < end ==> u in w.slots
       else
         && (forall u :: u in w.slots && u < end ==> u - 1 in w.slots || !After(w.slots[u].due, now))
         && (forall u :: u in w.slots && end < u && Hole(w.slots, end, u) ==> After(w.slots[u].due, now))
  }

  /** There is no other place to stop. */
  lemma {:induction false} OneStop(w: Window, now: Jiffies, a: nat, b: nat)
    requires w.Valid() && StopsAt(w, now, a) && StopsAt(w, now, b)
    ensures a == b
  {
    StopsFirst(w, now, a, b);
    StopsFirst(w, now, b, a);
  }

  lemma {:induction false} StopsFirst(w: Window, now: Jiffies, a: nat, b: nat)
    requires w.Valid() && StopsAt(w, now, a) && StopsAt(w, now, b)
    ensures b <= a
  {
    hide After;
    if w.head !in w.slots && a < b {
      var u := BehindHole(w.slots, a, b);
    }
  }

  /** The first frame behind a hole. */
  lemma {:induction false} BehindHole(m: Slots, a: nat, b: nat) returns (u: nat)
    requires a < b && a !in m && b - 1 in m
    ensures a < u < b && u in m && u - 1 !in m && Hole(m, a, u)
  {
    NextIsFirst(m, a, b - 1);
    u := Next(m, a, b - 1);
  }

  lemma {:induction false} RunStops(w: Window, now: Jiffies)
    requires w.Valid() && w.head in w.slots
    ensures StopsAt(w, now, RunEnd(w.slots, w.head, w.head + BUFFER_SIZE))
  {
    hide After;
    RunEndIsHole(w.slots, w.head, w.head + BUFFER_SIZE);
  }

  /** The walk over holes, from any point on: frames before h obey the rule, and [h, p) is a hole. */
  lemma {:induction false} SkipStops(w: Window, h: nat, p: nat, now: Jiffies)
    requires w.Valid() && w.head !in w.slots && w.head <= h <= p <= w.head + BUFFER_SIZE && Hole(w.slots, h, p)
    requires h == w.head ==> h < p
    requires h == w.head || h - 1 in w.slots
    requires forall u :: u in w.slots && u < h ==> u - 1 in w.slots || !After(w.slots[u].due, now)
    ensures StopsAt(w, now, SkipEnd(w.slots, h, p, w.head + BUFFER_SIZE, now))
    decreases w.head + BUFFER_SIZE - p
  {
    hide After, StopsAt;
    if p == w.head + BUFFER_SIZE {
      StopsHere(w, h, p, now);
    } else if p !in w.slots {
      SkipStops(w, h, p + 1, now);
    } else if h < p && After(w.slots[p].due, now) {
      StopsHere(w, h, p, now);
    } else {
      SkipStops(w, p + 1, p + 1, now);
    }
  }

  /** The walk has come to the end, or to a frame that is not overdue. */
  lemma {:induction false} StopsHere(w: Window, h: nat, p: nat, now: Jiffies)
    requires w.Valid() && w.head !in w.slots && w.head <= h <= p <= w.head + BUFFER_SIZE && Hole(w.slots, h, p)
    requires h == p ==> p == w.head + BUFFER_SIZE
    requires h == w.head || h - 1 in w.slots
    requires forall u :: u in w.slots && u < h ==> u - 1 in w.slots || !After(w.slots[u].due, now)
    requires p < w.head + BUFFER_SIZE ==> p in w.slots && After(w.slots[p].due, now)
    ensures StopsAt(w, now, h)
  {
    hide After;
  }

  /** Releasing ends where the rule says, and nowhere else. */
  lemma {:induction false} ReleaseStopsExactly(w: Window, now: Jiffies, end: nat)
    requires w.Valid()
    ensures StopsAt(w, now, end) <==> end == Release(w, now).next.head
  {
    hide After;
    var e := ReleaseEnd(w, now);
    if w.head in w.slots {
      RunStops(w, now);
    } else {
      assert w.slots != map[] ==> e == SkipEnd(w.slots, w.head, w.head + 1, w.head + BUFFER_SIZE, now);
      SkipStops(w, w.head, w.head + 1, now);
    }
    if StopsAt(w, now, end) {
      OneStop(w, now, end, e);
    }
  }

  // ---------------------------------------------------------------------------------------------
  // What goes out and what stays

  ghost predicate Delivers(ds: seq<Delivery>, u: nat, f: Frame) {
    exists i :: 0 <= i < |ds| && ds[i] == Delivery(u, f)
  }

  lemma {:induction false} CollectDelivers(m: Slots, lo: nat, hi: nat, u: nat, f: Frame)
    ensures Delivers(Collect(m, lo, hi), u, f) <==> lo <= u < hi && u in m && m[u].frame == f
    decreases hi
  {
    if lo < hi {
      CollectDelivers(m, lo, hi - 1, u, f);
      var init, all := Collect(m, lo, hi - 1), Collect(m, lo, hi);
      if hi - 1 in m {
        assert all[|init|] == Delivery(hi - 1, m[hi - 1].frame);
      }
      assert all[..|init|] == init;
    }
  }

  /** A release delivers the frames in front of where it stops, and leaves the others as they are. */
  lemma {:induction false} ReleaseMoves(w: Window, now: Jiffies, u: nat, f: Frame)
    requires w.Valid()
    ensures var o := Release(w, now);
            && (Delivers(o.delivered, u, f) <==> u in w.slots && u < o.next.head && w.slots[u].frame == f)
            && (u in o.next.slots <==> u in w.slots && o.next.head <= u)
            && (u in o.next.slots ==> o.next.slots[u] == w.slots[u])
  {
    hide Collect, ReleaseEnd, After;
    CollectDelivers(w.slots, w.head, Release(w, now).next.head, u, f);
  }

  // ---------------------------------------------------------------------------------------------
  // An arriving frame

  /** How the window looks once it has moved, if it must, to put position u into its last place, and u is in. */
  function Admitted(w: Window, u: nat, f: Frame, due: Jiffies): Window {
    var head := if u < w.head + 32 then w.head else u - 31;
    Window(head, (map v | v in w.slots && head <= v :: w.slots[v])[u := Entry(f, due)])
  }

  /** A frame is dropped iff it lies more than half the number space ahead or its place is taken. Otherwise
      the window moves no further than it must, what it leaves behind goes out, and then the release rule
      holds; the frame in order that finds an empty window is no exception. */
  lemma {:induction false} ArriveRule(w: Window, f: Frame, now: Jiffies, timeout: nat, u: nat, g: Frame)
    requires w.Settled() && u == w.head + (f.sn - w.head) % 4096
    ensures var o := Arrive(w, f, now, timeout);
            && (o.dropped <==> u - w.head > 2048 || u in w.slots)
            && (o.dropped ==> o.next == w && o.delivered == [])
            && (!o.dropped ==>
                 var s := Admitted(w, u, f, (now + timeout) % 0x1_0000_0000);
                 && s.Valid()
                 && StopsAt(s, now, o.next.head)
                 && forall v: nat ::
                      && (Delivers(o.delivered, v, g) <==>
                           (v in w.slots && v < s.head && w.slots[v].frame == g)
                           || (v in s.slots && v < o.next.head && s.slots[v].frame == g))
                      && (v in o.next.slots <==> v in s.slots && o.next.head <= v)
                      && (v in o.next.slots ==> o.next.slots[v] == s.slots[v]))
  {
    hide After, Collect, ReleaseEnd, StopsAt, Delivers;
    AheadPosition(w, f.sn);
    if !Drops(w, f) {
      var s := Stored(w, f, now, timeout);
      StoredIsValid(w, f, now, timeout);
      assert s.slots == Admitted(w, u, f, (now + timeout) % 0x1_0000_0000).slots;
      FastPath(w, f, now, timeout, u);
      var r := Release(s, now);
      ReleaseStopsExactly(s, now, r.next.head);
      forall v: nat
        ensures Delivers(Collect(w.slots, w.head, s.head) + r.delivered, v, g)
                <==> (v in w.slots && v < s.head && w.slots[v].frame == g)
                     || (v in s.slots && v < r.next.head && s.slots[v].frame == g)
        ensures v in r.next.slots <==> v in s.slots && r.next.head <= v
        ensures v in r.next.slots ==> r.next.slots[v] == s.slots[v]
      {
        CollectDelivers(w.slots, w.head, s.head, v, g);
        ReleaseMoves(s, now, v, g);
        DeliversJoin(Collect(w.slots, w.head, s.head), r.delivered, v, g);
      }
    }
  }

  lemma {:induction false} DeliversJoin(a: seq<Delivery>, b: seq<Delivery>, u: nat, f: Frame)
    ensures Delivers(a + b, u, f) <==> Delivers(a, u, f) || Delivers(b, u, f)
  {
    var ab := a + b;
    if i :| 0 <= i < |b| && b[i] == Delivery(u, f) {
      assert ab[|a| + i] == b[i];
    }
    if i :| 0 <= i < |a| && a[i] == Delivery(u, f) {
      assert ab[i] == a[i];
    }
  }

  /** The frame in order that finds nothing buffered goes out as if it had been stored and released. */
  lemma {:induction false} FastPath(w: Window, f: Frame, now: Jiffies, timeout: nat, u: nat)
    requires w.Settled() && u == w.head + (f.sn - w.head) % 4096 && !Drops(w, f)
    ensures var o := Arrive(w, f, now, timeout);
            var s := Stored(w, f, now, timeout);
            var r := Release(s, now);
            && !o.dropped && o.next == r.next
            && o.delivered == Collect(w.slots, w.head, s.head) + r.delivered
  {
    hide After;
    AheadPosition(w, f.sn);
    if f.sn == Wrap(w.head) && w.slots == map[] {
      AheadTests(w, f.sn);
      assert u == w.head;
      var s := Stored(w, f, now, timeout);
      assert s.slots == map[u := Entry(f, Later(now, timeout))];
      assert RunEnd(s.slots, u + 1, u + BUFFER_SIZE) == u + 1;
      assert RunEnd(s.slots, u, u + BUFFER_SIZE) == u + 1;
      assert Collect(s.slots, u, u) == [];
    }
  }

  // ---------------------------------------------------------------------------------------------
  // The clock

  /** A moment is still to come iff the wrapping clock reaches it within half its range. */
  lemma {:induction false} StillToCome(now: Jiffies, ahead: nat)
    requires ahead < 0x1_0000_0000
    ensures After((now + ahead) % 0x1_0000_0000, now) <==> 0 < ahead <= 0x8000_0000
  {
  }

  /** The timer is set to one tick past the due time of the first buffered frame, or not at all. */
  lemma {:induction false} TimerRule(w: Window, u: nat)
    requires w.Valid()
    ensures TimerFor(w).None? <==> w.slots == map[]
    ensures u in w.slots && Hole(w.slots, w.head, u) ==> TimerFor(w) == Some((w.slots[u].due + 1) % 0x1_0000_0000)
  {
    var limit := w.head + BUFFER_SIZE;
    NextIsFirst(w.slots, w.head, limit);
    if u in w.slots && Hole(w.slots, w.head, u) {
      NextAcrossHole(w.slots, w.head, u, limit);
    }
    if v :| v in w.slots {
      assert Next(w.slots, w.head, limit) in w.slots;
    }
  }
}
