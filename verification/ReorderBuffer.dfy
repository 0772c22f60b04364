/** The reordering buffer as the driver keeps it: a ring of 32 slots in an array of 64. */
module ReorderBuffer {
  import opened SequenceNumbers
  import opened ReorderSpec
  import opened Wrappers

  /** C's `%` truncates toward zero. */
  function CRem(a: int, b: int): int
    requires b > 0
  {
    if a >= 0 then a % b else -((-a) % b)
  }

  const ARRAY_SIZE: nat := 64

  /** The ring index of an unwrapped position. */
  function SlotOf(u: int, ssn: int): (i: nat)
    ensures i < BUFFER_SIZE
  {
    (u - ssn) % BUFFER_SIZE
  }

  /** The index the driver computes from wrapped numbers is the slot of the unwrapped position. */
  lemma SlotOfIndex(u: int, ssn: int)
    ensures Sub(Wrap(u), ssn) % BUFFER_SIZE == SlotOf(u, ssn)
  {
    var x := u - ssn;
    assert Wrap(u) - ssn == x + MODULO * -(u / MODULO);
    WrapMultiple(x, -(u / MODULO));
    TurnMultiple(Wrap(x), 128 * (x / MODULO));
  }

  lemma TurnMultiple(r: int, k: int)
    ensures (r + BUFFER_SIZE * k) % BUFFER_SIZE == r % BUFFER_SIZE
  {
  }

  lemma SlotsDiffer(u: int, v: int, ssn: int)
    requires u < v <= u + BUFFER_SIZE
    ensures SlotOf(u, ssn) == SlotOf(v, ssn) <==> v == u + BUFFER_SIZE
  {
  }

  /** The one position of the window at h that maps to index i. */
  function PositionOf(h: nat, i: nat, ssn: int): (u: nat)
    requires i < BUFFER_SIZE
    ensures h <= u < h + BUFFER_SIZE && SlotOf(u, ssn) == i
  {
    h + (i - (h - ssn)) % BUFFER_SIZE
  }

  function NextIndex(j: nat): nat {
    (j + 1) % BUFFER_SIZE
  }

  /** The bound of the driver's search: the slot before the head's, or -1, which no index equals. */
  lemma LastIndex(h: int, p: int, ssn: int)
    requires h <= p < h + BUFFER_SIZE
    ensures SlotOf(p, ssn) == CRem(SlotOf(h, ssn) - 1, BUFFER_SIZE) ==> p == h + BUFFER_SIZE - 1
    ensures p == h + BUFFER_SIZE - 1 && SlotOf(h, ssn) > 0 ==> SlotOf(p, ssn) == CRem(SlotOf(h, ssn) - 1, BUFFER_SIZE)
  {
  }

  /** One turn of an index that walks round the ring from the slot of h. */
  lemma RingStep(h: int, p: int, ssn: int)
    requires h <= p < h + BUFFER_SIZE
    ensures NextIndex(SlotOf(p, ssn)) == SlotOf(p + 1, ssn)
    ensures SlotOf(p + 1, ssn) == SlotOf(h, ssn) <==> p + 1 == h + BUFFER_SIZE
  {
    SlotNext(p, ssn);
    SlotsDiffer(h, p + 1, ssn);
  }

  lemma SlotNext(u: int, ssn: int)
    ensures SlotOf(u + 1, ssn) == (SlotOf(u, ssn) + 1) % BUFFER_SIZE
    ensures SlotOf(u + BUFFER_SIZE, ssn) == SlotOf(u, ssn)
  {
  }

  class RxTid {
    const ssn: Sn
    const timeout: nat
    const reorderBuf: array<Option<Frame>>
    const reorderTime: array<Jiffies>
    var headSeq: Sn
    var len: nat
    var timer: Option<Jiffies>
    /** The abstract window this ring stands for. */
    ghost var view: Window

    ghost function Slot(u: int): nat {
      SlotOf(u, ssn)
    }

    /** Slot i holds exactly the frame of the one position in the window that maps to i. */
    ghost predicate Holds(u: nat)
      requires reorderBuf.Length == reorderTime.Length == ARRAY_SIZE
      reads `view, reorderBuf, reorderTime
    {
      if u in view.slots
      then reorderBuf[Slot(u)] == Some(view.slots[u].frame) && reorderTime[Slot(u)] == view.slots[u].due
      else reorderBuf[Slot(u)].None?
    }

    ghost predicate Valid()
      reads `headSeq, `len, `view, reorderBuf, reorderTime
    {
      Mirrors() && headSeq == Wrap(view.head) && len == |view.slots|
    }

    /** The arrays hold the window's frames and nothing else. */
    ghost predicate Mirrors()
      reads `view, reorderBuf, reorderTime
    {
      && reorderBuf.Length == reorderTime.Length == ARRAY_SIZE
      && view.Valid()
      && (forall u: nat :: view.head <= u < view.head + BUFFER_SIZE ==> Holds(u))
      && (forall i :: BUFFER_SIZE <= i < ARRAY_SIZE ==> reorderBuf[i].None?)
    }

    constructor (startingSequence: nat, timeout: nat)
      requires startingSequence < 0x1_0000
      ensures Valid() && fresh(reorderBuf) && fresh(reorderTime)
      ensures view == Window(startingSequence / 16, map[]) && timer == TimerFor(view)
      ensures this.timeout == timeout
    {
      ssn := startingSequence / 16;
      headSeq := startingSequence / 16;
      view := Window(startingSequence / 16, map[]);
      this.timeout := timeout;
      len := 0;
      timer := None;
      reorderBuf := new Option<Frame>[ARRAY_SIZE](_ => None);
      reorderTime := new Jiffies[ARRAY_SIZE](_ => 0);
    }

    method ReleaseFrame(index: nat, queue: seq<Frame>) returns (out: seq<Frame>)
      requires Valid() && index == Slot(view.head)
      modifies this`headSeq, this`len, this`view, reorderBuf
      ensures Valid()
      ensures view == Window(old(view.head) + 1, old(view.slots) - {old(view.head)})
      ensures out == queue + (if old(view.head) in old(view.slots) then [old(view.slots[view.head].frame)] else [])
    {
      hide SlotOf, Wrap, Less, Add, Sub, Hole;
      ghost var h, m := view.head, view.slots;
      out := queue;
      assert Holds(h);
      if reorderBuf[index].Some? {
        out := out + [reorderBuf[index].value];
        TakeOut(index, h);
      } else {
        assert m - {h} == m;
      }
      assert view == Window(h, m - {h});
      HoleGrows(view.slots, h, h);
      AdvanceHead(1);
    }

    method TakeOut(index: nat, ghost u: nat)
      requires Valid() && u in view.slots && index == Slot(u)
      modifies this`len, this`view, reorderBuf
      ensures Valid() && view == Window(old(view.head), old(view.slots) - {u})
    {
      hide SlotOf, Wrap;
      ghost var m := view.slots;
      len := len - 1;
      ClearSlot(index, u);
      assert view.slots.Keys == m.Keys - {u};
    }

    /** Exactly the buffered frames from h up to the present head have gone onto the queue. */
    ghost predicate Released(m: Slots, h: nat, queue: seq<Frame>, out: seq<Frame>)
      reads `headSeq, `len, `view, reorderBuf, reorderTime
    {
      && Valid()
      && h <= view.head
      && view.slots == From(m, view.head)
      && out == queue + Drain(m, h, view.head)
    }

    method ReleaseHead(index: nat, queue: seq<Frame>, ghost m: Slots, ghost h: nat, ghost start: seq<Frame>)
      returns (out: seq<Frame>)
      requires Released(m, h, start, queue) && index == Slot(view.head)
      modifies this`headSeq, this`len, this`view, reorderBuf
      ensures Released(m, h, start, out) && view.head == old(view.head) + 1
    {
      hide SlotOf, Drain, From, Wrap;
      ReleaseStep(m, h, view.head, view.head, start, queue);
      out := ReleaseFrame(index, queue);
    }

    /** `head_seq` jumps over a hole, and the frame behind it is released. */
    method ReleaseAcross(index: nat, skipped: nat, queue: seq<Frame>, ghost m: Slots, ghost h: nat, ghost start: seq<Frame>)
      returns (out: seq<Frame>)
      requires Released(m, h, start, queue) && skipped < BUFFER_SIZE && index == Slot(view.head + skipped)
      requires Hole(m, view.head, view.head + skipped)
      modifies this`headSeq, this`len, this`view, reorderBuf
      ensures Released(m, h, start, out) && view.head == old(view.head) + skipped + 1
    {
      hide SlotOf, Drain, From, Hole, Wrap;
      ReleaseStep(m, h, view.head, view.head + skipped, start, queue);
      AdvanceHead(skipped);
      out := ReleaseFrame(index, queue);
    }

    method ReleaseFrames(newHeadSeq: Sn, ghost newHead: nat, queue: seq<Frame>) returns (out: seq<Frame>)
      requires Valid() && newHeadSeq == Wrap(newHead) && view.head <= newHead < view.head + MODULO / 2
      modifies this`headSeq, this`len, this`view, reorderBuf
      ensures Released(old(view.slots), old(view.head), queue, out) && view.head == newHead
    {
      hide SlotOf, Wrap, Less, Add, Sub, Drain;
      ghost var h, m := view.head, view.slots;
      out := queue;
      LessIsUnwrappedLess(h, newHead);
      while Less(headSeq, newHeadSeq)
        invariant Released(m, h, queue, out) && view.head <= newHead
        invariant Less(headSeq, newHeadSeq) <==> view.head < newHead
        decreases newHead - view.head
      {
        SlotOfIndex(view.head, ssn);
        var index := Sub(headSeq, ssn) % BUFFER_SIZE;
        out := ReleaseHead(index, out, m, h, queue);
        LessIsUnwrappedLess(view.head, newHead);
      }
    }

    method AdvanceHead(skipped: nat)
      requires Valid() && skipped < BUFFER_SIZE
      requires Hole(view.slots, view.head, view.head + skipped)
      modifies this`headSeq, this`view
      ensures Valid() && view == Window(old(view.head) + skipped, old(view.slots))
    {
      hide SlotOf, Wrap, Less, Add, Sub;
      ghost var h, m := view.head, view.slots;
      WrapAdd(h, skipped);
      headSeq := Add(headSeq, skipped);
      view := Window(h + skipped, m);
      forall u: nat | view.head <= u < view.head + BUFFER_SIZE
        ensures Holds(u)
      {
        if u < h + BUFFER_SIZE {
          assert old(Holds(u));
        } else {
          assert old(Holds(u - BUFFER_SIZE));
          SlotNext(u - BUFFER_SIZE, ssn);
        }
      }
    }

    /** Releases the run of frames that starts at the head. */
    method ReleaseRun(queue: seq<Frame>) returns (out: seq<Frame>)
      requires Valid()
      modifies this`headSeq, this`len, this`view, reorderBuf
      ensures Released(old(view.slots), old(view.head), queue, out)
      ensures view.head == RunEnd(old(view.slots), old(view.head), old(view.head) + BUFFER_SIZE)
    {
      hide SlotOf, Wrap, Less, Add, Sub, Drain;
      ghost var h, m := view.head, view.slots;
      ghost var limit := h + BUFFER_SIZE;
      out := queue;
      SlotOfIndex(view.head, ssn);
      var index := Sub(headSeq, ssn) % BUFFER_SIZE;
      assert Holds(view.head);
      while reorderBuf[index].Some?
        invariant Released(m, h, queue, out) && view.head <= limit
        invariant index == Slot(view.head) && Holds(view.head)
        invariant RunEnd(m, view.head, limit) == RunEnd(m, h, limit)
        decreases limit - view.head
      {
        out := ReleaseHead(index, out, m, h, queue);
        SlotOfIndex(view.head, ssn);
        index := Sub(headSeq, ssn) % BUFFER_SIZE;
        assert Holds(view.head);
      }
    }

    /** Releases frames behind holes as long as they have waited long enough; `waiting` and `j` report
        the slot that has not. */
    method ReleasePastHoles(now: Jiffies, queue: seq<Frame>) returns (out: seq<Frame>, waiting: bool, j: nat)
      requires Valid() && view.head !in view.slots
      modifies this`headSeq, this`len, this`view, reorderBuf
      ensures Released(old(view.slots), old(view.head), queue, out)
      ensures view.head == SkipEnd(old(view.slots), old(view.head), old(view.head), old(view.head) + BUFFER_SIZE, now)
      ensures var n := Next(view.slots, view.head, view.head + BUFFER_SIZE);
              if waiting then n in view.slots && j == Slot(n) else view.slots == map[]
    {
      hide SlotOf, Wrap, Less, Add, Sub, Drain, NextIndex, SkipEnd, After, Next, Hole;
      ghost var h, m := view.head, view.slots;
      ghost var limit := h + BUFFER_SIZE;
      ghost var end := SkipEnd(m, h, h, limit, now);
      out := queue;
      waiting := false;
      SlotOfIndex(h, ssn);
      var index := Sub(headSeq, ssn) % BUFFER_SIZE;
      var skipped: nat := 1;
      ghost var p: nat := h + 1;
      RingStep(h, h, ssn);
      HoleGrows(m, h, h);
      SkipEndStep(m, h, h, limit, now);
      j := NextIndex(index);
      while j != index && !waiting
        invariant Released(m, h, queue, out) && view.head <= p <= limit && h < p
        invariant j == Slot(p) && (j == index <==> p == limit)
        invariant skipped == p - view.head
        invariant Hole(m, view.head, p)
        invariant SkipEnd(m, view.head, p, limit, now) == end
        invariant waiting ==> p < limit && p in m && view.head < p && After(m[p].due, now)
        decreases limit - p, !waiting
      {
        assert Holds(p);
        RingStep(h, p, ssn);
        SkipEndStep(m, view.head, p, limit, now);
        HoleGrows(m, view.head, p);
        if reorderBuf[j].None? {
          skipped := skipped + 1;
          j, p := NextIndex(j), p + 1;
        } else if skipped > 0 && After(reorderTime[j], now) {
          waiting := true;
        } else {
          out := ReleaseAcross(j, skipped, out, m, h, queue);
          HoleGrows(m, view.head, view.head);
          skipped := 0;
          j, p := NextIndex(j), p + 1;
        }
      }
      WalkStops(m, view.head, p, limit, now);
    }

    /** Sets the timer for the first buffered frame at or after the head. */
    method ArmTimer()
      requires Valid() && len > 0
      modifies this`timer
      ensures Valid() && timer == TimerFor(view)
    {
      hide SlotOf, Wrap, Less, Add, Sub, Drain, NextIndex;
      ghost var h := view.head;
      ghost var u :| u in view.slots;
      SlotOfIndex(h, ssn);
      var index := Sub(headSeq, ssn) % BUFFER_SIZE;
      var j := index;
      ghost var p: nat := h;
      assert Holds(h);
      while j != CRem(index - 1, BUFFER_SIZE) && reorderBuf[j].None?
        invariant h <= p < h + BUFFER_SIZE && j == Slot(p) && Holds(p)
        invariant Hole(view.slots, h, p)
        decreases h + BUFFER_SIZE - p
      {
        RingStep(h, p, ssn);
        HoleGrows(view.slots, h, p);
        assert p != u;
        j, p := NextIndex(j), p + 1;
        assert Holds(p);
      }
      LastIndex(h, p, ssn);
      assert p in view.slots;
      NextAcrossHole(view.slots, h, p, h + BUFFER_SIZE);
      timer := Some(Later(reorderTime[j], 1));
    }

    method StaRelease(now: Jiffies, queue: seq<Frame>) returns (out: seq<Frame>)
      requires Valid()
      modifies this`headSeq, this`len, this`timer, this`view, reorderBuf
      ensures Released(old(view.slots), old(view.head), queue, out)
      ensures view == Release(old(view), now).next
      ensures timer == TimerFor(view)
    {
      hide SlotOf, Wrap, Less, Add, Sub, Drain, NextIndex, SkipEnd, RunEnd, After;
      SlotOfIndex(view.head, ssn);
      var index := Sub(headSeq, ssn) % BUFFER_SIZE;
      assert Holds(view.head);
      if len > 0 && reorderBuf[index].None? {
        var waiting, j;
        out, waiting, j := ReleasePastHoles(now, queue);
        if waiting {
          assert Holds(Next(view.slots, view.head, view.head + BUFFER_SIZE));
          timer := Some(Later(reorderTime[j], 1));
        } else {
          timer := None;
        }
      } else {
        out := ReleaseRun(queue);
        if len > 0 {
          ArmTimer();
        } else {
          assert view.slots == map[];
          timer := None;
        }
      }
    }

    /** One received QoS data frame. */
    method Receive(frame: Frame, now: Jiffies, queue: seq<Frame>) returns (out: seq<Frame>, dropped: bool)
      requires Valid()
      modifies this`headSeq, this`len, this`timer, this`view, reorderBuf, reorderTime
      ensures Valid() && (old(timer == TimerFor(view)) ==> timer == TimerFor(view))
      ensures view == Arrive(old(view), frame, now, timeout).next
      ensures dropped == Arrive(old(view), frame, now, timeout).dropped
      ensures out == queue + Frames(Arrive(old(view), frame, now, timeout).delivered)
    {
      hide SlotOf, Wrap, Less, Add, Sub, Drain, NextIndex, Release, Arrive, Frames, Ahead;
      out := queue;
      dropped := false;
      ghost var w := view;
      ghost var u := w.head + Ahead(w, frame.sn);
      ghost var moved := MovedHead(w, u);
      WindowTests(w, frame.sn);
      if Less(frame.sn, headSeq) {
        ArriveDrops(w, frame, now, timeout);
        dropped := true;
        return;
      }
      if !Less(frame.sn, headSeq + BUFFER_SIZE) {
        out := ReleaseFrames(Inc(Sub(frame.sn, BUFFER_SIZE)), moved, queue);
      }
      assert view == Window(moved, From(w.slots, moved)) && out == queue + Drain(w.slots, w.head, moved);
      SlotOfIndex(u, ssn);
      var index := Sub(frame.sn, ssn) % BUFFER_SIZE;
      assert Holds(u);
      if reorderBuf[index].Some? {
        assert u in w.slots;
        ArriveDrops(w, frame, now, timeout);
        dropped := true;
        return;
      }
      if frame.sn == headSeq && len == 0 {
        WrapInjective(view.head, u);
        ArriveInOrder(w, frame, now, timeout);
        AdvanceEmpty(frame.sn);
        out := out + [frame];
      } else {
        Store(index, frame, Later(now, timeout), u);
        assert view == Stored(w, frame, now, timeout);
        ArriveBuffers(w, frame, now, timeout, queue);
        out := StaRelease(now, out);
      }
    }

    method AdvanceEmpty(sn: Sn)
      requires Valid() && sn == headSeq && len == 0
      modifies this`headSeq, this`view
      ensures Valid() && view == Window(old(view.head) + 1, map[])
    {
      hide SlotOf, Wrap, Less, Add, Sub;
      ghost var h := view.head;
      WrapAdd(h, 1);
      headSeq := Inc(sn);
      view := Window(h + 1, map[]);
      forall u: nat | view.head <= u < view.head + BUFFER_SIZE
        ensures Holds(u)
      {
        SlotNext(u - BUFFER_SIZE, ssn);
        assert old(Holds(if u < h + BUFFER_SIZE then u else h));
      }
    }

    method Store(index: nat, frame: Frame, due: Jiffies, ghost u: nat)
      requires Valid() && view.head <= u < view.head + BUFFER_SIZE && u !in view.slots
      requires index == Slot(u) && frame.sn == Wrap(u)
      modifies this`len, this`view, reorderBuf, reorderTime
      ensures Valid() && view == Window(old(view.head), old(view.slots)[u := Entry(frame, due)])
    {
      hide SlotOf, Wrap;
      ghost var h, m := view.head, view.slots;
      reorderBuf[index] := Some(frame);
      reorderTime[index] := due;
      len := len + 1;
      view := Window(h, m[u := Entry(frame, due)]);
      forall v: nat | h <= v < h + BUFFER_SIZE
        ensures Holds(v)
      {
        assert old(Holds(v));
        if v < u {
          SlotsDiffer(v, u, ssn);
        } else if u < v {
          SlotsDiffer(u, v, ssn);
        }
      }
    }

    /** The timer runs out. It is no longer pending; a connected station looks for overdue frames. */
    method TimerFires(connected: bool, now: Jiffies, queue: seq<Frame>) returns (out: seq<Frame>)
      requires Valid()
      modifies this`headSeq, this`len, this`timer, this`view, reorderBuf
      ensures Valid()
      ensures connected ==> view == Release(old(view), now).next && timer == TimerFor(view)
      ensures connected ==> out == queue + Frames(Release(old(view), now).delivered)
      ensures !connected ==> view == old(view) && timer == None && out == queue
    {
      hide Drain, Collect, Frames, ReleaseEnd, From;
      out := queue;
      timer := None;
      if connected {
        out := StaRelease(now, queue);
        DrainIsCollect(old(view.slots), old(view.head), view.head);
      }
    }

    /** The session ends: every buffered frame is freed, in the order of the array. */
    method Free() returns (freed: seq<Frame>)
      requires Valid()
      modifies this`len, this`timer, this`view, reorderBuf
      ensures Valid() && timer == None
      ensures view == Window(old(view.head), map[])
      ensures multiset(freed) == multiset(Drain(old(view.slots), old(view.head), old(view.head) + BUFFER_SIZE))
    {
      hide SlotOf, Wrap, Drain;
      ghost var h, m := view.head, view.slots;
      timer := None;
      len := 0;
      freed := [];
      var i := 0;
      while i < ARRAY_SIZE
        invariant 0 <= i <= ARRAY_SIZE
        invariant Mirrors() && view.head == h && headSeq == Wrap(h) && len == 0 && timer == None
        invariant forall u :: u in view.slots ==> i <= Slot(u)
        invariant multiset(freed) + multiset(Drain(view.slots, h, h + BUFFER_SIZE)) == multiset(Drain(m, h, h + BUFFER_SIZE))
      {
        if reorderBuf[i].Some? {
          ghost var u := FindPosition(i);
          DrainRemove(view.slots, h, h + BUFFER_SIZE, u);
          freed := freed + [reorderBuf[i].value];
          ClearSlot(i, u);
        } else {
          SlotIsFree(i);
        }
        i := i + 1;
      }
      assert view.slots == map[] by {
        assert forall u :: u in view.slots ==> Slot(u) < BUFFER_SIZE;
      }
      DrainHole(map[], h, h, h + BUFFER_SIZE);
    }

    lemma FindPosition(i: nat) returns (u: nat)
      requires Mirrors() && i < ARRAY_SIZE && reorderBuf[i].Some?
      ensures u in view.slots && Slot(u) == i && view.slots[u].frame == reorderBuf[i].value
      ensures forall v :: v in view.slots && Slot(v) == i ==> v == u
    {
      hide SlotOf;
      u := PositionOf(view.head, i, ssn);
      assert Holds(u);
      forall v | v in view.slots && v != u
        ensures Slot(v) != i
      {
        if v < u { SlotsDiffer(v, u, ssn); } else { SlotsDiffer(u, v, ssn); }
      }
    }

    lemma SlotIsFree(i: nat)
      requires Mirrors() && i < ARRAY_SIZE && reorderBuf[i].None?
      ensures forall v :: v in view.slots ==> Slot(v) != i
    {
      hide SlotOf;
      forall v | v in view.slots
        ensures Slot(v) != i
      {
        assert Holds(v);
      }
    }

    method ClearSlot(index: nat, ghost u: nat)
      requires Mirrors() && u in view.slots && index == Slot(u)
      modifies this`view, reorderBuf
      ensures Mirrors() && view == Window(old(view.head), old(view.slots) - {u})
      ensures reorderBuf[index].None?
    {
      hide SlotOf, Wrap;
      ghost var h, m := view.head, view.slots;
      reorderBuf[index] := None;
      view := Window(h, m - {u});
      forall v: nat | h <= v < h + BUFFER_SIZE
        ensures Holds(v)
      {
        assert old(Holds(v));
        if v < u {
          SlotsDiffer(v, u, ssn);
        } else if u < v {
          SlotsDiffer(u, v, ssn);
        }
      }
    }
  }
  /** `r92su_rx_reorder_ampdu`: frames of no aggregation session go straight onto the queue. */
  method RxReorderAmpdu(tid: RxTid?, frame: Frame, qosData: bool, now: Jiffies, queue: seq<Frame>)
    returns (out: seq<Frame>, dropped: bool)
    requires tid != null ==> tid.Valid()
    modifies if tid == null then {} else {tid, tid.reorderBuf, tid.reorderTime}
    ensures tid != null ==> tid.Valid()
    ensures !qosData || tid == null ==> out == queue + [frame] && !dropped
    ensures !qosData && tid != null ==> tid.view == old(tid.view) && tid.timer == old(tid.timer)
    ensures qosData && tid != null ==>
              var a := Arrive(old(tid.view), frame, now, tid.timeout);
              tid.view == a.next && dropped == a.dropped && out == queue + Frames(a.delivered)
    ensures tid != null && old(tid.timer == TimerFor(tid.view)) ==> tid.timer == TimerFor(tid.view)
  {
    if !qosData || tid == null {
      return queue + [frame], false;
    }
    out, dropped := tid.Receive(frame, now, queue);
  }
}
