/** What the A-MPDU receive reordering buffer of one traffic identifier means:
    a window over unwrapped sequence numbers, with no ring and no wrap-around. */
module ReorderSpec {
  import opened SequenceNumbers
  import opened Wrappers

  const BUFFER_SIZE: int := 32

  /** Ticks of the kernel's wrapping clock. */
  const TICKS: nat := 0x1_0000_0000
  type Jiffies = n: nat | n < TICKS

  /** `time_is_after_jiffies(t)` */
  predicate After(t: Jiffies, now: Jiffies) {
    (now - t) % TICKS >= TICKS / 2
  }

  function Later(t: Jiffies, ticks: nat): Jiffies {
    (t + ticks) % TICKS
  }

  /** A received MPDU: its identity and the sequence number in its header. */
  datatype Frame = Frame(id: int, sn: Sn)

  datatype Entry = Entry(frame: Frame, due: Jiffies)

  type Slots = map<nat, Entry>

  /** `head` counts sequence numbers without wrapping; `slots` is keyed by such numbers. */
  datatype Window = Window(head: nat, slots: Slots) {
    ghost predicate Valid() {
      forall u :: u in slots ==> head <= u < head + BUFFER_SIZE && slots[u].frame.sn == Wrap(u)
    }

    /** What holds between steps: the frame at the head is the one still missing. */
    ghost predicate Settled() {
      Valid() && head !in slots
    }
  }

  /** Nothing is buffered in [lo, hi). */
  ghost predicate Hole(m: Slots, lo: nat, hi: nat) {
    forall u :: lo <= u < hi ==> u !in m
  }

  lemma HoleGrows(m: Slots, lo: nat, hi: nat)
    ensures Hole(m, lo, lo)
    ensures hi !in m && Hole(m, lo, hi) ==> Hole(m, lo, hi + 1)
  {
  }

  datatype Delivery = Delivery(position: nat, frame: Frame)

  /** The buffered frames at positions in [lo, hi), in order. */
  function Collect(m: Slots, lo: nat, hi: nat): seq<Delivery> {
    if hi <= lo then []
    else Collect(m, lo, hi - 1) + (if hi - 1 in m then [Delivery(hi - 1, m[hi - 1].frame)] else [])
  }

  /** The frames alone, as they go onto the driver's queue. */
  function Drain(m: Slots, lo: nat, hi: nat): (r: seq<Frame>)
    ensures hi <= lo ==> r == []
  {
    if hi <= lo then [] else Drain(m, lo, hi - 1) + (if hi - 1 in m then [m[hi - 1].frame] else [])
  }

  function Frames(ds: seq<Delivery>): (r: seq<Frame>)
    ensures |r| == |ds| && forall i :: 0 <= i < |ds| ==> r[i] == ds[i].frame
  {
    seq(|ds|, i requires 0 <= i < |ds| => ds[i].frame)
  }

  lemma {:induction false} DrainIsCollect(m: Slots, lo: nat, hi: nat)
    ensures Drain(m, lo, hi) == Frames(Collect(m, lo, hi))
  {
    if lo < hi {
      DrainIsCollect(m, lo, hi - 1);
    }
  }

  lemma {:induction false} DrainHole(m: Slots, lo: nat, mid: nat, hi: nat)
    requires lo <= mid <= hi
    requires Hole(m, mid, hi)
    ensures Drain(m, lo, hi) == Drain(m, lo, mid)
  {
    if mid < hi {
      DrainHole(m, lo, mid, hi - 1);
    }
  }

  lemma {:induction false} DrainRemove(m: Slots, lo: nat, hi: nat, u: nat)
    requires lo <= u < hi && u in m
    ensures multiset(Drain(m, lo, hi)) == multiset{m[u].frame} + multiset(Drain(m - {u}, lo, hi))
  {
    hide Drain;
    var n := m - {u};
    DrainLast(m, lo, hi);
    DrainLast(n, lo, hi);
    if u == hi - 1 {
      DrainAgree(m, n, lo, hi - 1);
    } else {
      DrainRemove(m, lo, hi - 1, u);
      assert hi - 1 in n <==> hi - 1 in m;
    }
  }

  lemma DrainLast(m: Slots, lo: nat, hi: nat)
    requires lo < hi
    ensures multiset(Drain(m, lo, hi)) ==
            multiset(Drain(m, lo, hi - 1)) + (if hi - 1 in m then multiset{m[hi - 1].frame} else multiset{})
  {
  }

  lemma {:induction false} DrainAgree(m: Slots, n: Slots, lo: nat, hi: nat)
    requires forall v :: lo <= v < hi ==> (v in m <==> v in n) && (v in m ==> m[v] == n[v])
    ensures Drain(m, lo, hi) == Drain(n, lo, hi)
  {
    if lo < hi {
      DrainAgree(m, n, lo, hi - 1);
    }
  }

  function From(m: Slots, head: nat): Slots {
    map u | u in m && head <= u :: m[u]
  }

  /** Releasing position p across a hole, when everything before head is already on the queue. */
  lemma ReleaseStep(m: Slots, lo: nat, head: nat, p: nat, start: seq<Frame>, queue: seq<Frame>)
    requires lo <= head <= p && queue == start + Drain(m, lo, head)
    requires Hole(m, head, p)
    ensures From(m, head) - {p} == From(m, p + 1) && Hole(From(m, head), head, p)
    ensures queue + (if p in From(m, head) then [From(m, head)[p].frame] else []) == start + Drain(m, lo, p + 1)
  {
    DrainHole(m, lo, head, p);
    var last := if p in m then [m[p].frame] else [];
    assert start + Drain(m, lo, p) + last == start + (Drain(m, lo, p) + last);
  }

  /** End of the run of buffered frames that starts at h. */
  function RunEnd(m: Slots, h: nat, limit: nat): nat
    decreases limit - h
  {
    if h < limit && h in m then RunEnd(m, h + 1, limit) else h
  }

  /** Where releasing stops when holes may be given up. [h, p) is the hole being crossed; it may be
      crossed if the frame behind it has waited long enough. */
  function SkipEnd(m: Slots, h: nat, p: nat, limit: nat, now: Jiffies): nat
    decreases limit - p
  {
    if limit <= p then h
    else if p !in m then SkipEnd(m, h, p + 1, limit, now)
    else if h < p && After(m[p].due, now) then h
    else SkipEnd(m, p + 1, p + 1, limit, now)
  }

  lemma SkipEndStep(m: Slots, h: nat, p: nat, limit: nat, now: Jiffies)
    ensures limit <= p ==> SkipEnd(m, h, p, limit, now) == h
    ensures p < limit && p !in m ==> SkipEnd(m, h, p, limit, now) == SkipEnd(m, h, p + 1, limit, now)
    ensures p < limit && p in m && h < p && After(m[p].due, now) ==> SkipEnd(m, h, p, limit, now) == h
    ensures p < limit && p in m && !(h < p && After(m[p].due, now)) ==>
              SkipEnd(m, h, p, limit, now) == SkipEnd(m, p + 1, p + 1, limit, now)
  {
  }

  /** What is left when the walk over [h, limit) has stopped at p. */
  lemma WalkStops(m: Slots, h: nat, p: nat, limit: nat, now: Jiffies)
    requires h <= p <= limit <= h + BUFFER_SIZE && Hole(m, h, p)
    requires forall u :: u in m ==> u < limit
    requires p < limit ==> p in m && h < p && After(m[p].due, now)
    ensures SkipEnd(m, h, p, limit, now) == h
    ensures if p < limit then Next(From(m, h), h, h + BUFFER_SIZE) == p && p in From(m, h)
            else From(m, h) == map[]
  {
    if p < limit {
      NextAcrossHole(From(m, h), h, p, h + BUFFER_SIZE);
    }
  }

  function ReleaseEnd(w: Window, now: Jiffies): nat {
    if w.slots != map[] && w.head !in w.slots
    then SkipEnd(w.slots, w.head, w.head, w.head + BUFFER_SIZE, now)
    else RunEnd(w.slots, w.head, w.head + BUFFER_SIZE)
  }

  datatype Outcome = Outcome(next: Window, delivered: seq<Delivery>, dropped: bool)

  function Release(w: Window, now: Jiffies): Outcome {
    var end := ReleaseEnd(w, now);
    Outcome(Window(end, From(w.slots, end)), Collect(w.slots, w.head, end), false)
  }

  /** How far a sequence number is ahead of the head. */
  function Ahead(w: Window, sn: Sn): nat {
    (sn - w.head) % MODULO
  }

  /** First buffered position at or after p. */
  function Next(m: Slots, p: nat, limit: nat): nat
    decreases limit - p
  {
    if limit <= p || p in m then p else Next(m, p + 1, limit)
  }

  lemma {:induction false} NextAcrossHole(m: Slots, p: nat, u: nat, limit: nat)
    requires p <= u <= limit
    requires Hole(m, p, u)
    ensures Next(m, p, limit) == Next(m, u, limit)
    decreases u - p
  {
    if p < u {
      NextAcrossHole(m, p + 1, u, limit);
    }
  }

  /** The deadline a window needs: one tick past the first buffered frame's due time. */
  function TimerFor(w: Window): Option<Jiffies> {
    var u := Next(w.slots, w.head, w.head + BUFFER_SIZE);
    if u in w.slots then Some(Later(w.slots[u].due, 1)) else None
  }

  function Max(a: int, b: int): int { if a < b then b else a }

  /** The head after moving the window just far enough to admit position u. */
  function MovedHead(w: Window, u: nat): nat {
    Max(w.head, u - BUFFER_SIZE + 1)
  }

  /** The driver's wrapped comparisons, in terms of how far ahead the frame is. */
  lemma WindowTests(w: Window, sn: Sn)
    ensures Wrap(w.head + Ahead(w, sn)) == sn
    ensures Less(sn, Wrap(w.head)) <==> Ahead(w, sn) > MODULO / 2
    ensures Ahead(w, sn) <= MODULO / 2 ==>
              (Less(sn, Wrap(w.head) + BUFFER_SIZE) <==> Ahead(w, sn) < BUFFER_SIZE)
    ensures Inc(Sub(sn, BUFFER_SIZE)) == Wrap(w.head + Ahead(w, sn) - BUFFER_SIZE + 1)
    ensures sn == Wrap(w.head) <==> Ahead(w, sn) == 0
  {
    AheadPosition(w, sn);
    AheadTests(w, sn);
    if Ahead(w, sn) <= MODULO / 2 {
      LimitTest(w, sn);
    }
    hide Wrap, Ahead, Less;
    WrapAdd(w.head + Ahead(w, sn), 0 - BUFFER_SIZE);
    WrapAdd(w.head + Ahead(w, sn) - BUFFER_SIZE, 1);
  }

  lemma AheadTests(w: Window, sn: Sn)
    ensures Less(sn, Wrap(w.head)) <==> Ahead(w, sn) > MODULO / 2
    ensures sn == Wrap(w.head) <==> Ahead(w, sn) == 0
  {
    AheadPosition(w, sn);
    WrapDifference(w.head + Ahead(w, sn), w.head, 0);
  }

  lemma LimitTest(w: Window, sn: Sn)
    requires Ahead(w, sn) <= MODULO / 2
    ensures Less(sn, Wrap(w.head) + BUFFER_SIZE) <==> Ahead(w, sn) < BUFFER_SIZE
  {
    AheadPosition(w, sn);
    WrapDifference(w.head + Ahead(w, sn), w.head, BUFFER_SIZE);
  }

  lemma AheadPosition(w: Window, sn: Sn)
    ensures Wrap(w.head + Ahead(w, sn)) == sn
  {
    WrapMultiple(sn, -((sn - w.head) / MODULO));
  }

  /** What a release after a window move puts on the queue. */
  lemma DrainsJoin(m: Slots, lo: nat, mid: nat, n: Slots, hi: nat, start: seq<Frame>)
    ensures Frames(Collect(m, lo, mid) + Collect(n, mid, hi)) == Drain(m, lo, mid) + Drain(n, mid, hi)
    ensures start + (Drain(m, lo, mid) + Drain(n, mid, hi)) == start + Drain(m, lo, mid) + Drain(n, mid, hi)
  {
    DrainIsCollect(m, lo, mid);
    DrainIsCollect(n, mid, hi);
  }

  predicate Drops(w: Window, f: Frame) {
    Ahead(w, f.sn) > MODULO / 2 || w.head + Ahead(w, f.sn) in w.slots
  }

  /** The window once it has moved, if need be, and taken the frame in. */
  function Stored(w: Window, f: Frame, now: Jiffies, timeout: nat): Window {
    var u := w.head + Ahead(w, f.sn);
    var moved := MovedHead(w, u);
    Window(moved, From(w.slots, moved)[u := Entry(f, Later(now, timeout))])
  }

  function Arrive(w: Window, f: Frame, now: Jiffies, timeout: nat): Outcome {
    if Drops(w, f) then Outcome(w, [], true)
    else if f.sn == Wrap(w.head) && w.slots == map[] then
      Outcome(Window(w.head + 1, map[]), [Delivery(w.head, f)], false)
    else
      var s := Stored(w, f, now, timeout);
      var r := Release(s, now);
      r.(delivered := Collect(w.slots, w.head, s.head) + r.delivered)
  }

  lemma ArriveDrops(w: Window, f: Frame, now: Jiffies, timeout: nat)
    requires Drops(w, f)
    ensures Arrive(w, f, now, timeout) == Outcome(w, [], true) && Frames([]) == []
  {
  }

  lemma ArriveInOrder(w: Window, f: Frame, now: Jiffies, timeout: nat)
    requires f.sn == Wrap(w.head) && w.slots == map[]
    ensures Arrive(w, f, now, timeout) == Outcome(Window(w.head + 1, map[]), [Delivery(w.head, f)], false)
    ensures Frames([Delivery(w.head, f)]) == [f]
  {
    WindowTests(w, f.sn);
  }

  lemma ArriveBuffers(w: Window, f: Frame, now: Jiffies, timeout: nat, start: seq<Frame>)
    requires !Drops(w, f) && !(f.sn == Wrap(w.head) && w.slots == map[])
    ensures var a := Arrive(w, f, now, timeout);
            var s := Stored(w, f, now, timeout);
            && !a.dropped
            && a.next == Release(s, now).next
            && Frames(a.delivered) == Drain(w.slots, w.head, s.head) + Drain(s.slots, s.head, a.next.head)
            && start + Frames(a.delivered) == start + Drain(w.slots, w.head, s.head) + Drain(s.slots, s.head, a.next.head)
  {
    var s := Stored(w, f, now, timeout);
    DrainsJoin(w.slots, w.head, s.head, s.slots, ReleaseEnd(s, now), start);
  }
}
