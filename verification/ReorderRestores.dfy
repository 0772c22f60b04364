/** What the reordering buffer is for: a shuffled train of frames comes out in order. */
module ReorderRestores {
  import opened SequenceNumbers
  import opened ReorderSpec
  import opened ReorderTheorems
  import opened Wrappers

  /** The positions start, start + 1, ... each once, in an order where nothing arrives a whole buffer or
      more behind a frame that came before it. */
  ghost predicate Shuffled(a: seq<nat>, start: nat) {
    && (forall i :: 0 <= i < |a| ==> start <= a[i] < start + |a|)
    && (forall p :: start <= p < start + |a| ==> p in a)
    && (forall i, j :: 0 <= i < j < |a| ==> a[i] != a[j] && a[i] - a[j] < BUFFER_SIZE)
  }

  /** No frame of the train is overdue before the train has arrived. */
  ghost predicate Patient(t: seq<Jiffies>, timeout: nat) {
    forall i, j :: 0 <= i <= j < |t| ==> After(Later(t[i], timeout), t[j])
  }

  ghost predicate Numbered(f: nat -> Frame) {
    forall p: nat :: f(p).sn == Wrap(p)
  }

  function Train(a: seq<nat>, f: nat -> Frame, t: seq<Jiffies>): seq<Event>
    requires |t| == |a|
  {
    seq(|a|, i requires 0 <= i < |a| => Arrival(f(a[i]), t[i]))
  }

  /** The frames at positions [lo, hi), in order and without a gap. */
  function Row(f: nat -> Frame, lo: nat, hi: nat): seq<Delivery> {
    if hi <= lo then [] else Row(f, lo, hi - 1) + [Delivery(hi - 1, f(hi - 1))]
  }

  /** After k arrivals: everything before the head is out, everything else that came is buffered. */
  ghost predicate Caught(w: Window, ds: seq<Delivery>, a: seq<nat>, k: nat, f: nat -> Frame, t: seq<Jiffies>, start: nat)
    requires k <= |a| == |t|
  {
    && start <= w.head
    && (forall p :: start <= p < w.head ==> p in a[..k])
    && w.head !in a[..k]
    && (forall p :: p in w.slots <==> p in a[..k] && w.head < p)
    && (forall p :: p in w.slots ==> p < w.head + BUFFER_SIZE && w.slots[p].frame == f(p))
    && (forall p, j :: p in w.slots && k <= j < |t| ==> After(w.slots[p].due, t[j]))
    && ds == Row(f, start, w.head)
  }

  lemma {:induction false} SkipWhilePatient(m: Slots, h: nat, p: nat, limit: nat, now: Jiffies)
    requires h <= p && h !in m && (forall u :: u in m ==> After(m[u].due, now))
    ensures SkipEnd(m, h, p, limit, now) == h
    decreases limit - p
  {
    if p < limit {
      SkipWhilePatient(m, h, p + 1, limit, now);
    }
  }

  lemma {:induction false} CollectRow(m: Slots, f: nat -> Frame, start: nat, lo: nat, hi: nat)
    requires start <= lo <= hi && forall p :: lo <= p < hi ==> p in m && m[p].frame == f(p)
    ensures Row(f, start, lo) + Collect(m, lo, hi) == Row(f, start, hi)
    decreases hi
  {
    if lo < hi {
      CollectRow(m, f, start, lo, hi - 1);
      assert Row(f, start, lo) + Collect(m, lo, hi)
          == (Row(f, start, lo) + Collect(m, lo, hi - 1)) + [Delivery(hi - 1, f(hi - 1))];
    }
  }

  lemma AheadOf(w: Window, u: nat)
    requires w.head <= u < w.head + BUFFER_SIZE
    ensures Ahead(w, Wrap(u)) == u - w.head
  {
    AheadPosition(w, Wrap(u));
    var v := w.head + Ahead(w, Wrap(u));
    if u <= v { WrapInjective(u, v); } else { WrapInjective(v, u); }
  }

  /** The next arrival lies in the window and is new. */
  lemma NextArrivalFits(w: Window, ds: seq<Delivery>, a: seq<nat>, k: nat, f: nat -> Frame, t: seq<Jiffies>, start: nat)
    requires k < |a| == |t| && Shuffled(a, start) && Caught(w, ds, a, k, f, t, start)
    ensures w.head <= a[k] < w.head + BUFFER_SIZE && a[k] !in a[..k]
  {
    var taken := a[..k];
    assert forall i :: 0 <= i < k ==> taken[i] == a[i];
    assert a[k] !in taken;
    if w.head < start + |a| {
      assert w.head in a;
      var j :| 0 <= j < |a| && a[j] == w.head;
      assert forall i :: 0 <= i < k ==> taken[i] != w.head;
    }
  }

  lemma CaughtStep(w: Window, ds: seq<Delivery>, a: seq<nat>, k: nat, f: nat -> Frame, t: seq<Jiffies>, start: nat, timeout: nat)
    requires k < |a| == |t| && Shuffled(a, start) && Patient(t, timeout) && Numbered(f)
    requires Caught(w, ds, a, k, f, t, start)
    ensures var o := Arrive(w, f(a[k]), t[k], timeout);
            !o.dropped && Caught(o.next, ds + o.delivered, a, k + 1, f, t, start)
  {
    hide Shuffled, Wrap, Ahead, After, Later, Collect, Row, SkipEnd, RunEnd;
    var u, now := a[k], t[k];
    NextArrivalFits(w, ds, a, k, f, t, start);
    AheadOf(w, u);
    assert f(u).sn == Wrap(u);
    assert a[..k + 1] == a[..k] + [u];
    if f(u).sn == Wrap(w.head) {
      WrapInjective(w.head, u);
    }
    if u == w.head && w.slots == map[] {
      CollectRow(map[u := Entry(f(u), 0)], f, start, u, u + 1);
      assert Collect(map[u := Entry(f(u), 0)], u, u + 1) == [Delivery(u, f(u))] by {
        CollectOne(u, f(u));
      }
    } else {
      var s := Stored(w, f(u), now, timeout);
      assert From(w.slots, w.head) == w.slots;
      assert s == Window(w.head, w.slots[u := Entry(f(u), Later(now, timeout))]);
      assert u in s.slots;
      assert After(Later(t[k], timeout), t[k]);
      SkipOrRun(s, now);
      CollectNothing(w.slots, w.head);
      CaughtRelease(w, ds, a, k, f, t, start, timeout, ReleaseEnd(s, now));
    }
  }

  lemma CaughtRelease(w: Window, ds: seq<Delivery>, a: seq<nat>, k: nat, f: nat -> Frame, t: seq<Jiffies>, start: nat,
                      timeout: nat, end: nat)
    requires k < |a| == |t| && Patient(t, timeout) && Caught(w, ds, a, k, f, t, start)
    requires w.head <= a[k] < w.head + BUFFER_SIZE && a[k] !in a[..k]
    requires var m := w.slots[a[k] := Entry(f(a[k]), Later(t[k], timeout))];
             w.head <= end && end !in m && forall p :: w.head <= p < end ==> p in m
    ensures var m := w.slots[a[k] := Entry(f(a[k]), Later(t[k], timeout))];
            Caught(Window(end, From(m, end)), ds + Collect(m, w.head, end), a, k + 1, f, t, start)
  {
    hide After, Later, Collect, Row;
    var m := w.slots[a[k] := Entry(f(a[k]), Later(t[k], timeout))];
    assert a[..k + 1] == a[..k] + [a[k]];
    CollectRow(m, f, start, w.head, end);
    forall p, j | p in m && k + 1 <= j < |t|
      ensures After(m[p].due, t[j])
    {
      assert After(Later(t[k], timeout), t[j]);
    }
    var n := From(m, end);
    var taken := a[..k + 1];
    assert forall p :: p in taken <==> p in a[..k] || p == a[k];
    forall p: nat | start <= p < end
      ensures p in taken
    {
      assert p in a[..k] || p in m;
    }
    assert end !in taken;
    assert forall p :: p in n <==> p in taken && end < p;
  }

  lemma CollectOne(u: nat, g: Frame)
    ensures Collect(map[u := Entry(g, 0)], u, u + 1) == [Delivery(u, g)]
  {
    assert Collect(map[u := Entry(g, 0)], u, u) == [];
  }

  lemma CollectNothing(m: Slots, h: nat)
    ensures Collect(m, h, h) == []
  {
  }

  /** With nobody overdue only the run at the head is released. */
  lemma SkipOrRun(s: Window, now: Jiffies)
    requires forall u :: u in s.slots && u != s.head ==> After(s.slots[u].due, now)
    requires s.slots != map[] && forall u :: u in s.slots ==> s.head <= u < s.head + BUFFER_SIZE
    ensures var end := ReleaseEnd(s, now);
            && s.head <= end && end !in s.slots
            && (forall p :: s.head <= p < end ==> p in s.slots)
  {
    if s.head in s.slots {
      RunEndIsHole(s.slots, s.head, s.head + BUFFER_SIZE);
    } else {
      SkipWhilePatient(s.slots, s.head, s.head, s.head + BUFFER_SIZE, now);
    }
  }

  lemma {:induction false} RunCatches(a: seq<nat>, k: nat, f: nat -> Frame, t: seq<Jiffies>, start: nat, timeout: nat)
    requires k <= |a| == |t| && Shuffled(a, start) && Patient(t, timeout) && Numbered(f)
    ensures var r := Run(Window(start, map[]), Train(a, f, t)[..k], timeout);
            r.dropped == [] && Caught(r.final, r.delivered, a, k, f, t, start)
  {
    if k > 0 {
      hide Caught, Shuffled, Patient, Numbered;
      RunCatches(a, k - 1, f, t, start, timeout);
      var es := Train(a, f, t)[..k];
      assert es[..|es| - 1] == Train(a, f, t)[..k - 1];
      var r := Run(Window(start, map[]), es[..|es| - 1], timeout);
      CaughtStep(r.final, r.delivered, a, k - 1, f, t, start, timeout);
    }
  }

  /** However the frames of a train are shuffled, as long as none falls a whole buffer behind and none
      is kept waiting past its timeout, every one of them is delivered, in order, and nothing remains. */
  lemma OrderIsRestored(a: seq<nat>, f: nat -> Frame, t: seq<Jiffies>, start: nat, timeout: nat)
    requires |a| == |t| && Shuffled(a, start) && Patient(t, timeout) && Numbered(f)
    ensures Run(Window(start, map[]), Train(a, f, t), timeout) == Trace(Window(start + |a|, map[]), Row(f, start, start + |a|), [])
  {
    hide Run, Row, Patient, Numbered;
    RunCatches(a, |a|, f, t, start, timeout);
    assert Train(a, f, t)[..|a|] == Train(a, f, t);
    var r := Run(Window(start, map[]), Train(a, f, t), timeout);
    CaughtUp(r.final, r.delivered, a, f, t, start);
  }

  lemma CaughtUp(w: Window, ds: seq<Delivery>, a: seq<nat>, f: nat -> Frame, t: seq<Jiffies>, start: nat)
    requires |a| == |t| && Shuffled(a, start) && Caught(w, ds, a, |a|, f, t, start)
    ensures w == Window(start + |a|, map[]) && ds == Row(f, start, start + |a|)
  {
    hide Row, After;
    assert a[..|a|] == a;
    assert w.head !in a && start + |a| !in a;
    assert w.head == start + |a|;
    assert forall p :: p in w.slots ==> p in a;
  }
}
