/** When fragments are put together again, and which. */
module DefragTheorems {
  import opened Ieee80211
  import opened Defragmentation

  /** The reassembly after a stream of frames: its state, how many frames were completed out of how many
      fragments, and how many fragments were lost. */
  datatype Trace = Trace(state: State, delivered: nat, lost: nat)

  function Run(arrivals: seq<Skb>): Trace {
    if arrivals == [] then Trace(Empty, 0, 0)
    else
      var t := Run(arrivals[..|arrivals| - 1]);
      var skb := arrivals[|arrivals| - 1];
      var o := Defrag(t.state, skb);
      Trace(o.next, t.delivered + Parts(t.state, skb), t.lost + o.purged + if o.control.Drop? then 1 else 0)
  }

  /** Fragments in what a step hands on. */
  function Parts(s: State, skb: Skb): nat {
    if !Defrag(s, skb).control.Continue? then 0 else if FragNo(skb) == 0 then 1 else |s.queue| + 1
  }

  /** b is taken for the continuation of a. The packet number of a is no longer known by then. */
  predicate Link(a: Skb, b: Skb) {
    FragNo(b) != 0 && (SameSeq(a, b) || NextFrag(a, b)) && (b.ccmp ==> b.iv == 1)
  }

  /** A first fragment and continuations, with more to come. */
  ghost predicate OpenTrain(parts: seq<Skb>) {
    && parts != []
    && FragNo(parts[0]) == 0
    && (forall i :: 0 <= i < |parts| ==> More(parts[i]))
    && (forall i :: 0 < i < |parts| ==> Link(parts[i - 1], parts[i]))
  }

  function AllWiped(parts: seq<Skb>): (q: seq<Skb>)
    ensures |q| == |parts| && forall i :: 0 <= i < |q| ==> q[i] == Wiped(parts[i])
  {
    seq(|parts|, i requires 0 <= i < |parts| => Wiped(parts[i]))
  }

  lemma {:induction false} BodiesWiped(parts: seq<Skb>)
    ensures Bodies(AllWiped(parts)) == Bodies(parts)
    decreases |parts|
  {
    if parts != [] {
      var n := |parts| - 1;
      BodiesWiped(parts[..n]);
      assert AllWiped(parts)[..n] == AllWiped(parts[..n]);
    }
  }

  lemma {:induction false} BodiesAppend(queue: seq<Skb>, skb: Skb)
    ensures Bodies(queue + [skb]) == Bodies(queue) + skb.body
  {
    assert (queue + [skb])[..|queue|] == queue;
  }

  lemma {:induction false} MatchesIsLink(parts: seq<Skb>, skb: Skb)
    requires parts != [] && FragNo(skb) != 0
    ensures Matches(AllWiped(parts), skb) == Link(parts[|parts| - 1], skb)
  {
    hide SeqNo;
    var n := |parts| - 1;
    WipedKeepsHeader(parts[n]);
    assert AllWiped(parts)[n] == Wiped(parts[n]);
  }

  lemma {:induction false} WipedKeepsHeader(skb: Skb)
    ensures FragNo(Wiped(skb)) == FragNo(skb) && SeqNo(Wiped(skb)) == SeqNo(skb) && More(Wiped(skb)) == More(skb)
  {
  }

  lemma {:induction false} WipedAppend(parts: seq<Skb>, skb: Skb)
    ensures AllWiped(parts + [skb]) == AllWiped(parts) + [Wiped(skb)]
  {
  }

  /** The state after a run that has an open train of length n at its end. */
  ghost predicate Holds(s: State, arrivals: seq<Skb>, n: nat) {
    && n <= |arrivals|
    && s.queue == AllWiped(arrivals[|arrivals| - n..])
    && (n > 0 ==> OpenTrain(arrivals[|arrivals| - n..]) && s.size == |Bodies(s.queue)|)
  }

  lemma {:induction false} Extend(arrivals: seq<Skb>, n: nat, skb: Skb)
    requires 0 < n <= |arrivals| && OpenTrain(arrivals[|arrivals| - n..]) && More(skb) && Link(arrivals[|arrivals| - 1], skb)
    ensures (arrivals + [skb])[|arrivals| - n..] == arrivals[|arrivals| - n..] + [skb]
    ensures OpenTrain((arrivals + [skb])[|arrivals| - n..])
  {
    hide Link, More, FragNo;
    var q, q' := arrivals[|arrivals| - n..], (arrivals + [skb])[|arrivals| - n..];
    assert q' == q + [skb];
    assert q[n - 1] == arrivals[|arrivals| - 1];
    forall i | 0 < i < |q'|
      ensures Link(q'[i - 1], q'[i])
    {
      if i < n {
        assert q'[i - 1] == q[i - 1] && q'[i] == q[i];
      }
    }
  }

  /** Over any run the queue is the open train at the end of the run, and `size` its payload bytes. */
  lemma {:induction false} QueueIsSuffix(arrivals: seq<Skb>) returns (n: nat)
    ensures Holds(Run(arrivals).state, arrivals, n)
    decreases |arrivals|
  {
    hide FragNo, More, Link, Defrag, Bodies, OpenTrain;
    n := 0;
    if arrivals != [] {
      var before, skb := arrivals[..|arrivals| - 1], arrivals[|arrivals| - 1];
      var m := QueueIsSuffix(before);
      n := StepHolds(Run(before).state, before, m, skb);
      assert before + [skb] == arrivals;
    }
  }

  /** In every reachable state a queue that is not empty starts with fragment 0, expects more after every
      fragment, and `size` is the sum of its payloads. */
  lemma {:induction false} QueueInvariant(arrivals: seq<Skb>)
    ensures var s := Run(arrivals).state;
            && |s.queue| <= |arrivals|
            && (s.queue != [] ==> FragNo(s.queue[0]) == 0 && s.size == |Bodies(s.queue)|)
            && forall i :: 0 <= i < |s.queue| ==> More(s.queue[i]) && s.queue[i] == Wiped(arrivals[|arrivals| - |s.queue| + i])
  {
    hide FragNo, More, Link, Run, Bodies;
    var n := QueueIsSuffix(arrivals);
    var q := arrivals[|arrivals| - n..];
    forall i | 0 <= i < n
      ensures More(AllWiped(q)[i]) && FragNo(AllWiped(q)[i]) == FragNo(q[i]) && AllWiped(q)[i] == Wiped(arrivals[|arrivals| - n + i])
    {
      WipedKeepsHeader(q[i]);
    }
  }

  lemma {:induction false} StepHolds(s: State, before: seq<Skb>, m: nat, skb: Skb) returns (n: nat)
    requires Holds(s, before, m)
    ensures Holds(Defrag(s, skb).next, before + [skb], n)
  {
    hide FragNo, More, Link, Matches, Bodies, OpenTrain;
    n := 0;
    if FragNo(skb) == 0 {
      if More(skb) {
        n := 1;
        assert (before + [skb])[|before|..] == [skb];
        StartTrain(skb);
      }
    } else if m > 0 {
      var q := before[|before| - m..];
      MatchesIsLink(q, skb);
      if Matches(s.queue, skb) && More(skb) {
        n := m + 1;
        Extend(before, m, skb);
        WipedAppend(q, skb);
        BodiesAppend(s.queue, Wiped(skb));
      }
    } else {
      NoTail(s.queue, skb);
    }
  }

  lemma {:induction false} NoTail(queue: seq<Skb>, skb: Skb)
    ensures queue == [] ==> !Matches(queue, skb)
  {
  }

  lemma {:induction false} StartTrain(skb: Skb)
    requires FragNo(skb) == 0 && More(skb)
    ensures OpenTrain([skb]) && AllWiped([skb]) == [Wiped(skb)]
    ensures Added(Empty, skb) == State([Wiped(skb)], |Bodies([Wiped(skb)])|)
  {
    BodiesAppend([], Wiped(skb));
    assert [] + [Wiped(skb)] == [Wiped(skb)];
  }

  /** What the queue holds is known from the train: whatever came before it does not matter. */
  lemma {:induction false} TrainIsQueued(arrivals: seq<Skb>, k: nat)
    requires k < |arrivals| && OpenTrain(arrivals[k..])
    ensures Run(arrivals).state.queue == AllWiped(arrivals[k..])
    decreases |arrivals|
  {
    hide FragNo, More, Link, Matches, Bodies;
    var before, skb := arrivals[..|arrivals| - 1], arrivals[|arrivals| - 1];
    var q := arrivals[k..];
    assert skb == q[|q| - 1];
    if k == |arrivals| - 1 {
      assert q == [skb];
      StartTrain(skb);
    } else {
      var p := before[k..];
      assert q == p + [skb];
      assert forall i :: 0 <= i < |p| ==> p[i] == q[i];
      TrainIsQueued(before, k);
      assert Link(q[|q| - 2], q[|q| - 1]) && q[|q| - 2] == p[|p| - 1];
      LinkNotFirst(p[|p| - 1], skb);
      MatchesIsLink(p, skb);
      WipedAppend(p, skb);
    }
  }

  lemma {:induction false} LinkNotFirst(a: Skb, b: Skb)
    requires Link(a, b)
    ensures FragNo(b) != 0
  {
  }

  /** A last fragment completes a frame exactly when it continues an open train of the frames right before
      it and its buffer can grow; then what comes out is the train's first header and all the payloads in
      order, and nothing stays queued. Otherwise it is dropped with everything queued. */
  lemma {:induction false} CompletionExact(arrivals: seq<Skb>, last: Skb)
    requires FragNo(last) != 0 && !More(last)
    ensures var o := Defrag(Run(arrivals).state, last);
            && o.next.queue == []
            && (o.control.Continue? <==> last.room && exists k: nat :: Completes(arrivals, k, last))
            && (o.control == Drop || o.control.Continue?)
            && forall k: nat :: Completes(arrivals, k, last) && last.room ==>
                 o.control == Continue(last.(header := arrivals[k].header, body := Bodies(arrivals[k..]) + last.body))
  {
    hide FragNo, More, Matches, Bodies, Run, Completes;
    MatchesMeans(arrivals, last);
    forall k: nat | Completes(arrivals, k, last)
      ensures k < |arrivals| && Matches(Run(arrivals).state.queue, last)
      ensures Joined(Run(arrivals).state.queue, last) == last.(header := arrivals[k].header, body := Bodies(arrivals[k..]) + last.body)
    {
      CompletesMeans(arrivals, k, last);
    }
  }

  /** Whatever is continued is the open train at the end of the arrivals. */
  lemma {:induction false} MatchesMeans(arrivals: seq<Skb>, last: Skb)
    requires FragNo(last) != 0
    ensures Matches(Run(arrivals).state.queue, last) ==>
              Run(arrivals).state.queue != [] && exists k: nat :: Completes(arrivals, k, last)
  {
    hide FragNo, More, Link, Matches, Bodies, OpenTrain, Run;
    var queue := Run(arrivals).state.queue;
    var n := QueueIsSuffix(arrivals);
    NoTail(queue, last);
    if n > 0 {
      MatchesIsLink(arrivals[|arrivals| - n..], last);
      if Matches(queue, last) {
        assert Completes(arrivals, |arrivals| - n, last);
      }
    }
  }

  lemma {:induction false} CompletesMeans(arrivals: seq<Skb>, k: nat, last: Skb)
    requires FragNo(last) != 0 && Completes(arrivals, k, last)
    ensures k < |arrivals|
    ensures var queue := Run(arrivals).state.queue;
            && Matches(queue, last) && queue != []
            && Joined(queue, last) == last.(header := arrivals[k].header, body := Bodies(arrivals[k..]) + last.body)
  {
    hide FragNo, More, Link, Matches, Bodies, OpenTrain, Run;
    var q := arrivals[k..];
    OpenNotEmpty(q);
    TrainIsQueued(arrivals, k);
    MatchesIsLink(q, last);
    BodiesWiped(q);
  }

  lemma {:induction false} OpenNotEmpty(parts: seq<Skb>)
    requires OpenTrain(parts)
    ensures parts != []
  {
  }

  ghost predicate Completes(arrivals: seq<Skb>, k: nat, last: Skb) {
    k < |arrivals| && OpenTrain(arrivals[k..]) && Link(arrivals[|arrivals| - 1], last)
  }

  /** No frame is lost without being counted: what came in was handed on, lost, or is queued. */
  lemma {:induction false} RunConserves(arrivals: seq<Skb>)
    ensures var t := Run(arrivals);
            t.delivered + t.lost + |t.state.queue| == |arrivals|
  {
    hide FragNo, More, Matches, Joined;
    if arrivals != [] {
      RunConserves(arrivals[..|arrivals| - 1]);
    }
  }

  /** A frame in one piece, by the bits of its header, is handed on as it is, whatever came before it; what
      was queued is given up and counted. */
  lemma {:induction false} UnfragmentedPasses(arrivals: seq<Skb>, skb: Skb)
    requires skb.header[1] & 0x04 == 0 && skb.header[22] & 0x0f == 0
    ensures var t, t' := Run(arrivals), Run(arrivals + [skb]);
            && Defrag(t.state, skb).control == Continue(skb)
            && t'.state == State([], 0)
            && t'.delivered == t.delivered + 1
            && t'.lost == t.lost + |t.state.queue|
  {
    assert (arrivals + [skb])[..|arrivals|] == arrivals;
  }

  /** The sequence control field, a little-endian word. */
  function SeqCtrl(skb: Skb): nat {
    (skb.header[22] as nat) + 256 * (skb.header[23] as nat)
  }

  /** Sequence and fragment number are its upper twelve and its lower four bits. */
  lemma {:induction false} NumbersInHeader(skb: Skb)
    ensures SeqNo(skb) == SeqCtrl(skb) / 16 && FragNo(skb) == SeqCtrl(skb) % 16
  {
    LowFour(skb.header[22]);
    Sixteens(skb.header[22] as nat, skb.header[23] as nat);
  }

  lemma {:induction false} LowFour(b: bv8)
    ensures (b & 0x0f) as nat == b as nat % 16
  {
  }

  lemma {:induction false} Sixteens(lo: nat, hi: nat)
    ensures (lo + 256 * hi) / 16 == lo / 16 + 16 * hi && (lo + 256 * hi) % 16 == lo % 16
  {
  }

  /** Which fragments are taken for the continuation of the one at the tail, in terms of that field. */
  lemma {:induction false} MatchesExactly(queue: seq<Skb>, skb: Skb)
    ensures queue == [] ==> !Matches(queue, skb)
    ensures queue != [] ==>
              var tail := queue[|queue| - 1];
              Matches(queue, skb) <==>
                && (SeqCtrl(tail) / 16 == SeqCtrl(skb) / 16 || SeqCtrl(skb) % 16 == SeqCtrl(tail) % 16 + 1)
                && (skb.ccmp ==> skb.iv == tail.iv + 1)
  {
    hide FragNo, SeqNo, SeqCtrl;
    NumbersInHeader(skb);
    if queue != [] {
      NumbersInHeader(queue[|queue| - 1]);
    }
  }

  // ---------------------------------------------------------------------------------------------
  // What was meant

  /** Section 9.6: same sequence number, next fragment number, and under CCMP the next packet number. */
  predicate Intended(a: Skb, b: Skb) {
    FragNo(b) != 0 && SameSeq(a, b) && NextFrag(a, b) && (b.ccmp ==> a.iv + 1 == b.iv)
  }

  /** When the driver is right about a and a frame b that is not a first fragment. Without CCMP: when they
      agree in both numbers or in none. Under CCMP, with both agreeing: when a's packet number is 0,
      or b's is neither 1 nor the next one; with only one agreeing: unless b's packet number is 1. */
  predicate RightAbout(a: Skb, b: Skb) {
    if !b.ccmp then SameSeq(a, b) <==> NextFrag(a, b)
    else if SameSeq(a, b) && NextFrag(a, b) then a.iv == 0 || (b.iv != 1 && a.iv + 1 != b.iv)
    else (SameSeq(a, b) || NextFrag(a, b)) ==> b.iv != 1
  }

  lemma {:induction false} LinkExact(a: Skb, b: Skb)
    requires FragNo(b) != 0
    ensures (Link(a, b) <==> Intended(a, b)) <==> RightAbout(a, b)
  {
    hide FragNo, SeqNo;
  }

  /** A completed frame that no CCMP key was used on is one the sender had split exactly when no two
      neighbours agree in only one of their numbers. */
  lemma {:induction false} TrainIntended(parts: seq<Skb>, last: Skb)
    requires OpenTrain(parts) && Link(parts[|parts| - 1], last)
    requires forall i :: 0 <= i < |parts + [last]| ==> !(parts + [last])[i].ccmp
    ensures var all := parts + [last];
            (forall i :: 0 < i < |all| ==> Intended(all[i - 1], all[i]))
            <==> (forall i :: 0 < i < |all| ==> (SameSeq(all[i - 1], all[i]) <==> NextFrag(all[i - 1], all[i])))
  {
    hide FragNo, SeqNo, More, Link, SameSeq, NextFrag, Intended;
    var all := parts + [last];
    forall i | 0 < i < |all|
      ensures Intended(all[i - 1], all[i]) <==> (SameSeq(all[i - 1], all[i]) <==> NextFrag(all[i - 1], all[i]))
    {
      assert Link(all[i - 1], all[i]) by {
        if i < |parts| {
          assert all[i - 1] == parts[i - 1] && all[i] == parts[i];
        }
      }
      LinkNotFirst(all[i - 1], all[i]);
      LinkExact(all[i - 1], all[i]);
    }
  }

  function Plain(fc1: bv8, seqCtrl: bv8, body: Bytes): Skb
    requires !HasA4(fc1)
  {
    PlainHeader(fc1, seqCtrl);
    Skb([0x08, fc1] + seq(20, _ => 0) + [seqCtrl, 0], body, 0, false, true)
  }

  lemma {:induction false} PlainHeader(fc1: bv8, seqCtrl: bv8)
    ensures IsData(0x08) && !IsQosData(0x08)
  {
  }

  /** Two frames can be mixed into one: the first fragment of one and the second fragment of another. */
  lemma {:induction false} MixesFrames()
    ensures var first := Plain(0x04, 0x00, [0x61]);
            var last := Plain(0x00, 0x11, [0x62]);
            && SeqNo(first) != SeqNo(last)
            && Defrag(Run([first]).state, last).control == Continue(last.(header := first.header, body := [0x61, 0x62]))
  {
    var first, last := Plain(0x04, 0x00, [0x61]), Plain(0x00, 0x11, [0x62]);
    assert [first][..0] == [];
    assert Run([first]).state.queue == [Wiped(first)];
    assert [Wiped(first)][..0] == [];
    assert Bodies([Wiped(first)]) == [0x61];
  }

  /** Packet numbers as the replay check lets them through: positive and increasing. */
  ghost predicate CcmpStream(arrivals: seq<Skb>) {
    && (forall i :: 0 <= i < |arrivals| ==> arrivals[i].ccmp && arrivals[i].iv > 0)
    && (forall i :: 0 < i < |arrivals| ==> arrivals[i - 1].iv < arrivals[i].iv)
  }

  /** No fragmented frame ever comes through under CCMP, however well-formed. */
  lemma {:induction false} CcmpNeverCompletes(arrivals: seq<Skb>, last: Skb)
    requires CcmpStream(arrivals + [last])
    ensures Defrag(Run(arrivals).state, last).control.Continue? ==> FragNo(last) == 0 && !More(last)
  {
    hide FragNo, More, OpenTrain, Run, Link;
    if FragNo(last) != 0 && !More(last) && Defrag(Run(arrivals).state, last).control.Continue? {
      CompletionExact(arrivals, last);
      var all := arrivals + [last];
      assert all[|arrivals| - 1] == arrivals[|arrivals| - 1] && all[|arrivals|] == last;
      LinkNumber(arrivals[|arrivals| - 1], last);
    }
  }

  lemma {:induction false} LinkNumber(a: Skb, b: Skb)
    requires Link(a, b) && b.ccmp
    ensures b.iv == 1
  {
  }

  // ---------------------------------------------------------------------------------------------
  // Making room

  /** By how much the last fragment's buffer is to grow at the front: `size`, which counts this fragment's
      payload already, less the fragment's whole length. */
  function Growth(s: State, last: Skb): int {
    s.size + |last.body| - (|last.header| + |last.body|)
  }

  /** The queued payloads, less one header; that is negative exactly when less than a header's length is queued. */
  lemma {:induction false} GrowthExact(arrivals: seq<Skb>, last: Skb)
    ensures var s := Run(arrivals).state;
            s.queue != [] ==>
              && Growth(s, last) == |Bodies(s.queue)| - |last.header|
              && (Growth(s, last) < 0 <==> |Bodies(s.queue)| < |last.header|)
  {
    hide Run, Bodies;
    QueueInvariant(arrivals);
  }

  /** A short first fragment makes it so. */
  lemma {:induction false} GrowthMayBeNegative()
    ensures var first, last := Plain(0x04, 0x00, [0x61]), Plain(0x00, 0x01, [0x62]);
            Matches(Run([first]).state.queue, last) && Growth(Run([first]).state, last) == -23
  {
    var first, last := Plain(0x04, 0x00, [0x61]), Plain(0x00, 0x01, [0x62]);
    assert [first][..0] == [];
    assert Run([first]).state == State([Wiped(first)], 1);
  }

  // ---------------------------------------------------------------------------------------------
  // Splitting and putting together

  function NumberedByte(b: bv8, i: nat): bv8
    requires i < 16
  {
    (b & 0xf0) | (i as bv8)
  }

  function FlaggedByte(b: bv8, more: bool): bv8 {
    if more then b | 0x04 else b & 0xfb
  }

  lemma {:induction false} NumberRead(b: bv8, i: nat)
    requires i < 16
    ensures (NumberedByte(b, i) & 0x0f) as nat == i
  {
    assert i == 0 || i == 1 || i == 2 || i == 3 || i == 4 || i == 5 || i == 6 || i == 7
        || i == 8 || i == 9 || i == 10 || i == 11 || i == 12 || i == 13 || i == 14 || i == 15;
  }

  lemma {:induction false} NumberApart(b: bv8, i: nat)
    requires i < 16
    ensures NumberedByte(b, i) as nat / 16 == b as nat / 16
  {
    assert i == 0 || i == 1 || i == 2 || i == 3 || i == 4 || i == 5 || i == 6 || i == 7
        || i == 8 || i == 9 || i == 10 || i == 11 || i == 12 || i == 13 || i == 14 || i == 15;
  }

  lemma {:induction false} FlagRead(b: bv8, more: bool)
    ensures FlaggedByte(b, more) & 0x04 != 0 <==> more
    ensures HasA4(FlaggedByte(b, more)) == HasA4(b) && HasOrder(FlaggedByte(b, more)) == HasOrder(b)
  {
  }

  /** The header of fragment i. */
  function FragmentHeader(h: Header, i: nat, more: bool): (f: Header)
    requires i < 16 && IsData(h[0])
  {
    FlagRead(h[1], more);
    h[1 := FlaggedByte(h[1], more)][22 := NumberedByte(h[22], i)]
  }

  /** Fragment i of a frame split into parts, as it comes out of decryption under TKIP or in the clear. */
  function Fragment(h: Header, parts: seq<Bytes>, i: nat): Skb
    requires i < |parts| <= 16 && IsData(h[0])
  {
    Skb(FragmentHeader(h, i, i < |parts| - 1), parts[i], 0, false, true)
  }

  lemma {:induction false} FragmentFields(h: Header, parts: seq<Bytes>, i: nat)
    requires i < |parts| <= 16 && IsData(h[0])
    ensures var f := Fragment(h, parts, i);
            && FragNo(f) == i && (More(f) <==> i < |parts| - 1)
            && SeqNo(f) == (h[22] as nat) / 16 + 16 * (h[23] as nat)
  {
    hide NumberedByte, FlaggedByte;
    NumberRead(h[22], i);
    NumberApart(h[22], i);
    FlagRead(h[1], i < |parts| - 1);
  }

  function Fragments(h: Header, parts: seq<Bytes>): (fs: seq<Skb>)
    requires |parts| <= 16 && IsData(h[0])
    ensures |fs| == |parts| && forall i :: 0 <= i < |parts| ==> fs[i] == Fragment(h, parts, i)
  {
    seq(|parts|, i requires 0 <= i < |parts| => Fragment(h, parts, i))
  }

  function Concat(parts: seq<Bytes>): Bytes {
    if parts == [] then [] else Concat(parts[..|parts| - 1]) + parts[|parts| - 1]
  }

  lemma {:induction false} BodiesOfParts(fs: seq<Skb>, parts: seq<Bytes>)
    requires |fs| == |parts| && forall i :: 0 <= i < |fs| ==> fs[i].body == parts[i]
    ensures Bodies(fs) == Concat(parts)
    decreases |fs|
  {
    if fs != [] {
      BodiesOfParts(fs[..|fs| - 1], parts[..|parts| - 1]);
    }
  }

  /** A frame split into two to sixteen fragments that arrive in a row comes out whole, with its first
      header, whatever arrived before; and nothing stays queued. */
  lemma {:induction false} ReassemblyUndoesSplitting(before: seq<Skb>, h: Header, parts: seq<Bytes>)
    requires 2 <= |parts| <= 16 && IsData(h[0])
    ensures var fs := Fragments(h, parts);
            var n := |parts| - 1;
            var o := Defrag(Run(before + fs[..n]).state, fs[n]);
            o.next.queue == [] && o.control == Continue(Skb(FragmentHeader(h, 0, true), Concat(parts), 0, false, true))
  {
    hide FragNo, SeqNo, More, Run, FragmentHeader, Bodies, Matches, Concat;
    var fs := Fragments(h, parts);
    var n := |parts| - 1;
    var arrivals := before + fs[..n];
    var q := arrivals[|before|..];
    assert q == fs[..n];
    forall i | 0 <= i <= n
      ensures FragNo(fs[i]) == i && (More(fs[i]) <==> i < n) && (i > 0 ==> Link(fs[i - 1], fs[i]))
    {
      FragmentFields(h, parts, i);
      if i > 0 {
        FragmentFields(h, parts, i - 1);
      }
    }
    CompletionExact(arrivals, fs[n]);
    assert arrivals[|arrivals| - 1] == fs[n - 1] && arrivals[|before|] == fs[0];
    assert Completes(arrivals, |before|, fs[n]);
    BodiesOfParts(q, parts[..n]);
    ConcatLast(parts);
  }

  lemma {:induction false} ConcatLast(parts: seq<Bytes>)
    requires parts != []
    ensures Concat(parts) == Concat(parts[..|parts| - 1]) + parts[|parts| - 1]
  {
  }
}
