/** Fragments of one traffic class are queued until the last one arrives. */
module Defragmentation {
  import opened Ieee80211

  /** A decrypted frame: `iv` is its packet number, `ccmp` whether its key calls for the continuity
      test, `room` whether its buffer can be made larger. */
  datatype Skb = Skb(header: Header, body: Bytes, iv: nat, ccmp: bool, room: bool)

  function FragNo(skb: Skb): (n: nat)
    ensures n < 16
  {
    (skb.header[22] & 0x0f) as nat
  }

  function SeqNo(skb: Skb): nat {
    (skb.header[22] as nat) / 16 + 16 * (skb.header[23] as nat)
  }

  predicate More(skb: Skb) {
    skb.header[1] & 0x04 != 0
  }

  datatype Control = Continue(skb: Skb) | Queue | Drop

  /** The queue, and the payload bytes it is meant to hold. */
  datatype State = State(queue: seq<Skb>, size: nat)

  /** `purged` counts the queued fragments that a step throws away. */
  datatype Outcome = Outcome(next: State, control: Control, purged: nat)

  predicate SameSeq(a: Skb, b: Skb) { SeqNo(a) == SeqNo(b) }
  predicate NextFrag(a: Skb, b: Skb) { FragNo(b) == 1 + FragNo(a) }

  /** `r92su_check_if_match` against the fragment at the tail of the queue. */
  predicate Matches(queue: seq<Skb>, skb: Skb) {
    && queue != []
    && var tail := queue[|queue| - 1];
       && (SameSeq(tail, skb) || NextFrag(tail, skb))
       && (skb.ccmp ==> tail.iv + 1 == skb.iv)
  }

  /** Queueing a fragment wipes its per-frame data, the packet number among it. */
  function Wiped(skb: Skb): Skb {
    skb.(iv := 0, ccmp := false)
  }

  function Added(s: State, skb: Skb): State {
    State(s.queue + [Wiped(skb)], s.size + |skb.body|)
  }

  function Bodies(queue: seq<Skb>): Bytes {
    if queue == [] then [] else Bodies(queue[..|queue| - 1]) + queue[|queue| - 1].body
  }

  const Empty := State([], 0)

  /** The first fragment's header in front of everything, under the last one's per-frame data. */
  function Joined(queue: seq<Skb>, last: Skb): Skb
    requires queue != []
  {
    last.(header := queue[0].header, body := Bodies(queue) + last.body)
  }

  /** `r92su_rx_defrag` */
  function Defrag(s: State, skb: Skb): Outcome {
    if FragNo(skb) == 0 then
      if More(skb) then Outcome(Added(Empty, skb), Queue, |s.queue|) else Outcome(Empty, Continue(skb), |s.queue|)
    else if !Matches(s.queue, skb) then Outcome(Empty, Drop, |s.queue|)
    else if More(skb) then Outcome(Added(s, skb), Queue, 0)
    else if !skb.room then Outcome(Empty, Drop, |s.queue|)
    else Outcome(State([], s.size + |skb.body|), Continue(Joined(s.queue, skb)), 0)
  }

  /** `struct r92su_defrag_entry` */
  class DefragEntry {
    var queue: seq<Skb>
    var size: nat
    var dropped: nat

    constructor ()
      ensures Value() == Empty && dropped == 0
    {
      queue := [];
      size := 0;
      dropped := 0;
    }

    function Value(): State
      reads this
    {
      State(queue, size)
    }

    /** `r92su_defrag_drop` */
    method DefragDrop()
      modifies this
      ensures Value() == Empty && dropped == old(dropped) + |old(queue)|
    {
      dropped := dropped + |queue|;
      queue := [];
      size := 0;
    }

    /** `r92su_defrag_add` */
    method DefragAdd(skb: Skb)
      modifies this`queue, this`size
      ensures Value() == Added(old(Value()), skb)
    {
      queue := queue + [skb.(iv := 0, ccmp := false)];
      size := size + |skb.body|;
    }

    /** `r92su_check_if_match` */
    method CheckIfMatch(skb: Skb) returns (ok: bool)
      ensures ok == Matches(queue, skb)
    {
      hide FragNo, SeqNo;
      if |queue| == 0 {
        return false;
      }
      var tmp := queue[|queue| - 1];
      if SeqNo(tmp) != SeqNo(skb) && FragNo(skb) != 1 + FragNo(tmp) {
        return false;
      }
      if skb.ccmp && tmp.iv + 1 != skb.iv {
        return false;
      }
      ok := true;
    }

    /** The queue is taken from its tail, each fragment put in front of what is there, its header
        replacing the one before. */
    method TakeBackwards(last: Skb) returns (skb: Skb)
      requires queue != []
      modifies this`queue
      ensures queue == [] && skb == Joined(old(queue), last)
    {
      ghost var q := queue;
      ghost var k := |q|;
      skb := last;
      while |queue| > 0
        invariant k == |queue| && queue == q[..k]
        invariant Bodies(q[..k]) + skb.body == Bodies(q) + last.body
        invariant skb == last.(header := if k == |q| then last.header else q[k].header, body := skb.body)
      {
        var tmp := queue[|queue| - 1];
        queue := queue[..|queue| - 1];
        k := k - 1;
        assert q[..k + 1][..k] == q[..k];
        assert Bodies(q[..k]) + (tmp.body + skb.body) == (Bodies(q[..k]) + tmp.body) + skb.body;
        skb := skb.(header := tmp.header, body := tmp.body + skb.body);
      }
      assert q[..0] == [];
    }

    /** `r92su_rx_defrag` */
    method RxDefrag(skb: Skb) returns (control: Control)
      modifies this
      ensures var o := Defrag(old(Value()), skb);
              Value() == o.next && control == o.control && dropped == old(dropped) + o.purged
      ensures skb.header[1] & 0x04 == 0 && skb.header[22] & 0x0f == 0 ==>
                control == Continue(skb) && queue == [] && size == 0 && dropped == old(dropped) + |old(queue)|
    {
      OnePiece(skb);
      hide FragNo, More, Matches, Bodies;
      if More(skb) {
        if FragNo(skb) == 0 {
          DefragDrop();
          DefragAdd(skb);
          return Queue;
        }
        var ok := CheckIfMatch(skb);
        if !ok {
          DefragDrop();
          return Drop;
        }
        DefragAdd(skb);
        return Queue;
      }
      if FragNo(skb) == 0 {
        DefragDrop();
        return Continue(skb);
      }
      var ok := CheckIfMatch(skb);
      if !ok {
        DefragDrop();
        return Drop;
      }
      size := size + |skb.body|;
      if !skb.room {
        DefragDrop();
        return Drop;
      }
      NotEmptyMatch(queue, skb);
      var whole := TakeBackwards(skb);
      control := Continue(whole);
    }
  }

  lemma {:induction false} OnePiece(skb: Skb)
    ensures skb.header[1] & 0x04 == 0 && skb.header[22] & 0x0f == 0 <==> FragNo(skb) == 0 && !More(skb)
  {
  }

  lemma {:induction false} NotEmptyMatch(queue: seq<Skb>, skb: Skb)
    requires Matches(queue, skb)
    ensures queue != []
  {
  }
}
