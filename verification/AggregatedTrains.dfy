/** Encrypted aggregates on their whole way in: the reordering buffer stands in front of the replay check.
    With it a shuffled train loses nothing; without it every frame that was overtaken is refused. */
module AggregatedTrains {
  import opened Encapsulation
  import opened PacketNumbers
  import opened ReorderRestores
  import opened Wrappers
  import ReorderTheorems
  import CipherStreams
  import ReorderSpec
  import SequenceNumbers

  type AirFrame = CipherStreams.Frame
  type Message = CipherStreams.Message
  type Mpdu = ReorderSpec.Frame
  type Jiffies = ReorderSpec.Jiffies

  /** The packet number of message i, counted on from the first. */
  function PnAt(txSeq: bv48, i: nat): bv48
    decreases i
  {
    if i == 0 then txSeq else PnAt(Next(txSeq), i - 1)
  }

  lemma {:induction false} PnIncreases(txSeq: bv48, n: nat, i: nat, j: nat)
    requires CipherStreams.CounterLasts(txSeq, n) && i < j < n
    ensures Less(PnAt(txSeq, i), PnAt(txSeq, j))
    decreases n
  {
    hide Less, Next;
    if i > 0 {
      PnIncreases(Next(txSeq), n - 1, i - 1, j - 1);
    } else {
      NextIsLarger(txSeq);
      if j > 1 {
        PnIncreases(Next(txSeq), n - 1, 0, j - 1);
        LessTransitive(txSeq, Next(txSeq), PnAt(Next(txSeq), j - 1));
      }
    }
  }

  ghost predicate AllSendable(k: Keys, ms: seq<Message>) {
    forall m :: m in ms ==> CipherStreams.Sendable(k, m)
  }

  lemma {:induction false} SentAt(p: Primitives, k: Keys, txSeq: bv48, ms: seq<Message>, i: nat)
    requires p.Lawful() && k.Valid() && AllSendable(k, ms) && i < |ms|
    ensures CipherStreams.Sendable(k, ms[i])
    ensures CipherStreams.SendAll(p, k, txSeq, ms)[i] == CipherStreams.SendOne(p, k, PnAt(txSeq, i), ms[i])
    decreases i
  {
    hide CipherStreams.Sendable, CipherStreams.SendOne, Primitives.Lawful, Keys.Valid, Next;
    if i > 0 {
      SentAt(p, k, Next(txSeq), ms[1..], i - 1);
    }
  }

  // ---------------------------------------------------------------------------------------------
  // With the buffer

  /** The MPDU at a position, identified by that position. */
  function Numbering(): nat -> Mpdu {
    (u: nat) => ReorderSpec.Frame(u, SequenceNumbers.Wrap(u))
  }

  lemma {:induction false} RowFrames(lo: nat, hi: nat, i: nat)
    requires lo <= hi && i < hi - lo
    ensures |Row(Numbering(), lo, hi)| == hi - lo && Row(Numbering(), lo, hi)[i].frame.id == lo + i
    decreases hi
  {
    RowLength(lo, hi);
    if i < hi - lo - 1 {
      RowFrames(lo, hi - 1, i);
    } else {
      RowLength(lo, hi - 1);
    }
  }

  lemma {:induction false} RowLength(lo: nat, hi: nat)
    requires lo <= hi
    ensures |Row(Numbering(), lo, hi)| == hi - lo
    decreases hi
  {
    if lo < hi {
      RowLength(lo, hi - 1);
    }
  }

  /** What the decapsulation gets to see of the sealed frames: those that are released, in that order. */
  function Passed(sealed: seq<AirFrame>, start: nat, released: seq<Mpdu>): (fs: seq<AirFrame>)
    requires forall f :: f in released ==> start <= f.id < start + |sealed|
    ensures |fs| == |released|
  {
    seq(|released|, i requires 0 <= i < |released| => sealed[released[i].id - start])
  }

  /** A train of sealed frames, however shuffled within the buffer's reach, leaves the reordering buffer
      and the decapsulation behind it with every body, in the order sent. */
  lemma {:induction false} TrainDelivered(p: Primitives, k: Keys, k': Keys, txSeq: bv48, rxSeq: bv48, ms: seq<Message>,
                                          a: seq<nat>, t: seq<Jiffies>, start: nat, timeout: nat)
    requires p.Lawful() && k.Valid() && k'.Valid() && Match(k, k') && AllSendable(k, ms)
    requires Less(rxSeq, txSeq) && CipherStreams.CounterLasts(txSeq, |ms|)
    requires |a| == |t| == |ms| && Shuffled(a, start) && Patient(t, timeout)
    ensures var sealed := CipherStreams.SendAll(p, k, txSeq, ms);
            var released := ReorderSpec.Frames(ReorderTheorems.Run(ReorderSpec.Window(start, map[]), Train(a, Numbering(), t), timeout).delivered);
            && (forall f :: f in released ==> start <= f.id < start + |sealed|)
            && var rs := CipherStreams.ReceiveAll(p, k', rxSeq, Passed(sealed, start, released));
               |rs| == |ms| && forall i :: 0 <= i < |ms| ==> rs[i].frame == Some(ms[i].got + ms[i].body)
  {
    hide ReorderTheorems.Run, Row, Shuffled, Patient, Primitives.Lawful, Keys.Valid, Match, Less, CipherStreams.CounterLasts,
         CipherStreams.SendAll, CipherStreams.ReceiveAll, Train, CipherStreams.Sendable;
    var sealed := CipherStreams.SendAll(p, k, txSeq, ms);
    OrderIsRestored(a, Numbering(), t, start, timeout);
    var released := ReorderSpec.Frames(Row(Numbering(), start, start + |ms|));
    RowLength(start, start + |ms|);
    forall i | 0 <= i < |released|
      ensures released[i].id == start + i
    {
      RowFrames(start, start + |ms|, i);
    }
    assert Passed(sealed, start, released) == sealed;
    CipherStreams.AllDelivered(p, k, k', txSeq, rxSeq, ms);
  }

  // ---------------------------------------------------------------------------------------------
  // Without it

  /** The receiver's counter when the highest message it has let through is top, or none yet. */
  function CounterOf(txSeq: bv48, rxSeq: bv48, top: int): bv48 {
    if top < 0 then rxSeq else PnAt(txSeq, top)
  }

  /** Message order[j] comes after lower ones only. */
  predicate NotOvertaken(order: seq<nat>, top: int, j: nat)
    requires j < |order|
  {
    top < order[j] && forall i :: 0 <= i < j ==> order[i] < order[j]
  }

  function Arriving(sealed: seq<AirFrame>, order: seq<nat>): (fs: seq<AirFrame>)
    requires forall i :: 0 <= i < |order| ==> order[i] < |sealed|
    ensures |fs| == |order| && forall i :: 0 <= i < |order| ==> fs[i] == sealed[order[i]]
  {
    seq(|order|, i requires 0 <= i < |order| => sealed[order[i]])
  }

  ghost predicate Paired(p: Primitives, k: Keys, k': Keys, txSeq: bv48, rxSeq: bv48, ms: seq<Message>) {
    && p.Lawful() && k.Valid() && k'.Valid() && Match(k, k') && AllSendable(k, ms)
    && Less(rxSeq, txSeq) && CipherStreams.CounterLasts(txSeq, |ms|)
  }

  lemma {:induction false} FirstPn(txSeq: bv48, rxSeq: bv48, n: nat, i: nat)
    requires Less(rxSeq, txSeq) && CipherStreams.CounterLasts(txSeq, n) && i < n
    ensures Less(rxSeq, PnAt(txSeq, i))
  {
    hide Less, Next;
    if i > 0 {
      PnIncreases(txSeq, n, 0, i);
      LessTransitive(rxSeq, txSeq, PnAt(txSeq, i));
    }
  }

  /** The replay check refuses message i exactly when it is not above the highest let through. */
  lemma {:induction false} RefusedBelowTop(txSeq: bv48, rxSeq: bv48, n: nat, top: int, i: nat)
    requires Less(rxSeq, txSeq) && CipherStreams.CounterLasts(txSeq, n) && i < n && -1 <= top < n
    ensures Replayed(PnAt(txSeq, i), CounterOf(txSeq, rxSeq, top)) <==> i <= top
  {
    hide Less, Next, PnAt, Replayed;
    NotReplayed(PnAt(txSeq, i), CounterOf(txSeq, rxSeq, top));
    if top < 0 {
      FirstPn(txSeq, rxSeq, n, i);
    } else if top < i {
      PnIncreases(txSeq, n, top, i);
    } else if i < top {
      PnIncreases(txSeq, n, i, top);
      LessAsymmetric(PnAt(txSeq, i), PnAt(txSeq, top));
    } else {
      NotLessItself(PnAt(txSeq, i));
    }
  }

  lemma {:induction false} NotLessItself(pn: bv48)
    ensures !Less(pn, pn)
  {
  }

  lemma {:induction false} ArrivalStep(p: Primitives, k: Keys, k': Keys, txSeq: bv48, rxSeq: bv48, ms: seq<Message>, top: int, i: nat)
    requires Paired(p, k, k', txSeq, rxSeq, ms) && i < |ms| && -1 <= top < |ms|
    ensures CipherStreams.Step(p, k', CounterOf(txSeq, rxSeq, top), CipherStreams.SendAll(p, k, txSeq, ms)[i])
         == if i <= top then Received(CounterOf(txSeq, rxSeq, top), None)
            else Received(CounterOf(txSeq, rxSeq, i), Some(ms[i].got + ms[i].body))
  {
    hide Less, Next, PnAt, Replayed, Primitives.Lawful, Keys.Valid, Match, CipherStreams.Sendable, CipherStreams.SendAll,
         CipherStreams.SendOne, CipherStreams.Step, CipherStreams.CounterLasts;
    SentAt(p, k, txSeq, ms, i);
    CipherStreams.OneStep(p, k, k', PnAt(txSeq, i), CounterOf(txSeq, rxSeq, top), ms[i]);
    RefusedBelowTop(txSeq, rxSeq, |ms|, top, i);
  }

  lemma {:induction false} ArrivalsFrom(p: Primitives, k: Keys, k': Keys, txSeq: bv48, rxSeq: bv48, ms: seq<Message>,
                                        order: seq<nat>, top: int, j: nat)
    requires Paired(p, k, k', txSeq, rxSeq, ms) && -1 <= top < |ms|
    requires (forall i :: 0 <= i < |order| ==> order[i] < |ms|) && j < |order|
    ensures var rs := CipherStreams.ReceiveAll(p, k', CounterOf(txSeq, rxSeq, top), Arriving(CipherStreams.SendAll(p, k, txSeq, ms), order));
            rs[j].frame == if NotOvertaken(order, top, j) then Some(ms[order[j]].got + ms[order[j]].body) else None
    decreases |order|
  {
    hide CounterOf, CipherStreams.SendAll, CipherStreams.Step, CipherStreams.CounterLasts, Primitives.Lawful, Keys.Valid, Match,
         CipherStreams.Sendable, Less;
    var sealed := CipherStreams.SendAll(p, k, txSeq, ms);
    var fs := Arriving(sealed, order);
    ArrivalStep(p, k, k', txSeq, rxSeq, ms, top, order[0]);
    if j > 0 {
      var top' := if order[0] <= top then top else order[0];
      assert fs[1..] == Arriving(sealed, order[1..]);
      ArrivalsFrom(p, k, k', txSeq, rxSeq, ms, order[1..], top', j - 1);
      OvertakenTail(order, top, j);
    }
  }

  lemma {:induction false} OvertakenTail(order: seq<nat>, top: int, j: nat)
    requires 0 < j < |order|
    ensures NotOvertaken(order, top, j) <==> NotOvertaken(order[1..], if order[0] <= top then top else order[0], j - 1)
  {
    var tail := order[1..];
    assert forall i :: 0 < i < |order| ==> tail[i - 1] == order[i];
    assert forall i :: 0 <= i < |tail| ==> tail[i] == order[i + 1];
  }

  /** Straight into the decapsulation, in any order and with any repetitions: a frame comes through exactly
      when no frame numbered as high has come before it. */
  lemma {:induction false} OvertakenRefused(p: Primitives, k: Keys, k': Keys, txSeq: bv48, rxSeq: bv48, ms: seq<Message>, order: seq<nat>)
    requires Paired(p, k, k', txSeq, rxSeq, ms) && (forall i :: 0 <= i < |order| ==> order[i] < |ms|)
    ensures var rs := CipherStreams.ReceiveAll(p, k', rxSeq, Arriving(CipherStreams.SendAll(p, k, txSeq, ms), order));
            forall j :: 0 <= j < |order| ==>
              if forall i :: 0 <= i < j ==> order[i] < order[j] then rs[j].frame == Some(ms[order[j]].got + ms[order[j]].body)
              else rs[j].frame.None?
  {
    hide CipherStreams.SendAll, CipherStreams.ReceiveAll, CipherStreams.CounterLasts, Primitives.Lawful, Keys.Valid, Match,
         CipherStreams.Sendable, Less;
    forall j | 0 <= j < |order|
      ensures var rs := CipherStreams.ReceiveAll(p, k', rxSeq, Arriving(CipherStreams.SendAll(p, k, txSeq, ms), order));
              rs[j].frame == if NotOvertaken(order, -1, j) then Some(ms[order[j]].got + ms[order[j]].body) else None
    {
      ArrivalsFrom(p, k, k', txSeq, rxSeq, ms, order, -1, j);
    }
  }
}
