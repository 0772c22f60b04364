/** What the receiver's counter does over whole streams of frames. */
module CipherStreams {
  import opened Ieee80211
  import opened Michael
  import opened PacketNumbers
  import opened TkipMixing
  import opened Encapsulation
  import opened Wrappers

  /** One frame as it reaches the decapsulation, decrypted by the hardware or not. */
  datatype AirFrame = AirFrame(h: DataHeader, iv: Bytes, cipher: Bytes, soft: bool) {
    predicate Valid() {
      |iv| == IV_LEN && |cipher| >= CCMP_MIC_LEN
    }
  }

  type Frame = f: AirFrame | f.Valid() witness AirFrame(seq(24, i => if i == 0 then 0x08 else 0), seq(8, _ => 0), seq(8, _ => 0), true)

  function Step(p: Primitives, k: Keys, rxSeq: bv48, f: Frame): Received
    requires k.Valid()
  {
    Decapsulate(p, k, f.soft, rxSeq, f.h, f.iv, f.cipher)
  }

  /** The receiver over a stream: what becomes of each frame, and the counter after it. */
  function ReceiveAll(p: Primitives, k: Keys, rxSeq: bv48, fs: seq<Frame>): (rs: seq<Received>)
    requires k.Valid()
    ensures |rs| == |fs|
    decreases fs
  {
    if fs == [] then []
    else
      var r := Step(p, k, rxSeq, fs[0]);
      [r] + ReceiveAll(p, k, r.rxSeq, fs[1..])
  }

  /** A frame is let through exactly when it moves the counter; it moves to the frame's own packet number,
      upwards, and what is let through is the header with all but the trailer of the decrypted body. */
  lemma {:induction false} LetThrough(p: Primitives, k: Keys, rxSeq: bv48, f: Frame)
    requires p.Lawful() && k.Valid()
    ensures var r := Step(p, k, rxSeq, f);
            if r.frame.None? then r.rxSeq == rxSeq
            else
              && r.rxSeq == PnOf(k.suite, f.iv) && Less(rxSeq, r.rxSeq) && HasExtIv(f.iv)
              && var plain := Opened(p, k, f.soft, f.h, f.cipher, r.rxSeq);
                 && plain.Some? && |plain.value| == |f.cipher| >= TrailerLen(k.suite) && Verified(k, f.h, plain.value)
                 && r.frame == Some(f.h + plain.value[..|f.cipher| - TrailerLen(k.suite)])
  {
    hide PnOf, HasExtIv, Opened, Verified, Replayed, Less, Trimmed, IsHeader, IsData, Primitives.Lawful;
    var pn := PnOf(k.suite, f.iv);
    NotReplayed(pn, rxSeq);
    var plain := Opened(p, k, f.soft, f.h, f.cipher, pn);
    if plain.Some? {
      OpenedLength(p, k, f.soft, f.h, f.cipher, pn);
      if Verified(k, f.h, plain.value) {
        VerifiedLength(k, f.h, plain.value);
        NotEmpty(f.h);
        TrimTrailer(f.h, plain.value, plain.value[..|plain.value| - TrailerLen(k.suite)]);
      }
    }
  }

  lemma {:induction false} OpenedLength(p: Primitives, k: Keys, soft: bool, h: DataHeader, cipher: Bytes, pn: bv48)
    requires p.Lawful() && |cipher| >= CCMP_MIC_LEN && Opened(p, k, soft, h, cipher, pn).Some?
    ensures |Opened(p, k, soft, h, cipher, pn).value| == |cipher|
  {
    hide PacketKey, LeBytes, Nonce, Aad, IsHeader, IsData;
    if soft && k.suite == Ccmp {
      var n := |cipher| - CCMP_MIC_LEN;
      assert p.open(k.tk, Nonce(h, pn), Aad(h), cipher[..n], cipher[n..]).Some?;
    }
  }

  lemma {:induction false} VerifiedLength(k: Keys, h: DataHeader, plain: Bytes)
    requires k.Valid() && |plain| >= CCMP_MIC_LEN && Verified(k, h, plain)
    ensures |plain| >= TrailerLen(k.suite)
  {
    hide MicOf, IsHeader, IsData;
  }

  /** The counter that frame i met. */
  function CounterBefore(rxSeq: bv48, rs: seq<Received>, i: nat): bv48
    requires i < |rs|
  {
    if i == 0 then rxSeq else rs[i - 1].rxSeq
  }

  /** Over any stream the frames let through have strictly increasing packet numbers, all above the
      counter at the start, and every dropped frame leaves the counter alone. */
  lemma {:induction false} StreamIncreases(p: Primitives, k: Keys, rxSeq: bv48, fs: seq<Frame>)
    requires p.Lawful() && k.Valid()
    ensures var rs := ReceiveAll(p, k, rxSeq, fs);
            && (forall i :: 0 <= i < |fs| && rs[i].frame.Some? ==> rs[i].rxSeq == PnOf(k.suite, fs[i].iv) && Less(rxSeq, rs[i].rxSeq))
            && (forall i, j :: 0 <= i < j < |fs| && rs[j].frame.Some? ==> Less(rs[i].rxSeq, rs[j].rxSeq))
            && (forall i :: 0 <= i < |fs| && rs[i].frame.None? ==> rs[i].rxSeq == CounterBefore(rxSeq, rs, i))
  {
    hide ReceiveAll, PnOf, Less, CounterBefore;
    var rs := ReceiveAll(p, k, rxSeq, fs);
    forall i | 0 <= i < |fs|
      ensures rs[i].frame.Some? ==> rs[i].rxSeq == PnOf(k.suite, fs[i].iv) && Less(rxSeq, rs[i].rxSeq)
      ensures rs[i].frame.None? ==> rs[i].rxSeq == CounterBefore(rxSeq, rs, i)
    {
      Above(p, k, rxSeq, fs, i);
    }
    forall i, j | 0 <= i < j < |fs| && rs[j].frame.Some?
      ensures Less(rs[i].rxSeq, rs[j].rxSeq)
    {
      PairIncreases(p, k, rxSeq, fs, i, j);
    }
  }

  lemma {:induction false} PairIncreases(p: Primitives, k: Keys, rxSeq: bv48, fs: seq<Frame>, i: nat, j: nat)
    requires p.Lawful() && k.Valid() && i < j < |fs| && ReceiveAll(p, k, rxSeq, fs)[j].frame.Some?
    ensures Less(ReceiveAll(p, k, rxSeq, fs)[i].rxSeq, ReceiveAll(p, k, rxSeq, fs)[j].rxSeq)
    decreases i
  {
    hide Step, PnOf, Replayed, Less;
    var r := Step(p, k, rxSeq, fs[0]);
    if i == 0 {
      Above(p, k, r.rxSeq, fs[1..], j - 1);
    } else {
      PairIncreases(p, k, r.rxSeq, fs[1..], i - 1, j - 1);
    }
  }

  lemma {:induction false} Moves(p: Primitives, k: Keys, rxSeq: bv48, f: Frame)
    requires p.Lawful() && k.Valid()
    ensures var r := Step(p, k, rxSeq, f);
            if r.frame.None? then r.rxSeq == rxSeq else r.rxSeq == PnOf(k.suite, f.iv) && Less(rxSeq, r.rxSeq)
  {
    hide Step, PnOf, Less, Opened, Verified, HasExtIv, Keys.Valid, Primitives.Lawful;
    LetThrough(p, k, rxSeq, f);
  }

  lemma {:induction false} Above(p: Primitives, k: Keys, rxSeq: bv48, fs: seq<Frame>, j: nat)
    requires p.Lawful() && k.Valid() && j < |fs|
    ensures var rs := ReceiveAll(p, k, rxSeq, fs);
            && (rs[j].rxSeq == rxSeq || Less(rxSeq, rs[j].rxSeq))
            && (rs[j].frame.Some? ==> rs[j].rxSeq == PnOf(k.suite, fs[j].iv) && Less(rxSeq, rs[j].rxSeq))
            && (rs[j].frame.None? ==> rs[j].rxSeq == CounterBefore(rxSeq, rs, j))
    decreases j
  {
    hide Step, PnOf, Replayed, Less;
    var r := Step(p, k, rxSeq, fs[0]);
    Moves(p, k, rxSeq, fs[0]);
    if j > 0 {
      Above(p, k, r.rxSeq, fs[1..], j - 1);
      AtMostTransitive(rxSeq, r.rxSeq, ReceiveAll(p, k, rxSeq, fs)[j].rxSeq);
    }
  }

  // ---------------------------------------------------------------------------------------------
  // A whole association

  /** A frame handed to the sender, and its header as it arrives. */
  datatype Message = Message(h: DataHeader, got: DataHeader, body: Bytes)

  ghost predicate Sendable(k: Keys, m: Message) {
    Retouched(m.h, m.got) && (k.suite == Ccmp ==> m.body != [])
  }

  /** The counter does not come round within the next n frames. */
  predicate CounterLasts(pn: bv48, n: nat)
    decreases n
  {
    n <= 1 || (pn != LAST_PN && CounterLasts(Next(pn), n - 1))
  }

  /** One frame of the sender, as it arrives. */
  function SendOne(p: Primitives, k: Keys, txSeq: bv48, m: Message): Frame
    requires p.Lawful() && k.Valid() && Sendable(k, m)
  {
    SealedLength(p, k, m, txSeq);
    AirFrame(m.got, IvBytes(k.suite, txSeq, k.index), Sealed(p, k, m.h, m.body, txSeq), true)
  }

  /** The sender over a stream; its counter goes up by one with each frame. */
  function SendAll(p: Primitives, k: Keys, txSeq: bv48, ms: seq<Message>): (fs: seq<Frame>)
    requires p.Lawful() && k.Valid() && forall m :: m in ms ==> Sendable(k, m)
    ensures |fs| == |ms|
    decreases ms
  {
    if ms == [] then [] else [SendOne(p, k, txSeq, ms[0])] + SendAll(p, k, Next(txSeq), ms[1..])
  }

  lemma {:induction false} SealedLength(p: Primitives, k: Keys, m: Message, pn: bv48)
    requires p.Lawful() && k.Valid() && Sendable(k, m)
    ensures |Sealed(p, k, m.h, m.body, pn)| >= CCMP_MIC_LEN
  {
    hide Sealed, Retouched;
    OpenSealed(p, k, Keys(k.suite, k.index, k.tk, k.rxMic, k.txMic), m.h, m.got, m.body, pn);
  }

  /** Sender ahead of receiver: every frame of the stream is delivered. */
  lemma {:induction false} AllDelivered(p: Primitives, k: Keys, k': Keys, txSeq: bv48, rxSeq: bv48, ms: seq<Message>)
    requires p.Lawful() && k.Valid() && k'.Valid() && Match(k, k') && (forall m :: m in ms ==> Sendable(k, m))
    requires Less(rxSeq, txSeq) && CounterLasts(txSeq, |ms|)
    ensures var rs := ReceiveAll(p, k', rxSeq, SendAll(p, k, txSeq, ms));
            |rs| == |ms| && forall i :: 0 <= i < |ms| ==> rs[i].frame == Some(ms[i].got + ms[i].body)
    decreases ms
  {
    hide Less, Next, Sendable, Step, SendOne, Match, Primitives.Lawful, Keys.Valid;
    if ms != [] {
      OneStep(p, k, k', txSeq, rxSeq, ms[0]);
      NotReplayed(txSeq, rxSeq);
      if |ms| > 1 {
        NextIsLarger(txSeq);
        AllDelivered(p, k, k', Next(txSeq), txSeq, ms[1..]);
      }
    }
  }

  lemma {:induction false} OneStep(p: Primitives, k: Keys, k': Keys, txSeq: bv48, rxSeq: bv48, m: Message)
    requires p.Lawful() && k.Valid() && k'.Valid() && Match(k, k') && Sendable(k, m)
    ensures Step(p, k', rxSeq, SendOne(p, k, txSeq, m))
         == if Replayed(txSeq, rxSeq) then Received(rxSeq, None) else Received(txSeq, Some(m.got + m.body))
  {
    hide Decapsulate, Sealed, IvBytes, Retouched, Replayed, Match, IsHeader, IsData, Keys.Valid, Primitives.Lawful;
    DecapsulateSealed(p, k, k', m.h, m.got, m.body, txSeq, rxSeq);
  }

  /** `r92su_key_alloc` starts both counters of a key at the same number. */
  function InitialSeq(suite: Suite): bv48 {
    match suite
    case Tkip => 1
    case Ccmp => 0
  }

  /** A fresh pair of stations loses its first frame, and no other. */
  lemma {:induction false} FreshPair(p: Primitives, k: Keys, k': Keys, ms: seq<Message>)
    requires p.Lawful() && k.Valid() && k'.Valid() && Match(k, k') && ms != [] && (forall m :: m in ms ==> Sendable(k, m))
    requires CounterLasts(InitialSeq(k.suite), |ms|)
    ensures InitialSeq(Tkip) == 1 && InitialSeq(Ccmp) == 0
    ensures var rs := ReceiveAll(p, k', InitialSeq(k'.suite), SendAll(p, k, InitialSeq(k.suite), ms));
            && |rs| == |ms| && rs[0] == Received(InitialSeq(k.suite), None)
            && forall i :: 1 <= i < |ms| ==> rs[i].frame == Some(ms[i].got + ms[i].body)
    decreases ms
  {
    hide Less, Next, Sendable, Step, SendOne, Match, Primitives.Lawful, Keys.Valid;
    NotReplayed(InitialSeq(k.suite), InitialSeq(k.suite));
    SameSuite(k, k');
    var s := InitialSeq(k.suite);
    OneStep(p, k, k', s, s, ms[0]);
    if |ms| > 1 {
      NextIsLarger(s);
      AllDelivered(p, k, k', Next(s), s, ms[1..]);
    }
  }

  /** Two frames with one CCMP nonce have one transmitter and one packet number. */
  lemma {:induction false} NonceUnique(h: DataHeader, pn: bv48, h': DataHeader, pn': bv48)
    requires Nonce(h, pn) == Nonce(h', pn')
    ensures Addr2(h) == Addr2(h') && pn == pn' && QosTid(h) | (if IsMgmt(h[0]) then 0x10 else 0) == QosTid(h') | (if IsMgmt(h'[0]) then 0x10 else 0)
  {
    hide PnByte, JoinBytes, QosTid, IsMgmt;
    var n, n' := Nonce(h, pn), Nonce(h', pn');
    assert n[2..8] == Addr2(h) && n'[2..8] == Addr2(h');
    assert n[8] == PnByte(pn, 40) && n[9] == PnByte(pn, 32) && n[10] == PnByte(pn, 24)
        && n[11] == PnByte(pn, 16) && n[12] == PnByte(pn, 8) && n[13] == PnByte(pn, 0);
    assert n'[8] == PnByte(pn', 40) && n'[9] == PnByte(pn', 32) && n'[10] == PnByte(pn', 24)
        && n'[11] == PnByte(pn', 16) && n'[12] == PnByte(pn', 8) && n'[13] == PnByte(pn', 0);
    JoinOfBytes(pn);
    JoinOfBytes(pn');
  }
}
