/** What is on the air, byte by byte, and exactly which frames the receiver accepts. */
module FrameLayout {
  import opened Ieee80211
  import opened Michael
  import opened PacketNumbers
  import opened TkipMixing
  import opened Encapsulation
  import opened Wrappers

  // ---------------------------------------------------------------------------------------------
  // Packet numbers in bytes

  /** A packet number out of six bytes, the highest first. */
  lemma {:induction false} BytesOfPn(b5: bv8, b4: bv8, b3: bv8, b2: bv8, b1: bv8, b0: bv8)
    ensures var pn := JoinBytes(b5, b4, b3, b2, b1, b0);
            && PnByte(pn, 40) == b5 && PnByte(pn, 32) == b4 && PnByte(pn, 24) == b3
            && PnByte(pn, 16) == b2 && PnByte(pn, 8) == b1 && PnByte(pn, 0) == b0
  {
  }

  lemma {:induction false} PnInOrder()
    ensures JoinBytes(0x11, 0x22, 0x33, 0x44, 0x55, 0x66) == 0x112233445566
  {
  }

  /** TKIP sends the number's second lowest byte first, a byte derived from it, then the lowest; CCMP the two
      lowest and a zero. Key index and flag follow, and the four upper bytes from the lowest up. */
  lemma {:induction false} IvLayout(b5: bv8, b4: bv8, b3: bv8, b2: bv8, b1: bv8, b0: bv8, index: bv8)
    ensures var pn := JoinBytes(b5, b4, b3, b2, b1, b0);
            && IvBytes(Tkip, pn, index) == [b1, (b1 | 0x20) & 0x7f, b0, (index << 6) | 0x20, b2, b3, b4, b5]
            && IvBytes(Ccmp, pn, index) == [b0, b1, 0, (index << 6) | 0x20, b2, b3, b4, b5]
  {
    BytesOfPn(b5, b4, b3, b2, b1, b0);
    hide JoinBytes, PnByte;
  }

  // ---------------------------------------------------------------------------------------------
  // Nonce and authenticated header

  /** The QoS control field stands behind the addresses. */
  lemma {:induction false} QosField(h: DataHeader)
    ensures h[0] & 0x8c == 0x88 ==> |h| >= if h[1] & 0x03 == 0x03 then 32 else 26
    ensures QosTid(h) == if h[0] & 0x8c == 0x88 then h[if h[1] & 0x03 == 0x03 then 30 else 24] & 0x0f else 0
  {
    if IsQosData(h[0]) {
      QosIsData(h[0]);
    }
  }

  /** One, the priority, the transmitter, and the packet number with the highest byte first. */
  lemma {:induction false} NonceLayout(h: DataHeader, b5: bv8, b4: bv8, b3: bv8, b2: bv8, b1: bv8, b0: bv8)
    ensures Nonce(h, JoinBytes(b5, b4, b3, b2, b1, b0)) == [0x01, QosTid(h)] + h[10..16] + [b5, b4, b3, b2, b1, b0]
  {
    BytesOfPn(b5, b4, b3, b2, b1, b0);
    DataIsNotMgmt(h[0]);
    NoFlag(QosTid(h));
    hide JoinBytes, PnByte, QosTid, IsData, IsMgmt;
  }

  lemma {:induction false} DataIsNotMgmt(fc0: bv8)
    requires IsData(fc0)
    ensures !IsMgmt(fc0)
  {
  }

  lemma {:induction false} NoFlag(tid: bv8)
    ensures tid | 0 == tid
  {
  }

  /** The bits of a header that are authenticated, the duration left out: of frame control all but the subtype,
      retry, power management and more data; the addresses; the fragment number; the priority. */
  function Protection(fourth: bool, i: nat): bv8 {
    if i == 0 then 0x8f else if i == 1 then 0xc7 else if i < 20 then 0xff else if i == 20 then 0x0f else if i == 21 then 0
    else if fourth then if i < 28 then 0xff else if i == 28 then 0x0f else 0
    else if i == 22 then 0x0f else 0
  }

  /** The authenticated header is the header under that mask, with the protected flag set. */
  lemma {:induction false} AadLayout(h: DataHeader, i: nat)
    requires i < |h| - 2
    ensures Aad(h)[i] == ((h[..2] + h[4..])[i] & Protection(h[1] & 0x03 == 0x03, i)) | (if i == 1 then 0x40 else 0)
  {
    var x := h[if i < 2 then i else i + 2];
    Masks(x);
    AadByte(h, i);
    QosField(h);
    QosOrNot(h);
    hide IsHeader, QosTid, IsData, Aad;
    assert (h[..2] + h[4..])[i] == x;
    DsBits(h[1]);
    hide HasA4;
  }

  /** Data headers without QoS end behind the addresses. */
  lemma {:induction false} QosOrNot(h: DataHeader)
    ensures |h| > (if HasA4(h[1]) then 30 else 24) ==> IsQosData(h[0])
  {
    hide HasA4;
  }

  lemma {:induction false} Masks(x: bv8)
    ensures x & 0xff == x && x & 0 == 0 && x | 0 == x
  {
  }

  lemma {:induction false} AadByte(h: DataHeader, i: nat)
    requires i < |h| - 2
    ensures Aad(h)[i] ==
            if i == 0 then h[0] & 0x8f
            else if i == 1 then (h[1] & 0xc7) | 0x40
            else if i < 20 then h[i + 2]
            else if i == 20 then h[22] & 0x0f
            else if i == 21 then 0
            else if HasA4(h[1]) then if i < 28 then h[i + 2] else if i == 28 then QosTid(h) else 0
            else if i == 22 then QosTid(h) else 0
  {
    hide QosTid, IsData, HasA4, IsQosData;
    var start: Bytes := [h[0] & 0x8f, (h[1] & 0xc7) | 0x40] + h[4..22] + [h[22] & 0x0f, 0];
    var rest: Bytes := if HasA4(h[1]) then h[24..30] + [QosTid(h), 0] else [QosTid(h), 0, 0, 0, 0, 0, 0, 0];
    assert Aad(h) == (start + rest)[..|h| - 2];
    hide Aad;
    assert Aad(h)[i] == if i < 22 then start[i] else rest[i - 22];
  }

  // ---------------------------------------------------------------------------------------------
  // A frame leaves

  /** CCMP: header, IV, ciphertext, code; the driver leaves the last two to hardware that can do them. */
  lemma {:induction false} CcmpOnAir(p: Primitives, k: Keys, h: DataHeader, body: Bytes, pn: bv48)
    requires k.Valid() && k.suite == Ccmp
    ensures var (data, mic) := p.seal(k.tk, Nonce(h, pn), Aad(h), body);
            Send(p, k, true, h, body, pn) == h + IvBytes(Ccmp, pn, k.index) + data + mic
    ensures Send(p, k, false, h, body, pn) == h + IvBytes(Ccmp, pn, k.index) + body
  {
    hide IvBytes, Nonce, Aad;
  }

  /** TKIP: header, IV, and under the packet key's stream the body, its Michael code and the checksum of both;
      with hardware encryption the body and its code, in the clear. */
  lemma {:induction false} TkipOnAir(p: Primitives, k: Keys, h: DataHeader, body: Bytes, pn: bv48)
    requires k.Valid() && k.suite == Tkip
    ensures var signed := body + MicOf(k.txMic, h, body);
            var plain := signed + LeBytes(p.checksum(signed));
            var key := PacketKey(p.sbox, k.tk, h[10..16], pn);
            && |plain| == |body| + 12
            && Send(p, k, true, h, body, pn) ==
               h + IvBytes(Tkip, pn, k.index) + seq(|plain|, i requires 0 <= i < |plain| => p.stream(key, i, plain[i]))
            && Send(p, k, false, h, body, pn) == h + IvBytes(Tkip, pn, k.index) + signed
  {
    hide IvBytes, MicOf, LeBytes, PacketKey;
  }

  // ---------------------------------------------------------------------------------------------
  // A frame is accepted

  /** In front of everything else: an extended IV, and a packet number above the counter. */
  predicate Fresh(suite: Suite, iv: Bytes, rxSeq: bv48)
    requires |iv| == 8
  {
    iv[3] & 0x20 != 0 && rxSeq < PnOf(suite, iv)
  }

  /** Which bytes of the IV make the packet number. */
  lemma {:induction false} NumberInIv(iv: Bytes)
    requires |iv| == 8
    ensures PnOf(Tkip, iv) == JoinBytes(iv[7], iv[6], iv[5], iv[4], iv[0], iv[2])
    ensures PnOf(Ccmp, iv) == JoinBytes(iv[7], iv[6], iv[5], iv[4], iv[1], iv[0])
  {
    hide JoinBytes;
  }

  lemma {:induction false} FreshMeans(suite: Suite, iv: Bytes, rxSeq: bv48)
    requires |iv| == 8
    ensures Fresh(suite, iv, rxSeq) <==> HasExtIv(iv) && !Replayed(PnOf(suite, iv), rxSeq)
  {
    hide PnOf;
  }

  /** What the driver hands on of a frame: exactly the fresh ones that open, without their code. */
  lemma {:induction false} CcmpAccepted(p: Primitives, k: Keys, rxSeq: bv48, h: DataHeader, iv: Bytes, cipher: Bytes)
    requires p.Lawful() && k.Valid() && k.suite == Ccmp && |iv| == 8 <= |cipher|
    ensures var n := |cipher| - 8;
            var pn := PnOf(Ccmp, iv);
            var data := p.open(k.tk, Nonce(h, pn), Aad(h), cipher[..n], cipher[n..]);
            && Decapsulate(p, k, true, rxSeq, h, iv, cipher) ==
               (if Fresh(Ccmp, iv, rxSeq) && n > 0 && data.Some? then Received(pn, Some(h + data.value)) else Received(rxSeq, None))
            && Decapsulate(p, k, false, rxSeq, h, iv, cipher) ==
               (if Fresh(Ccmp, iv, rxSeq) then Received(pn, Some(h + cipher[..n])) else Received(rxSeq, None))
  {
    hide Nonce, Aad, PnOf, HasExtIv, Replayed, Fresh, IsHeader, IsData, Primitives.Lawful;
    var n := |cipher| - 8;
    var pn := PnOf(Ccmp, iv);
    FreshMeans(Ccmp, iv, rxSeq);
    var data := p.open(k.tk, Nonce(h, pn), Aad(h), cipher[..n], cipher[n..]);
    NotEmpty(h);
    Cut(h, cipher[..n], cipher[n..]);
    assert cipher[..n] + cipher[n..] == cipher;
    if data.Some? {
      Cut(h, data.value, cipher[n..]);
    }
  }

  lemma {:induction false} Cut(h: Bytes, body: Bytes, trailer: Bytes)
    requires h != []
    ensures Trimmed(h + (body + trailer), |trailer|) == Some(h + body)
  {
    assert (h + (body + trailer))[..|h| + |body|] == h + body;
  }

  /** The same for TKIP: the checksum must fit data and code, and the Michael code the data; hardware that
      decrypts has looked at the checksum, and leaves the code to the driver. */
  lemma {:induction false} TkipAccepted(p: Primitives, k: Keys, rxSeq: bv48, h: DataHeader, iv: Bytes, cipher: Bytes)
    requires k.Valid() && k.suite == Tkip && |iv| == 8 <= |cipher|
    ensures var n := |cipher| - 12;
            var pn := PnOf(Tkip, iv);
            var key := PacketKey(p.sbox, k.tk, h[10..16], pn);
            var plain := seq(|cipher|, i requires 0 <= i < |cipher| => p.unstream(key, i, cipher[i]));
            && Decapsulate(p, k, true, rxSeq, h, iv, cipher) ==
               (if Fresh(Tkip, iv, rxSeq) && n >= 0
                   && plain[n + 8..] == LeBytes(p.checksum(plain[..n + 8])) && plain[n..n + 8] == MicOf(k.rxMic, h, plain[..n])
                then Received(pn, Some(h + plain[..n])) else Received(rxSeq, None))
            && Decapsulate(p, k, false, rxSeq, h, iv, cipher) ==
               (if Fresh(Tkip, iv, rxSeq) && n >= 0 && cipher[n..n + 8] == MicOf(k.rxMic, h, cipher[..n])
                then Received(pn, Some(h + cipher[..n])) else Received(rxSeq, None))
  {
    hide PnOf, HasExtIv, Replayed, Fresh, MicOf, LeBytes, PacketKey;
    var n := |cipher| - 12;
    var key := PacketKey(p.sbox, k.tk, h[10..16], PnOf(Tkip, iv));
    hide IsHeader, IsData;
    var plain := seq(|cipher|, i requires 0 <= i < |cipher| => p.unstream(key, i, cipher[i]));
    FreshMeans(Tkip, iv, rxSeq);
    assert plain == ApplyStream(p.unstream, key, cipher);
    NotEmpty(h);
    if n >= 0 {
      Cut(h, cipher[..n], cipher[n..]);
      Cut(h, plain[..n], plain[n..]);
      assert cipher[..n] + cipher[n..] == cipher && plain[..n] + plain[n..] == plain;
    }
  }
}
