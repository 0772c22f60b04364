/** The driver's crypto handlers, which work on a frame in place: IV and trailer on transmit,
    replay check, decryption and verification on receive. */
module CipherPath {
  import opened Ieee80211
  import opened Michael
  import opened PacketNumbers
  import opened TkipMixing
  import opened Encapsulation
  import CipherStreams
  import opened Wrappers

  /** `struct r92su_key`, for TKIP and CCMP */
  class R92suKey {
    const keys: Keys
    var txSeq: bv48
    var rxSeq: bv48

    constructor (keys: Keys)
      ensures this.keys == keys
      ensures txSeq == CipherStreams.InitialSeq(keys.suite) && rxSeq == CipherStreams.InitialSeq(keys.suite)
      ensures txSeq == rxSeq == if keys.suite == Tkip then 1 else 0
    {
      this.keys := keys;
      match keys.suite
      case Tkip =>
        txSeq := 1;
        rxSeq := 1;
      case Ccmp =>
        txSeq := 0;
        rxSeq := 0;
    }
  }

  /** `struct sk_buff` with the driver's per-frame data: packet number, and whether the cipher runs in software. */
  class Skb {
    var data: Bytes
    var pn: bv48
    const soft: bool

    constructor (data: Bytes, soft: bool)
      ensures this.data == data && this.soft == soft
    {
      this.data := data;
      this.soft := soft;
      pn := 0;
    }
  }

  /** A data frame: a header, then anything. */
  ghost predicate IsFrame(data: Bytes) {
    && |data| >= 24 && IsData(data[0])
    && HdrLen(data[0], data[1]) <= 32
    && HdrLen(data[0], data[1]) <= |data|
  }

  function FrameHeader(data: Bytes): DataHeader
    requires IsFrame(data)
  {
    data[..HdrLen(data[0], data[1])]
  }

  // ---------------------------------------------------------------------------------------------
  // Transmit

  /** The first three bytes are the suite's own, the others the same for both. */
  method WriteIv(suite: Suite, pn: bv48, index: bv8) returns (iv: Bytes)
    ensures iv == IvBytes(suite, pn, index)
  {
    hide PnByte, WepSeed, KeyIdByte;
    var low, next := PnByte(pn, 0), PnByte(pn, 8);
    var high := [PnByte(pn, 16), PnByte(pn, 24), PnByte(pn, 32), PnByte(pn, 40)];
    match suite
    case Tkip => iv := FillIv([next, WepSeed(next), low], KeyIdByte(index), high);
    case Ccmp => iv := FillIv([low, next, 0], KeyIdByte(index), high);
  }

  method FillIv(first: Bytes, keyId: bv8, high: Bytes) returns (iv: Bytes)
    requires |first| == 3 && |high| == 4
    ensures iv == first + [keyId] + high
  {
    var buf := new bv8[8](_ => 0);
    buf[0], buf[1], buf[2] := first[0], first[1], first[2];
    buf[3] := keyId;
    buf[4], buf[5], buf[6], buf[7] := high[0], high[1], high[2], high[3];
    iv := buf[..];
  }

  /** `r92su_tx_add_iv`: room is made behind the header and the packet number written there. */
  method TxAddIv(skb: Skb, key: R92suKey)
    requires IsFrame(skb.data)
    modifies skb`data, skb`pn, key`txSeq
    ensures var h := FrameHeader(old(skb.data));
            skb.data == h + IvBytes(key.keys.suite, old(key.txSeq), key.keys.index) + old(skb.data)[|h|..]
    ensures skb.pn == old(key.txSeq) && key.txSeq == Next(old(key.txSeq))
  {
    hide IvBytes, IsData;
    var hdrLen := HdrLen(skb.data[0], skb.data[1]);
    assert |FrameHeader(skb.data)| == hdrLen;
    var iv := WriteIv(key.keys.suite, key.txSeq, key.keys.index);
    skb.data := skb.data[..hdrLen] + iv + skb.data[hdrLen..];
    skb.pn := key.txSeq;
    key.txSeq := key.txSeq + 1;
  }

  /** `ieee80211_wep_encrypt_data`: the checksum goes behind the data, then both are encrypted in place. */
  method WepEncryptData(p: Primitives, rc4key: Bytes, data: array<bv8>, len: nat)
    requires len + ICV_LEN == data.Length
    modifies data
    ensures data[..] == WepSeal(p, rc4key, old(data[..len]))
  {
    hide LeBytes;
    var icv := LeBytes(p.checksum(data[..len]));
    ghost var plain := data[..len] + icv;
    data[len], data[len + 1], data[len + 2], data[len + 3] := icv[0], icv[1], icv[2], icv[3];
    assert data[..] == plain;
    for i := 0 to data.Length
      invariant forall j :: 0 <= j < i ==> data[j] == p.stream(rc4key, j, plain[j])
      invariant forall j :: i <= j < data.Length ==> data[j] == plain[j]
    {
      data[i] := p.stream(rc4key, i, data[i]);
    }
    assert data[..] == ApplyStream(p.stream, rc4key, plain);
  }

  /** `ieee80211_wep_decrypt_data` */
  method WepDecryptData(p: Primitives, rc4key: Bytes, data: array<bv8>, len: nat) returns (ok: bool)
    requires len + ICV_LEN == data.Length
    modifies data
    ensures ok == WepOpen(p, rc4key, old(data[..])).Some?
    ensures ok ==> data[..] == WepOpen(p, rc4key, old(data[..])).value
  {
    hide LeBytes;
    ghost var cipher := data[..];
    for i := 0 to data.Length
      invariant forall j :: 0 <= j < i ==> data[j] == p.unstream(rc4key, j, cipher[j])
      invariant forall j :: i <= j < data.Length ==> data[j] == cipher[j]
    {
      data[i] := p.unstream(rc4key, i, data[i]);
    }
    assert data[..] == ApplyStream(p.unstream, rc4key, cipher);
    ok := data[len..] == LeBytes(p.checksum(data[..len]));
    assert data[len..] == data[..][len..] && data[..len] == data[..][..len];
  }

  /** The RC4 key of a frame. */
  method TkipKey(p: Primitives, tk: TkipMixing.Key, ta: Bytes, pn: bv48) returns (rc4key: TkipMixing.Key)
    requires |ta| == 6
    ensures rc4key == PacketKey(p.sbox, tk, ta, pn)
  {
    hide Phase1, Phase2;
    var ctx := new TkipCtx();
    ctx.MixingPhase1(p.sbox, tk, ta, (pn >> 16) as bv32);
    rc4key := ctx.MixingPhase2(p.sbox, tk, (pn & 0xffff) as bv16);
  }

  /** `memcpy` */
  method CopyBytes(buf: array<bv8>, at: nat, src: Bytes)
    requires at + |src| <= buf.Length
    modifies buf
    ensures buf[..] == old(buf[..at]) + src + old(buf[at + |src|..])
  {
    for i := 0 to |src|
      invariant forall j :: 0 <= j < buf.Length ==>
                  buf[j] == if at <= j < at + i then src[j - at] else old(buf[j])
    {
      buf[at + i] := src[i];
    }
  }

  /** `ccmp_special_blocks`: the nonce and the authenticated header, laid out in fixed buffers. */
  method CcmpSpecialBlocks(h: DataHeader, pn: bv48) returns (nonce: Bytes, aad: Bytes)
    ensures nonce == Nonce(h, pn) && aad == Aad(h)
  {
    nonce := CcmpNonce(h, pn);
    aad := CcmpAad(h);
  }

  method CcmpNonce(h: DataHeader, pn: bv48) returns (nonce: Bytes)
    ensures nonce == Nonce(h, pn)
  {
    hide PnByte, QosTid;
    nonce := NonceBytes(QosTid(h) | (if IsMgmt(h[0]) then 0x10 else 0), Addr2(h), pn);
  }

  method NonceBytes(flags: bv8, ta: Bytes, pn: bv48) returns (nonce: Bytes)
    requires |ta| == 6
    ensures nonce == [0x01, flags] + ta
      + [PnByte(pn, 40), PnByte(pn, 32), PnByte(pn, 24), PnByte(pn, 16), PnByte(pn, 8), PnByte(pn, 0)]
  {
    hide PnByte;
    var b0 := new bv8[14](_ => 0);
    b0[0], b0[1] := 0x01, flags;
    CopyBytes(b0, 2, ta);
    assert b0[..8] == [0x01, flags] + ta;
    ghost var head := b0[..8];
    b0[8], b0[9], b0[10] := PnByte(pn, 40), PnByte(pn, 32), PnByte(pn, 24);
    b0[11], b0[12], b0[13] := PnByte(pn, 16), PnByte(pn, 8), PnByte(pn, 0);
    nonce := b0[..];
    assert b0[..8] == head && nonce == b0[..8] + b0[8..];
  }

  method CcmpAad(h: DataHeader) returns (aad: Bytes)
    ensures aad == Aad(h)
  {
    hide QosTid, IsData, HasA4;
    var buf := new bv8[30](_ => 0);
    buf[0], buf[1] := h[0] & 0x8f, (h[1] & 0xc7) | 0x40;
    CopyBytes(buf, 2, h[4..22]);
    buf[20], buf[21] := h[22] & 0x0f, 0;
    ghost var start := [h[0] & 0x8f, (h[1] & 0xc7) | 0x40] + h[4..22] + [h[22] & 0x0f, 0];
    assert buf[..22] == start;
    if HasA4(h[1]) {
      CopyBytes(buf, 22, A4(h));
      buf[28], buf[29] := QosTid(h), 0;
      assert buf[..] == start + (A4(h) + [QosTid(h), 0]);
    } else {
      CopyBytes(buf, 22, [0, 0, 0, 0, 0, 0, 0, 0]);
      buf[22] := QosTid(h);
      assert buf[..] == start + [QosTid(h), 0, 0, 0, 0, 0, 0, 0];
    }
    aad := buf[..|h| - 2];
    assert aad == buf[..][..|h| - 2];
  }

  function A4(h: DataHeader): (a: Bytes)
    requires HasA4(h[1])
    ensures a == h[24..30]
  {
    h[24..30]
  }

  method TkipEncryptData(p: Primitives, tk: TkipMixing.Key, h: DataHeader, pn: bv48, plain: Bytes) returns (cipher: Bytes)
    ensures cipher == WepSeal(p, PacketKey(p.sbox, tk, Addr2(h), pn), plain)
  {
    hide WepSeal, PacketKey;
    var rc4key := TkipKey(p, tk, Addr2(h), pn);
    var data := new bv8[|plain| + ICV_LEN](i => if 0 <= i < |plain| then plain[i] else 0);
    assert data[..|plain|] == plain;
    WepEncryptData(p, rc4key, data, |plain|);
    cipher := data[..];
  }

  /** `r92su_tx_add_crypto`: the trailer, and encryption unless the hardware does it. */
  method TxAddCrypto(p: Primitives, skb: Skb, key: R92suKey)
    requires key.keys.Valid() && IsFrame(skb.data) && |FrameHeader(skb.data)| + IV_LEN <= |skb.data|
    modifies skb`data
    ensures var h := FrameHeader(old(skb.data));
            var n := |h| + IV_LEN;
            skb.data == old(skb.data)[..n] + Protected(p, key.keys, skb.soft, h, old(skb.data)[n..], skb.pn)
  {
    hide MicOf, WepSeal, PacketKey, Nonce, Aad, IsHeader, IsData;
    var h := FrameHeader(skb.data);
    var n := |h| + IV_LEN;
    var head, body := skb.data[..n], skb.data[n..];
    match key.keys.suite
    case Tkip =>
      var mic := MichaelMic(key.keys.txMic, h, body);
      if skb.soft {
        var cipher := TkipEncryptData(p, key.keys.tk, h, skb.pn, body + mic);
        skb.data := head + cipher;
      } else {
        skb.data := head + (body + mic);
      }
    case Ccmp =>
      if skb.soft {
        var nonce, aad := CcmpSpecialBlocks(h, skb.pn);
        var s := p.seal(key.keys.tk, nonce, aad, body);
        skb.data := head + (s.0 + s.1);
      }
  }

  /** Transmit: both handlers in their order. */
  method SendFrame(p: Primitives, skb: Skb, key: R92suKey)
    requires key.keys.Valid() && IsFrame(skb.data)
    modifies skb, key`txSeq
    ensures var h := FrameHeader(old(skb.data));
            skb.data == Send(p, key.keys, skb.soft, h, old(skb.data)[|h|..], old(key.txSeq))
    ensures key.txSeq == Next(old(key.txSeq))
  {
    hide Protected, IvBytes;
    ghost var h := FrameHeader(skb.data);
    ghost var body: Bytes := skb.data[|h|..];
    ghost var iv: Bytes := IvBytes(key.keys.suite, key.txSeq, key.keys.index);
    TxAddIv(skb, key);
    HeaderInFront(h, iv + body);
    assert skb.data == h + (iv + body);
    Slices(h, iv, body);
    TxAddCrypto(p, skb, key);
    assert (h + (iv + body))[..|h| + IV_LEN] == h + iv;
  }

  lemma {:induction false} HeaderInFront(h: DataHeader, rest: Bytes)
    ensures IsFrame(h + rest) && FrameHeader(h + rest) == h
  {
    hide IsData;
    assert (h + rest)[0] == h[0] && (h + rest)[1] == h[1];
  }

  // ---------------------------------------------------------------------------------------------
  // Receive

  /** `r92su_rx_iv_handle`: the packet number is read, replays are dropped, the header moves back over the IV. */
  method RxIvHandle(skb: Skb, key: R92suKey) returns (ok: bool)
    requires IsFrame(skb.data) && |FrameHeader(skb.data)| + IV_LEN <= |skb.data|
    modifies skb
    ensures var h := FrameHeader(old(skb.data));
            var iv := old(skb.data)[|h|..|h| + IV_LEN];
            var pn := PnOf(key.keys.suite, iv);
            && ok == (HasExtIv(iv) && !Replayed(pn, key.rxSeq))
            && (ok ==> skb.pn == pn && skb.data == h + old(skb.data)[|h| + IV_LEN..])
  {
    hide IsData, PnOf, HasExtIv, Replayed;
    var n := HdrLen(skb.data[0], skb.data[1]);
    assert |FrameHeader(skb.data)| == n && |skb.data| > IV_LEN;
    var iv := skb.data[n..n + IV_LEN];
    if !HasExtIv(iv) {
      return false;
    }
    var seqno := ReadPn(key.keys.suite, iv);
    if Replayed(seqno, key.rxSeq) {
      return false;
    }
    skb.pn := seqno;
    if |skb.data| <= IV_LEN {
      return false;
    }
    skb.data := skb.data[..n] + skb.data[n + IV_LEN..];
    ok := true;
  }

  /** The packet number, shifted in from the highest byte. */
  method ReadPn(suite: Suite, iv: Bytes) returns (pn: bv48)
    requires |iv| == IV_LEN
    ensures pn == PnOf(suite, iv)
  {
    hide JoinBytes, ShiftIn;
    pn := iv[7] as bv48;
    pn := ShiftIn(pn, iv[6]);
    pn := ShiftIn(pn, iv[5]);
    pn := ShiftIn(pn, iv[4]);
    match suite
    case Tkip =>
      pn := ShiftIn(pn, iv[0]);
      pn := ShiftIn(pn, iv[2]);
      ShiftedIn(iv[7], iv[6], iv[5], iv[4], iv[0], iv[2]);
    case Ccmp =>
      pn := ShiftIn(pn, iv[1]);
      pn := ShiftIn(pn, iv[0]);
      ShiftedIn(iv[7], iv[6], iv[5], iv[4], iv[1], iv[0]);
  }

  function ShiftIn(n: bv48, b: bv8): bv48 {
    (n << 8) + (b as bv48)
  }

  function ShiftOr(n: bv48, b: bv8): bv48 {
    (n << 8) | (b as bv48)
  }

  /** The low byte of a shifted word is free, so adding to it is setting it. */
  lemma {:induction false} ShiftInSets(n: bv48, b: bv8)
    ensures ShiftIn(n, b) == ShiftOr(n, b)
  {
  }

  lemma {:induction false} SetBytesJoin(b5: bv8, b4: bv8, b3: bv8, b2: bv8, b1: bv8, b0: bv8)
    ensures ShiftOr(ShiftOr(ShiftOr(ShiftOr(ShiftOr(b5 as bv48, b4), b3), b2), b1), b0) == JoinBytes(b5, b4, b3, b2, b1, b0)
  {
  }

  lemma {:induction false} ShiftedIn(b5: bv8, b4: bv8, b3: bv8, b2: bv8, b1: bv8, b0: bv8)
    ensures ShiftIn(ShiftIn(ShiftIn(ShiftIn(ShiftIn(b5 as bv48, b4), b3), b2), b1), b0) == JoinBytes(b5, b4, b3, b2, b1, b0)
  {
    hide ShiftIn, ShiftOr, JoinBytes;
    var n5 := b5 as bv48;
    var n4 := ShiftOr(n5, b4);
    var n3 := ShiftOr(n4, b3);
    var n2 := ShiftOr(n3, b2);
    var n1 := ShiftOr(n2, b1);
    ShiftInSets(n5, b4);
    ShiftInSets(n4, b3);
    ShiftInSets(n3, b2);
    ShiftInSets(n2, b1);
    ShiftInSets(n1, b0);
    SetBytesJoin(b5, b4, b3, b2, b1, b0);
  }

  method TkipDecryptData(p: Primitives, tk: TkipMixing.Key, h: DataHeader, pn: bv48, cipher: Bytes) returns (plain: Option<Bytes>)
    requires |cipher| >= ICV_LEN
    ensures plain == WepOpen(p, PacketKey(p.sbox, tk, Addr2(h), pn), cipher)
  {
    hide WepOpen, PacketKey;
    var rc4key := TkipKey(p, tk, Addr2(h), pn);
    var data := new bv8[|cipher|](i requires 0 <= i < |cipher| => cipher[i]);
    assert data[..] == cipher;
    var ok := WepDecryptData(p, rc4key, data, |cipher| - ICV_LEN);
    plain := if ok then Some(data[..]) else None;
  }

  /** Decryption in software: `ieee80211_tkip_decrypt_data`, `ieee80211_aes_ccm_decrypt` */
  method Decrypt(p: Primitives, keys: Keys, h: DataHeader, cipher: Bytes, pn: bv48) returns (plain: Option<Bytes>)
    requires |cipher| >= CCMP_MIC_LEN
    ensures plain == Unsealed(p, keys, h, cipher, pn)
  {
    hide WepOpen, PacketKey, Nonce, Aad, IsHeader, IsData;
    match keys.suite
    case Tkip =>
      plain := TkipDecryptData(p, keys.tk, h, pn, cipher);
    case Ccmp =>
      var n := |cipher| - CCMP_MIC_LEN;
      if n == 0 {
        return None;
      }
      var nonce, aad := CcmpSpecialBlocks(h, pn);
      var data := p.open(keys.tk, nonce, aad, cipher[..n], cipher[n..]);
      plain := if data.Some? then Some(data.value + cipher[n..]) else None;
  }

  /** `r92su_rx_tkip_handle` */
  method RxTkipHandle(keys: Keys, h: DataHeader, plain: Bytes) returns (ok: bool)
    requires keys.Valid() && keys.suite == Tkip
    ensures ok == Verified(keys, h, plain)
  {
    hide MicOf, IsHeader, IsData;
    var n := |plain| - ICV_LEN - MICHAEL_LEN;
    if n < 0 {
      return false;
    }
    var mic := MichaelMic(keys.rxMic, h, plain[..n]);
    ok := mic == plain[n..n + MICHAEL_LEN];
  }

  lemma {:induction false} CcmpVerified(keys: Keys, h: DataHeader, plain: Bytes)
    requires keys.Valid()
    ensures keys.suite == Ccmp ==> Verified(keys, h, plain)
  {
  }

  /** Nothing to do where the hardware has decrypted the frame. */
  method NeedsDecrypt(p: Primitives, skb: Skb, keys: Keys) returns (plain: Option<Bytes>)
    requires IsFrame(skb.data) && |FrameHeader(skb.data)| + CCMP_MIC_LEN <= |skb.data|
    ensures var h := FrameHeader(skb.data);
            plain == Opened(p, keys, skb.soft, h, skb.data[|h|..], skb.pn)
  {
    hide Unsealed;
    var h := FrameHeader(skb.data);
    if skb.soft {
      plain := Decrypt(p, keys, h, skb.data[|h|..], skb.pn);
    } else {
      plain := Some(skb.data[|h|..]);
    }
  }

  /** `r92su_rx_crypto_handle`: decryption unless the hardware did it, verification, the counter, the trailer. */
  method RxCryptoHandle(p: Primitives, skb: Skb, key: R92suKey) returns (ok: bool)
    requires key.keys.Valid() && IsFrame(skb.data) && |FrameHeader(skb.data)| + CCMP_MIC_LEN <= |skb.data|
    modifies skb`data, key`rxSeq
    ensures var h := FrameHeader(old(skb.data));
            var r := Decrypted(p, key.keys, skb.soft, old(key.rxSeq), h, old(skb.data)[|h|..], skb.pn);
            && key.rxSeq == r.rxSeq
            && ok == r.frame.Some?
            && (ok ==> skb.data == r.frame.value)
  {
    hide Opened, IsHeader, IsData, Verified;
    var h := FrameHeader(skb.data);
    var plain := NeedsDecrypt(p, skb, key.keys);
    if plain.None? {
      return false;
    }
    skb.data := h + plain.value;
    if key.keys.suite == Tkip {
      var verified := RxTkipHandle(key.keys, h, plain.value);
      if !verified {
        return false;
      }
    }
    CcmpVerified(key.keys, h, plain.value);
    key.rxSeq := skb.pn;
    var removeLen := TrailerLen(key.keys.suite);
    if |skb.data| <= removeLen {
      return false;
    }
    skb.data := skb.data[..|skb.data| - removeLen];
    ok := true;
  }

  /** Receive: both handlers in their order. */
  method ReceiveFrame(p: Primitives, skb: Skb, key: R92suKey) returns (ok: bool)
    requires key.keys.Valid() && IsFrame(skb.data) && OnAir(FrameHeader(skb.data), skb.data)
    modifies skb, key`rxSeq
    ensures var r := Receive(p, key.keys, skb.soft, old(key.rxSeq), FrameHeader(old(skb.data)), old(skb.data));
            && key.rxSeq == r.rxSeq
            && ok == r.frame.Some?
            && (ok ==> skb.data == r.frame.value)
  {
    hide Decrypted, PnOf, HasExtIv, Replayed, IsHeader, IsData;
    ghost var h := FrameHeader(skb.data);
    ok := RxIvHandle(skb, key);
    if ok {
      HeaderInFront(h, skb.data[|h|..]);
      assert skb.data == h + skb.data[|h|..];
      ok := RxCryptoHandle(p, skb, key);
    }
  }
}
