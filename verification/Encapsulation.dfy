/** What software encryption does to a data frame on its way out and back: a frame is a header and a
    body, on the air there are eight bytes of IV between them and a trailer behind. */
module Encapsulation {
  import opened Ieee80211
  import opened Michael
  import opened PacketNumbers
  import opened TkipMixing
  import opened Wrappers

  /** The kernel's ciphers: a keyed byte stream and its inverse, a checksum, an authenticated cipher. */
  datatype Primitives = Primitives(
    sbox: Sbox,
    stream: (Bytes, nat, bv8) -> bv8,
    unstream: (Bytes, nat, bv8) -> bv8,
    checksum: Bytes -> bv32,
    seal: (Bytes, Bytes, Bytes, Bytes) -> (Bytes, Bytes),
    open: (Bytes, Bytes, Bytes, Bytes, Bytes) -> Option<Bytes>)
  {
    ghost predicate Lawful() {
      && (forall key, i, b :: unstream(key, i, stream(key, i, b)) == b)
      && (forall key, nonce, aad, data ::
            var s := seal(key, nonce, aad, data);
            |s.0| == |data| && |s.1| == CCMP_MIC_LEN && open(key, nonce, aad, s.0, s.1) == Some(data))
      && (forall key, nonce, aad, c, mic :: open(key, nonce, aad, c, mic).Some? ==> |open(key, nonce, aad, c, mic).value| == |c|)
    }
  }

  const IV_LEN: nat := 8
  const ICV_LEN: nat := 4
  const MICHAEL_LEN: nat := 8
  const CCMP_MIC_LEN: nat := 8

  /** Data frames; beside four addresses and QoS the AAD buffer has no room for an HT control field. */
  type DataHeader = h: Header | IsData(h[0]) && |h| <= 32 witness seq(24, i => if i == 0 then 0x08 else 0)

  datatype Suite = Tkip | Ccmp

  /** Key material as one end holds it. */
  datatype Keys = Keys(suite: Suite, index: bv8, tk: Key, txMic: Bytes, rxMic: Bytes) {
    predicate Valid() {
      |txMic| == 8 && |rxMic| == 8
    }
  }

  /** The other end's keys fit: same temporal key, and it verifies with what this end signs with. */
  predicate Match(sender: Keys, receiver: Keys) {
    sender.suite == receiver.suite && sender.tk == receiver.tk && sender.txMic == receiver.rxMic
  }

  // ---------------------------------------------------------------------------------------------
  // The IV carries the packet number

  function PnByte(pn: bv48, shift: bv6): bv8
    requires shift <= 40
  {
    ((pn >> shift) & 0xff) as bv8
  }

  /** Key index, and the flag of an extended IV. */
  function KeyIdByte(index: bv8): bv8 {
    (index << 6) | 0x20
  }

  /** The byte that keeps old WEP hardware away from its weak keys. */
  function WepSeed(b: bv8): bv8 {
    (b | 0x20) & 0x7f
  }

  function IvBytes(suite: Suite, pn: bv48, index: bv8): (iv: Bytes)
    ensures |iv| == IV_LEN
  {
    var flags := KeyIdByte(index);
    match suite
    case Tkip =>
      [PnByte(pn, 8), WepSeed(PnByte(pn, 8)), PnByte(pn, 0), flags, PnByte(pn, 16), PnByte(pn, 24), PnByte(pn, 32), PnByte(pn, 40)]
    case Ccmp =>
      [PnByte(pn, 0), PnByte(pn, 8), 0, flags, PnByte(pn, 16), PnByte(pn, 24), PnByte(pn, 32), PnByte(pn, 40)]
  }

  /** Six bytes, the highest first. */
  function JoinBytes(b5: bv8, b4: bv8, b3: bv8, b2: bv8, b1: bv8, b0: bv8): bv48 {
    ((b5 as bv48) << 40) | ((b4 as bv48) << 32) | ((b3 as bv48) << 24) | ((b2 as bv48) << 16) | ((b1 as bv48) << 8) | (b0 as bv48)
  }

  function HasExtIv(iv: Bytes): bool
    requires |iv| == IV_LEN
  {
    iv[3] & 0x20 != 0
  }

  function PnOf(suite: Suite, iv: Bytes): bv48
    requires |iv| == IV_LEN
  {
    match suite
    case Tkip => JoinBytes(iv[7], iv[6], iv[5], iv[4], iv[0], iv[2])
    case Ccmp => JoinBytes(iv[7], iv[6], iv[5], iv[4], iv[1], iv[0])
  }

  lemma {:induction false} JoinOfBytes(pn: bv48)
    ensures JoinBytes(PnByte(pn, 40), PnByte(pn, 32), PnByte(pn, 24), PnByte(pn, 16), PnByte(pn, 8), PnByte(pn, 0)) == pn
  {
    calc {
      JoinBytes(PnByte(pn, 40), PnByte(pn, 32), PnByte(pn, 24), PnByte(pn, 16), PnByte(pn, 8), PnByte(pn, 0));
      (((((pn >> 40) & 0xff) as bv8) as bv48) << 40) | (((((pn >> 32) & 0xff) as bv8) as bv48) << 32)
        | (((((pn >> 24) & 0xff) as bv8) as bv48) << 24) | (((((pn >> 16) & 0xff) as bv8) as bv48) << 16)
        | (((((pn >> 8) & 0xff) as bv8) as bv48) << 8) | ((((pn >> 0) & 0xff) as bv8) as bv48);
      pn;
    }
  }

  /** The receiver reads back the number the sender wrote, and finds the extended-IV flag set. */
  lemma {:induction false} IvRoundTrip(suite: Suite, pn: bv48, index: bv8)
    ensures PnOf(suite, IvBytes(suite, pn, index)) == pn && HasExtIv(IvBytes(suite, pn, index))
  {
    JoinOfBytes(pn);
    ExtIvFlag(index);
    hide JoinBytes, PnByte;
  }

  lemma {:induction false} ExtIvFlag(index: bv8)
    ensures KeyIdByte(index) & 0x20 != 0
  {
  }

  /** The first three bytes of the RC4 key are the ones that travel in the clear. */
  lemma {:induction false} ClearKeyBytes(s: Sbox, tk: Key, ta: Bytes, pn: bv48, index: bv8)
    requires |ta| == 6
    ensures PacketKey(s, tk, ta, pn)[..3] == IvBytes(Tkip, pn, index)[..3]
  {
    LowHalf(pn);
    hide Lo, Hi, PnByte, PpkBytes, Sweep1, Sweep2, Phase1;
  }

  lemma {:induction false} LowHalf(pn: bv48)
    ensures Hi((pn & 0xffff) as bv16) == PnByte(pn, 8) && Lo((pn & 0xffff) as bv16) == PnByte(pn, 0)
  {
  }

  // ---------------------------------------------------------------------------------------------
  // Sending

  function ApplyStream(f: (Bytes, nat, bv8) -> bv8, key: Bytes, s: Bytes): (r: Bytes)
    ensures |r| == |s| && forall i :: 0 <= i < |s| ==> r[i] == f(key, i, s[i])
  {
    seq(|s|, i requires 0 <= i < |s| => f(key, i, s[i]))
  }

  /** data = RC4(data | checksum(data)) */
  function WepSeal(p: Primitives, rc4key: Bytes, data: Bytes): Bytes {
    ApplyStream(p.stream, rc4key, data + LeBytes(p.checksum(data)))
  }

  /** Flags, transmitter and packet number. */
  function Nonce(h: DataHeader, pn: bv48): (n: Bytes)
    ensures |n| == 14
  {
    [0x01, QosTid(h) | (if IsMgmt(h[0]) then 0x10 else 0)] + Addr2(h)
      + [PnByte(pn, 40), PnByte(pn, 32), PnByte(pn, 24), PnByte(pn, 16), PnByte(pn, 8), PnByte(pn, 0)]
  }

  /** The header as it is authenticated: subtype, retry, power management, more-data and the sequence
      number masked out. */
  function Aad(h: DataHeader): (a: Bytes)
    ensures |a| == |h| - 2
  {
    ([h[0] & 0x8f, (h[1] & 0xc7) | 0x40] + h[4..22] + [h[22] & 0x0f, 0]
      + (if HasA4(h[1]) then h[24..30] + [QosTid(h), 0] else [QosTid(h), 0, 0, 0, 0, 0, 0, 0]))[..|h| - 2]
  }

  /** What leaves the driver; without software encryption the hardware does the rest. */
  function Send(p: Primitives, k: Keys, soft: bool, h: DataHeader, body: Bytes, pn: bv48): Bytes
    requires k.Valid()
  {
    h + IvBytes(k.suite, pn, k.index) + Protected(p, k, soft, h, body, pn)
  }

  function Protected(p: Primitives, k: Keys, soft: bool, h: DataHeader, body: Bytes, pn: bv48): Bytes
    requires k.Valid()
  {
    if soft then Sealed(p, k, h, body, pn) else Signed(k, h, body)
  }

  /** TKIP's Michael code is the driver's work in any case. */
  function Signed(k: Keys, h: DataHeader, body: Bytes): Bytes
    requires k.Valid()
  {
    match k.suite
    case Tkip => body + MicOf(k.txMic, h, body)
    case Ccmp => body
  }

  function Sealed(p: Primitives, k: Keys, h: DataHeader, body: Bytes, pn: bv48): Bytes
    requires k.Valid()
  {
    match k.suite
    case Tkip => WepSeal(p, PacketKey(p.sbox, k.tk, Addr2(h), pn), Signed(k, h, body))
    case Ccmp => var s := p.seal(k.tk, Nonce(h, pn), Aad(h), body); s.0 + s.1
  }

  // ---------------------------------------------------------------------------------------------
  // Receiving

  /** The counter afterwards, and the frame without IV and trailer unless it was dropped. */
  datatype Received = Received(rxSeq: bv48, frame: Option<Bytes>)

  /** Decrypted in place: data and checksum, if the checksum fits. */
  function WepOpen(p: Primitives, rc4key: Bytes, cipher: Bytes): Option<Bytes>
    requires |cipher| >= ICV_LEN
  {
    var plain := ApplyStream(p.unstream, rc4key, cipher);
    var n := |plain| - ICV_LEN;
    if plain[n..] == LeBytes(p.checksum(plain[..n])) then Some(plain) else None
  }

  /** A frame on the air: header, IV, and a body no shorter than its trailer. */
  ghost predicate OnAir(h: DataHeader, air: Bytes) {
    |h| + IV_LEN + CCMP_MIC_LEN <= |air| && air[..|h|] == h
  }

  /** Decryption, unless the hardware has done it. */
  function Opened(p: Primitives, k: Keys, soft: bool, h: DataHeader, cipher: Bytes, pn: bv48): Option<Bytes>
    requires |cipher| >= CCMP_MIC_LEN
  {
    if soft then Unsealed(p, k, h, cipher, pn) else Some(cipher)
  }

  function Unsealed(p: Primitives, k: Keys, h: DataHeader, cipher: Bytes, pn: bv48): Option<Bytes>
    requires |cipher| >= CCMP_MIC_LEN
  {
    match k.suite
    case Tkip => WepOpen(p, PacketKey(p.sbox, k.tk, Addr2(h), pn), cipher)
    case Ccmp =>
      var n := |cipher| - CCMP_MIC_LEN;
      if n == 0 then None
      else
        match p.open(k.tk, Nonce(h, pn), Aad(h), cipher[..n], cipher[n..])
        case None => None
        case Some(data) => Some(data + cipher[n..])
  }

  /** The checks behind decryption: for TKIP the Michael code between data and checksum. */
  predicate Verified(k: Keys, h: DataHeader, plain: Bytes)
    requires k.Valid()
  {
    match k.suite
    case Tkip =>
      var n := |plain| - ICV_LEN - MICHAEL_LEN;
      0 <= n && plain[n..n + MICHAEL_LEN] == MicOf(k.rxMic, h, plain[..n])
    case Ccmp => true
  }

  function TrailerLen(suite: Suite): nat {
    match suite
    case Tkip => ICV_LEN + MICHAEL_LEN
    case Ccmp => CCMP_MIC_LEN
  }

  function Receive(p: Primitives, k: Keys, soft: bool, rxSeq: bv48, h: DataHeader, air: Bytes): Received
    requires k.Valid() && |h| + IV_LEN + CCMP_MIC_LEN <= |air|
  {
    Decapsulate(p, k, soft, rxSeq, h, air[|h|..|h| + IV_LEN], air[|h| + IV_LEN..])
  }

  function Decapsulate(p: Primitives, k: Keys, soft: bool, rxSeq: bv48, h: DataHeader, iv: Bytes, cipher: Bytes): Received
    requires k.Valid() && |iv| == IV_LEN && |cipher| >= CCMP_MIC_LEN
  {
    var pn := PnOf(k.suite, iv);
    if !HasExtIv(iv) || Replayed(pn, rxSeq) then Received(rxSeq, None)
    else Decrypted(p, k, soft, rxSeq, h, cipher, pn)
  }

  function Decrypted(p: Primitives, k: Keys, soft: bool, rxSeq: bv48, h: DataHeader, cipher: Bytes, pn: bv48): Received
    requires k.Valid() && |cipher| >= CCMP_MIC_LEN
  {
    match Opened(p, k, soft, h, cipher, pn)
    case None => Received(rxSeq, None)
    case Some(plain) =>
      if !Verified(k, h, plain) then Received(rxSeq, None) else Received(pn, Trimmed(h + plain, TrailerLen(k.suite)))
  }

  /** The trailer is taken off a frame that is longer than it. */
  function Trimmed(frame: Bytes, n: nat): Option<Bytes> {
    if |frame| <= n then None else Some(frame[..|frame| - n])
  }

  // ---------------------------------------------------------------------------------------------
  // Receiving undoes sending

  /** A header as it may arrive: type, addresses, fragment number and TID unchanged, the rest of what
      the ciphers do not protect retouched on the way. */
  ghost predicate Retouched(h: DataHeader, h': DataHeader) {
    && |h'| == |h|
    && h'[0] & 0x8f == h[0] & 0x8f
    && h'[1] & 0xc7 == h[1] & 0xc7
    && h'[4..22] == h[4..22]
    && h'[22] & 0x0f == h[22] & 0x0f
    && (HasA4(h[1]) ==> h'[24..30] == h[24..30])
    && QosTid(h') == QosTid(h)
  }

  lemma {:induction false} FlagsKept(a: bv8, b: bv8)
    requires a & 0xc7 == b & 0xc7
    ensures HasA4(a) == HasA4(b) && HasToDs(a) == HasToDs(b) && HasFromDs(a) == HasFromDs(b)
  {
  }

  lemma {:induction false} TypeKept(a: bv8, b: bv8)
    requires a & 0x8f == b & 0x8f
    ensures IsData(a) == IsData(b) && IsMgmt(a) == IsMgmt(b) && IsQosData(a) == IsQosData(b)
  {
  }

  /** Nothing that the ciphers compute sees the retouching. */
  lemma {:induction false} RetouchedInvisible(h: DataHeader, h': DataHeader, pn: bv48)
    requires Retouched(h, h')
    ensures Addr2(h') == Addr2(h) && Destination(h') == Destination(h) && Source(h') == Source(h)
    ensures Nonce(h', pn) == Nonce(h, pn) && Aad(h') == Aad(h)
  {
    FlagsKept(h'[1], h[1]);
    TypeKept(h'[0], h[0]);
    hide QosTid, HasA4, HasToDs, HasFromDs, IsMgmt, IsQosData, PnByte;
    assert forall i :: 4 <= i < 22 ==> h'[4..22][i - 4] == h'[i] && h[4..22][i - 4] == h[i];
    assert h'[10..16] == h'[4..22][6..12] && h[10..16] == h[4..22][6..12];
    assert h'[4..10] == h'[4..22][..6] && h[4..10] == h[4..22][..6];
    assert h'[16..22] == h'[4..22][12..] && h[16..22] == h[4..22][12..];
  }

  lemma {:induction false} StreamUndone(p: Primitives, key: Bytes, s: Bytes)
    requires p.Lawful()
    ensures ApplyStream(p.unstream, key, ApplyStream(p.stream, key, s)) == s
  {
    var t := ApplyStream(p.stream, key, s);
    forall i | 0 <= i < |s|
      ensures ApplyStream(p.unstream, key, t)[i] == s[i]
    {
      assert p.unstream(key, i, p.stream(key, i, s[i])) == s[i];
    }
  }

  lemma {:induction false} Slices(a: Bytes, b: Bytes, c: Bytes)
    ensures var s := a + (b + c);
            s[..|a|] == a && s[|a|..] == b + c && s[|a|..|a| + |b|] == b && s[|a| + |b|..] == c && s == a + b + c
  {
  }

  lemma {:induction false} WepRoundTrip(p: Primitives, key: Bytes, data: Bytes)
    requires p.Lawful()
    ensures |WepSeal(p, key, data)| == |data| + ICV_LEN
    ensures WepOpen(p, key, WepSeal(p, key, data)) == Some(data + LeBytes(p.checksum(data)))
  {
    hide LeBytes, ApplyStream;
    var s := data + LeBytes(p.checksum(data));
    StreamUndone(p, key, s);
    assert s[..|s| - ICV_LEN] == data && s[|s| - ICV_LEN..] == LeBytes(p.checksum(data));
  }

  /** What is opened is what was sealed, with the trailer still behind it. */
  lemma {:induction false} OpenSealed(p: Primitives, k: Keys, k': Keys, h: DataHeader, h': DataHeader, body: Bytes, pn: bv48)
    requires p.Lawful() && k.Valid() && k'.Valid() && Match(k, k') && Retouched(h, h') && (k.suite == Ccmp ==> body != [])
    ensures |Sealed(p, k, h, body, pn)| == |body| + TrailerLen(k.suite)
    ensures var o := Unsealed(p, k', h', Sealed(p, k, h, body, pn), pn);
            && o.Some? && |o.value| == |body| + TrailerLen(k.suite) && o.value[..|body|] == body
            && Verified(k', h', o.value)
  {
    hide Nonce, Aad, PacketKey, MicOf, LeBytes, WepSeal, WepOpen, Source, Destination, QosTid, Fold, MessageWords;
    RetouchedInvisible(h, h', pn);
    var c := Sealed(p, k, h, body, pn);
    match k.suite
    case Tkip =>
      var mic := MicOf(k.txMic, h, body);
      MicSame(k.txMic, h, h', body);
      WepRoundTrip(p, PacketKey(p.sbox, k.tk, Addr2(h), pn), body + mic);
      var plain := body + mic + LeBytes(p.checksum(body + mic));
      assert plain[..|body|] == body && plain[|body|..|body| + MICHAEL_LEN] == mic;
    case Ccmp =>
      var s := p.seal(k.tk, Nonce(h, pn), Aad(h), body);
      assert c[..|body|] == s.0 && c[|body|..] == s.1;
  }

  lemma {:induction false} MicSame(key: Bytes, h: DataHeader, h': DataHeader, body: Bytes)
    requires |key| == 8 && Destination(h') == Destination(h) && Source(h') == Source(h) && QosTid(h') == QosTid(h)
    ensures MicOf(key, h', body) == MicOf(key, h, body)
  {
  }

  /** Receiving undoes sending, for every header, body and packet number, however the unprotected header
      fields were retouched on the way; a number not above the receiver's is refused. */
  lemma {:induction false} RoundTrip(p: Primitives, k: Keys, k': Keys, h: DataHeader, h': DataHeader, body: Bytes, pn: bv48, rxSeq: bv48)
    requires p.Lawful() && k.Valid() && k'.Valid() && Match(k, k') && Retouched(h, h') && (k.suite == Ccmp ==> body != [])
    ensures var air := h' + Send(p, k, true, h, body, pn)[|h|..];
            && OnAir(h', air)
            && Receive(p, k', true, rxSeq, h', air) == if Replayed(pn, rxSeq) then Received(rxSeq, None) else Received(pn, Some(h' + body))
  {
    hide Decapsulate, Sealed, IvBytes, Retouched, Replayed;
    var iv := IvBytes(k.suite, pn, k.index);
    var c := Sealed(p, k, h, body, pn);
    Slices(h, iv, c);
    Slices(h', iv, c);
    DecapsulateSealed(p, k, k', h, h', body, pn, rxSeq);
  }

  lemma {:induction false} DecapsulateSealed(p: Primitives, k: Keys, k': Keys, h: DataHeader, h': DataHeader, body: Bytes, pn: bv48, rxSeq: bv48)
    requires p.Lawful() && k.Valid() && k'.Valid() && Match(k, k') && Retouched(h, h') && (k.suite == Ccmp ==> body != [])
    ensures |Sealed(p, k, h, body, pn)| == |body| + TrailerLen(k.suite)
    ensures Decapsulate(p, k', true, rxSeq, h', IvBytes(k.suite, pn, k.index), Sealed(p, k, h, body, pn))
         == if Replayed(pn, rxSeq) then Received(rxSeq, None) else Received(pn, Some(h' + body))
  {
    hide Sealed, Unsealed, Verified, IvBytes, PnOf, HasExtIv, Retouched, Primitives.Lawful, Match, Keys.Valid, Trimmed, IsHeader, IsData, Decapsulate, Opened, Replayed;
    OpenSealed(p, k, k', h, h', body, pn);
    SameSuite(k, k');
    IvRoundTrip(k.suite, pn, k.index);
    var c := Sealed(p, k, h, body, pn);
    var plain := Unsealed(p, k', h', c, pn).value;
    NotEmpty(h');
    TrimTrailer(h', plain, body);
    OpenedSoft(p, k', h', c, pn);
    DecapsulateGood(p, k', true, h', IvBytes(k.suite, pn, k.index), c, plain, pn, rxSeq);
  }

  lemma {:induction false} NotEmpty(h: DataHeader)
    ensures |h| >= 24
  {
  }

  lemma {:induction false} DecryptedGood(p: Primitives, k: Keys, soft: bool, h: DataHeader, c: Bytes, plain: Bytes, pn: bv48, rxSeq: bv48)
    requires k.Valid() && |c| >= CCMP_MIC_LEN
    requires Opened(p, k, soft, h, c, pn) == Some(plain) && Verified(k, h, plain)
    ensures Decrypted(p, k, soft, rxSeq, h, c, pn) == Received(pn, Trimmed(h + plain, TrailerLen(k.suite)))
  {
    hide Opened, Verified, Keys.Valid, Trimmed, TrailerLen, IsHeader, IsData;
  }

  lemma {:induction false} DecapsulateGood(p: Primitives, k: Keys, soft: bool, h: DataHeader, iv: Bytes, c: Bytes, plain: Bytes, pn: bv48, rxSeq: bv48)
    requires k.Valid() && |iv| == IV_LEN && |c| >= CCMP_MIC_LEN
    requires HasExtIv(iv) && PnOf(k.suite, iv) == pn
    requires Opened(p, k, soft, h, c, pn) == Some(plain) && Verified(k, h, plain)
    ensures Decapsulate(p, k, soft, rxSeq, h, iv, c)
         == if Replayed(pn, rxSeq) then Received(rxSeq, None) else Received(pn, Trimmed(h + plain, TrailerLen(k.suite)))
  {
    hide Verified, PnOf, HasExtIv, Keys.Valid, Trimmed, TrailerLen, IsHeader, IsData, Opened, Decrypted, Replayed;
    DecryptedGood(p, k, soft, h, c, plain, pn, rxSeq);
  }

  lemma {:induction false} OpenedSoft(p: Primitives, k: Keys, h: DataHeader, c: Bytes, pn: bv48)
    requires |c| >= CCMP_MIC_LEN
    ensures Opened(p, k, true, h, c, pn) == Unsealed(p, k, h, c, pn) && Opened(p, k, false, h, c, pn) == Some(c)
  {
    hide Unsealed;
  }

  /** Where the hardware encrypts and decrypts, it leaves its trailer, whatever that holds, behind the
      signed body; the driver's part of the way out is undone all the same. */
  lemma {:induction false} HardwareRoundTrip(p: Primitives, k: Keys, k': Keys, h: DataHeader, h': DataHeader, body: Bytes,
                                             trailer: Bytes, pn: bv48, rxSeq: bv48)
    requires k.Valid() && k'.Valid() && Match(k, k') && Retouched(h, h')
    requires |trailer| == if k.suite == Tkip then ICV_LEN else CCMP_MIC_LEN
    ensures |Signed(k, h, body) + trailer| == |body| + TrailerLen(k.suite)
    ensures Decapsulate(p, k', false, rxSeq, h', IvBytes(k.suite, pn, k.index), Signed(k, h, body) + trailer)
         == if Replayed(pn, rxSeq) then Received(rxSeq, None) else Received(pn, Some(h' + body))
  {
    SignedVerifies(k, k', h, h', body, trailer);
    hide Signed, Opened, Verified, IvBytes, PnOf, HasExtIv, Retouched, Match, Keys.Valid, Trimmed, IsHeader, IsData, Decapsulate, Replayed;
    SameSuite(k, k');
    IvRoundTrip(k.suite, pn, k.index);
    var c := Signed(k, h, body) + trailer;
    OpenedSoft(p, k', h', c, pn);
    NotEmpty(h');
    TrimTrailer(h', c, body);
    DecapsulateGood(p, k', false, h', IvBytes(k.suite, pn, k.index), c, c, pn, rxSeq);
  }

  lemma {:induction false} SignedVerifies(k: Keys, k': Keys, h: DataHeader, h': DataHeader, body: Bytes, trailer: Bytes)
    requires k.Valid() && k'.Valid() && Match(k, k') && Retouched(h, h')
    requires |trailer| == if k.suite == Tkip then ICV_LEN else CCMP_MIC_LEN
    ensures var c := Signed(k, h, body) + trailer;
            |c| == |body| + TrailerLen(k.suite) && c[..|body|] == body && Verified(k', h', c)
  {
    hide MicOf, Source, Destination, QosTid, IsHeader, IsData;
    var c := Signed(k, h, body) + trailer;
    if k.suite == Tkip {
      var mic := MicOf(k.txMic, h, body);
      RetouchedInvisible(h, h', 0);
      MicSame(k.txMic, h, h', body);
      assert c[..|body|] == body && c[|body|..|body| + MICHAEL_LEN] == mic;
    }
  }

  lemma {:induction false} SameSuite(k: Keys, k': Keys)
    requires Match(k, k')
    ensures k'.suite == k.suite
  {
  }

  lemma {:induction false} TrimTrailer(h: Bytes, plain: Bytes, body: Bytes)
    requires |body| <= |plain| && plain[..|body|] == body && h != []
    ensures Trimmed(h + plain, |plain| - |body|) == Some(h + body)
  {
    assert (h + plain)[..|h| + |body|] == h + plain[..|body|];
  }

  /** An empty body does not survive CCMP: the receiver rejects it as too short. */
  lemma {:induction false} EmptyCcmpBodyRefused(p: Primitives, k: Keys, k': Keys, h: DataHeader, pn: bv48, rxSeq: bv48)
    requires p.Lawful() && k.Valid() && k'.Valid() && Match(k, k') && k.suite == Ccmp
    ensures |Send(p, k, true, h, [], pn)| == |h| + IV_LEN + CCMP_MIC_LEN
    ensures Receive(p, k', true, rxSeq, h, Send(p, k, true, h, [], pn)) == Received(rxSeq, None)
  {
    hide Nonce, Aad, IvBytes, PnOf;
    var s := p.seal(k.tk, Nonce(h, pn), Aad(h), []);
    assert |s.0| == 0 && |s.1| == CCMP_MIC_LEN;
  }
}
