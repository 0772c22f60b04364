/** The parts of an IEEE 802.11 MAC header that the ciphers look at. */
module Ieee80211 {

  type Bytes = seq<bv8>

  predicate IsData(fc0: bv8) { fc0 & 0x0c == 0x08 }
  predicate IsMgmt(fc0: bv8) { fc0 & 0x0c == 0x00 }
  predicate IsQosData(fc0: bv8) { fc0 & 0x8c == 0x88 }
  predicate HasA4(fc1: bv8) { fc1 & 0x03 == 0x03 }
  predicate HasToDs(fc1: bv8) { fc1 & 0x01 != 0 }
  predicate HasFromDs(fc1: bv8) { fc1 & 0x02 != 0 }
  predicate HasOrder(fc1: bv8) { fc1 & 0x80 != 0 }

  /** `ieee80211_hdrlen`, for data and management frames. */
  function HdrLen(fc0: bv8, fc1: bv8): (n: nat)
    ensures 24 <= n <= 36
  {
    if IsData(fc0) then
      (if HasA4(fc1) then 30 else 24) + (if IsQosData(fc0) then 2 + (if HasOrder(fc1) then 4 else 0) else 0)
    else
      24 + (if IsMgmt(fc0) && HasOrder(fc1) then 4 else 0)
  }

  /** A complete header. */
  ghost predicate IsHeader(h: Bytes) {
    |h| >= 24 && (IsData(h[0]) || IsMgmt(h[0])) && |h| == HdrLen(h[0], h[1])
  }

  type Header = h: Bytes | IsHeader(h) witness seq(24, i => if i == 0 then 0x08 else 0)

  function Addr2(h: Header): Bytes { h[10..16] }

  function Destination(h: Header): Bytes {
    if HasToDs(h[1]) then h[16..22] else h[4..10]
  }

  /** `ieee80211_get_SA`; only a data frame has room for the fourth address. */
  function Source(h: Header): (sa: Bytes)
    ensures |sa| == 6
  {
    if HasA4(h[1]) && IsData(h[0]) then h[24..30] else if HasFromDs(h[1]) then h[16..22] else h[10..16]
  }

  function QosTid(h: Header): bv8 {
    if IsQosData(h[0]) then QosByte(h) & 0x0f else 0
  }

  function QosByte(h: Header): bv8
    requires IsQosData(h[0])
  {
    QosIsData(h[0]);
    h[if HasA4(h[1]) then 30 else 24]
  }

  lemma {:induction false} QosIsData(fc0: bv8)
    requires IsQosData(fc0)
    ensures IsData(fc0)
  {
  }

  /** Where the standard's table of address fields puts destination and source. */
  lemma {:induction false} AddressFields(h: Header)
    requires IsData(h[0])
    ensures h[1] & 0x03 == 0x00 ==> Destination(h) == h[4..10] && Source(h) == h[10..16]
    ensures h[1] & 0x03 == 0x01 ==> Destination(h) == h[16..22] && Source(h) == h[10..16]
    ensures h[1] & 0x03 == 0x02 ==> Destination(h) == h[4..10] && Source(h) == h[16..22]
    ensures h[1] & 0x03 == 0x03 ==> |h| >= 30 && Destination(h) == h[16..22] && Source(h) == h[24..30]
  {
    DsBits(h[1]);
    hide HasToDs, HasFromDs, HasA4, IsData, IsQosData;
  }

  lemma {:induction false} DsBits(fc1: bv8)
    ensures HasToDs(fc1) <==> fc1 & 0x03 == 0x01 || fc1 & 0x03 == 0x03
    ensures HasFromDs(fc1) <==> fc1 & 0x03 == 0x02 || fc1 & 0x03 == 0x03
    ensures HasA4(fc1) <==> fc1 & 0x03 == 0x03
    ensures fc1 & 0x03 == 0x00 || fc1 & 0x03 == 0x01 || fc1 & 0x03 == 0x02 || fc1 & 0x03 == 0x03
  {
  }

  /** Header lengths: a fourth address takes six bytes, QoS two, HT control four; management frames are
      24 bytes, or 28 with HT control. */
  lemma {:induction false} HeaderLengths()
    ensures HdrLen(0x08, 0x01) == 24 && HdrLen(0x08, 0x03) == 30 && HdrLen(0x88, 0x01) == 26 && HdrLen(0x88, 0x03) == 32
    ensures HdrLen(0x88, 0x83) == 36 && HdrLen(0x08, 0x81) == 24 && HdrLen(0x80, 0x00) == 24 && HdrLen(0x80, 0x80) == 28
  {
  }
}
