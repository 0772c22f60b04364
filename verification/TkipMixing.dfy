/** The per-packet key mixing of TKIP, for any substitution box. */
module TkipMixing {
  import opened Ieee80211
  import opened Words

  type Sbox = bv16 -> bv16

  function Ror1(x: bv16): bv16 {
    (x >> 1) | (x << 15)
  }

  /** `get_unaligned_le16` */
  function Half(s: Bytes, i: nat): bv16
    requires i + 2 <= |s|
  {
    (s[i] as bv16) | ((s[i + 1] as bv16) << 8)
  }

  function Lo(x: bv16): bv8 { (x & 0xff) as bv8 }
  function Hi(x: bv16): bv8 { (x >> 8) as bv8 }

  lemma {:induction false} LoHiInjective(x: bv16, y: bv16)
    requires Lo(x) == Lo(y) && Hi(x) == Hi(y)
    ensures x == y
  {
    FromLoHi(x);
    FromLoHi(y);
    hide Lo, Hi;
  }

  lemma {:induction false} FromLoHi(x: bv16)
    ensures ((Hi(x) as bv16) << 8) | (Lo(x) as bv16) == x
  {
    calc {
      ((Hi(x) as bv16) << 8) | (Lo(x) as bv16);
      ((((x >> 8) as bv8) as bv16) << 8) | (((x & 0xff) as bv8) as bv16);
      x;
    }
  }

  lemma {:induction false} LoHiOfHalf(s: Bytes, i: nat)
    requires i + 2 <= |s|
    ensures Lo(Half(s, i)) == s[i] && Hi(Half(s, i)) == s[i + 1]
  {
    var a, b := s[i], s[i + 1];
    calc {
      Lo(Half(s, i));
      (((a as bv16) | ((b as bv16) << 8)) & 0xff) as bv8;
      a;
    }
    calc {
      Hi(Half(s, i));
      (((a as bv16) | ((b as bv16) << 8)) >> 8) as bv8;
      b;
    }
  }

  type Key = k: Bytes | |k| == 16 witness seq(16, _ => 0)

  datatype P1k = P1k(p0: bv16, p1: bv16, p2: bv16, p3: bv16, p4: bv16)

  /** One pass of the first phase; each word takes in a function of the one before it. */
  function Round(s: Sbox, tk: Key, i: bv16, b: nat, p: P1k): P1k
    requires b < 2
  {
    var p0 := Plus16(p.p0, s(Xor16(p.p4, Half(tk, 2 * b))));
    var p1 := Plus16(p.p1, s(Xor16(p0, Half(tk, 4 + 2 * b))));
    var p2 := Plus16(p.p2, s(Xor16(p1, Half(tk, 8 + 2 * b))));
    var p3 := Plus16(p.p3, s(Xor16(p2, Half(tk, 12 + 2 * b))));
    var p4 := Plus16(p.p4, Plus16(s(Xor16(p3, Half(tk, 2 * b))), i));
    P1k(p0, p1, p2, p3, p4)
  }

  function Rounds(s: Sbox, tk: Key, n: nat, p: P1k): P1k
    requires n <= 8
  {
    if n == 0 then p else Round(s, tk, (n - 1) as bv16, (n - 1) % 2, Rounds(s, tk, n - 1, p))
  }

  function Phase1Start(ta: Bytes, iv32: bv32): P1k
    requires |ta| == 6
  {
    P1k((iv32 & 0xffff) as bv16, (iv32 >> 16) as bv16, Half(ta, 0), Half(ta, 2), Half(ta, 4))
  }

  /** P1K := Phase1(TA, TK, TSC) */
  function Phase1(s: Sbox, tk: Key, ta: Bytes, iv32: bv32): P1k
    requires |ta| == 6
  {
    Rounds(s, tk, 8, Phase1Start(ta, iv32))
  }

  lemma {:induction false} RoundInjective(s: Sbox, tk: Key, i: bv16, b: nat, p: P1k, q: P1k)
    requires b < 2 && Round(s, tk, i, b, p) == Round(s, tk, i, b, q)
    ensures p == q
  {
    hide Xor16, Plus16, Half;
    var r := Round(s, tk, i, b, p);
    Plus16Cancels(p.p4, q.p4, Plus16(s(Xor16(r.p3, Half(tk, 2 * b))), i));
    Plus16Cancels(p.p3, q.p3, s(Xor16(r.p2, Half(tk, 12 + 2 * b))));
    Plus16Cancels(p.p2, q.p2, s(Xor16(r.p1, Half(tk, 8 + 2 * b))));
    Plus16Cancels(p.p1, q.p1, s(Xor16(r.p0, Half(tk, 4 + 2 * b))));
    Plus16Cancels(p.p0, q.p0, s(Xor16(p.p4, Half(tk, 2 * b))));
  }

  lemma {:induction false} RoundsInjective(s: Sbox, tk: Key, n: nat, p: P1k, q: P1k)
    requires n <= 8 && Rounds(s, tk, n, p) == Rounds(s, tk, n, q)
    ensures p == q
  {
    hide Round;
    if n > 0 {
      RoundInjective(s, tk, (n - 1) as bv16, (n - 1) % 2, Rounds(s, tk, n - 1, p), Rounds(s, tk, n - 1, q));
      RoundsInjective(s, tk, n - 1, p, q);
    }
  }

  lemma {:induction false} StartInjective(ta: Bytes, iv32: bv32, ta': Bytes, iv32': bv32)
    requires |ta| == |ta'| == 6 && Phase1Start(ta, iv32) == Phase1Start(ta', iv32')
    ensures ta == ta' && iv32 == iv32'
  {
    JoinIv32(iv32);
    JoinIv32(iv32');
    hide Half, Lo, Hi;
    LoHiOfHalf(ta, 0);
    LoHiOfHalf(ta, 2);
    LoHiOfHalf(ta, 4);
    LoHiOfHalf(ta', 0);
    LoHiOfHalf(ta', 2);
    LoHiOfHalf(ta', 4);
  }

  lemma {:induction false} JoinIv32(x: bv32)
    ensures ((((x >> 16) as bv16) as bv32) << 16) | (((x & 0xffff) as bv16) as bv32) == x
  {
  }

  datatype Ppk = Ppk(k0: bv16, k1: bv16, k2: bv16, k3: bv16, k4: bv16, k5: bv16)

  /** First sweep of phase 2. */
  function Sweep1(s: Sbox, tk: Key, p: Ppk): Ppk {
    var k0 := Plus16(p.k0, s(Xor16(p.k5, Half(tk, 0))));
    var k1 := Plus16(p.k1, s(Xor16(k0, Half(tk, 2))));
    var k2 := Plus16(p.k2, s(Xor16(k1, Half(tk, 4))));
    var k3 := Plus16(p.k3, s(Xor16(k2, Half(tk, 6))));
    var k4 := Plus16(p.k4, s(Xor16(k3, Half(tk, 8))));
    Ppk(k0, k1, k2, k3, k4, Plus16(p.k5, s(Xor16(k4, Half(tk, 10)))))
  }

  /** Second sweep of phase 2. */
  function Sweep2(tk: Key, p: Ppk): Ppk {
    var k0 := Plus16(p.k0, Ror1(Xor16(p.k5, Half(tk, 12))));
    var k1 := Plus16(p.k1, Ror1(Xor16(k0, Half(tk, 14))));
    var k2 := Plus16(p.k2, Ror1(k1));
    var k3 := Plus16(p.k3, Ror1(k2));
    var k4 := Plus16(p.k4, Ror1(k3));
    Ppk(k0, k1, k2, k3, k4, Plus16(p.k5, Ror1(k4)))
  }

  function Phase2Start(p: P1k, iv16: bv16): Ppk {
    Ppk(p.p0, p.p1, p.p2, p.p3, p.p4, Plus16(p.p4, iv16))
  }

  /** `write_tkip_iv`: the part of the key that travels in the clear. */
  function TkipIv(iv16: bv16): (s: Bytes)
    ensures |s| == 3
  {
    [Hi(iv16), (Hi(iv16) | 0x20) & 0x7f, Lo(iv16)]
  }

  function KeyBytes(tk: Key, iv16: bv16, p: Ppk): (k: Key)
  {
    TkipIv(iv16) + [((Xor16(p.k5, Half(tk, 0)) >> 1) & 0xff) as bv8] + PpkBytes(p)
  }

  /** The twelve bytes of PPK, little-endian. */
  function PpkBytes(p: Ppk): (s: Bytes)
    ensures |s| == 12
  {
    [Lo(p.k0), Hi(p.k0), Lo(p.k1), Hi(p.k1), Lo(p.k2), Hi(p.k2), Lo(p.k3), Hi(p.k3), Lo(p.k4), Hi(p.k4), Lo(p.k5), Hi(p.k5)]
  }

  lemma {:induction false} PpkBytesInjective(p: Ppk, q: Ppk)
    requires PpkBytes(p) == PpkBytes(q)
    ensures p == q
  {
    hide Lo, Hi;
    var s := PpkBytes(p);
    var t := PpkBytes(q);
    assert forall i :: 0 <= i < 12 ==> s[i] == t[i];
    LoHiInjective(p.k0, q.k0);
    LoHiInjective(p.k1, q.k1);
    LoHiInjective(p.k2, q.k2);
    LoHiInjective(p.k3, q.k3);
    LoHiInjective(p.k4, q.k4);
    LoHiInjective(p.k5, q.k5);
  }

  function Phase2(s: Sbox, tk: Key, p: P1k, iv16: bv16): Key {
    KeyBytes(tk, iv16, Sweep2(tk, Sweep1(s, tk, Phase2Start(p, iv16))))
  }

  /** The RC4 key of the frame with packet number pn sent by ta. */
  function PacketKey(s: Sbox, tk: Key, ta: Bytes, pn: bv48): Key
    requires |ta| == 6
  {
    Phase2(s, tk, Phase1(s, tk, ta, (pn >> 16) as bv32), (pn & 0xffff) as bv16)
  }

  lemma {:induction false} Sweep1Injective(s: Sbox, tk: Key, p: Ppk, q: Ppk)
    requires Sweep1(s, tk, p) == Sweep1(s, tk, q)
    ensures p == q
  {
    hide Xor16, Plus16, Half;
    var r := Sweep1(s, tk, p);
    Plus16Cancels(p.k5, q.k5, s(Xor16(r.k4, Half(tk, 10))));
    Plus16Cancels(p.k4, q.k4, s(Xor16(r.k3, Half(tk, 8))));
    Plus16Cancels(p.k3, q.k3, s(Xor16(r.k2, Half(tk, 6))));
    Plus16Cancels(p.k2, q.k2, s(Xor16(r.k1, Half(tk, 4))));
    Plus16Cancels(p.k1, q.k1, s(Xor16(r.k0, Half(tk, 2))));
    Plus16Cancels(p.k0, q.k0, s(Xor16(p.k5, Half(tk, 0))));
  }

  lemma {:induction false} Sweep2Injective(tk: Key, p: Ppk, q: Ppk)
    requires Sweep2(tk, p) == Sweep2(tk, q)
    ensures p == q
  {
    hide Xor16, Plus16, Half, Ror1;
    var r := Sweep2(tk, p);
    Plus16Cancels(p.k5, q.k5, Ror1(r.k4));
    Plus16Cancels(p.k4, q.k4, Ror1(r.k3));
    Plus16Cancels(p.k3, q.k3, Ror1(r.k2));
    Plus16Cancels(p.k2, q.k2, Ror1(r.k1));
    Plus16Cancels(p.k1, q.k1, Ror1(Xor16(r.k0, Half(tk, 14))));
    Plus16Cancels(p.k0, q.k0, Ror1(Xor16(p.k5, Half(tk, 12))));
  }

  lemma {:induction false} KeyBytesInjective(tk: Key, iv16: bv16, p: Ppk, iv16': bv16, q: Ppk)
    requires KeyBytes(tk, iv16, p) == KeyBytes(tk, iv16', q)
    ensures p == q
  {
    hide Xor16, Half, TkipIv, PpkBytes;
    var a, b := KeyBytes(tk, iv16, p), KeyBytes(tk, iv16', q);
    assert a[4..] == PpkBytes(p) && b[4..] == PpkBytes(q);
    PpkBytesInjective(p, q);
  }

  /** Under one temporal key no two frames share an RC4 key: it determines transmitter and counter. */
  lemma {:induction false} PacketKeyUnique(s: Sbox, tk: Key, ta: Bytes, pn: bv48, ta': Bytes, pn': bv48)
    requires |ta| == |ta'| == 6 && PacketKey(s, tk, ta, pn) == PacketKey(s, tk, ta', pn')
    ensures ta == ta' && pn == pn'
  {
    var i, i': bv32 := (pn >> 16) as bv32, (pn' >> 16) as bv32;
    var l, l': bv16 := (pn & 0xffff) as bv16, (pn' & 0xffff) as bv16;
    JoinPn(pn);
    JoinPn(pn');
    UniqueHalves(s, tk, ta, i, l, ta', i', l');
  }

  lemma {:induction false} UniqueHalves(s: Sbox, tk: Key, ta: Bytes, i: bv32, l: bv16, ta': Bytes, i': bv32, l': bv16)
    requires |ta| == |ta'| == 6
    requires Phase2(s, tk, Phase1(s, tk, ta, i), l) == Phase2(s, tk, Phase1(s, tk, ta', i'), l')
    ensures ta == ta' && i == i' && l == l'
  {
    hide Plus16, KeyBytes, Sweep1, Sweep2, Rounds, Phase1Start;
    var p, q := Phase1(s, tk, ta, i), Phase1(s, tk, ta', i');
    var a, b := Phase2Start(p, l), Phase2Start(q, l');
    KeyBytesInjective(tk, l, Sweep2(tk, Sweep1(s, tk, a)), l', Sweep2(tk, Sweep1(s, tk, b)));
    Sweep2Injective(tk, Sweep1(s, tk, a), Sweep1(s, tk, b));
    Sweep1Injective(s, tk, a, b);
    Plus16Commutes(p.p4, l);
    Plus16Commutes(p.p4, l');
    Plus16Cancels(l, l', p.p4);
    RoundsInjective(s, tk, 8, Phase1Start(ta, i), Phase1Start(ta', i'));
    StartInjective(ta, i, ta', i');
  }

  lemma {:induction false} JoinPn(pn: bv48)
    ensures ((((pn >> 16) as bv32) as bv48) << 16) | (((pn & 0xffff) as bv16) as bv48) == pn
  {
  }

  /** `struct tkip_ctx` */
  class TkipCtx {
    const p1k: array<bv16>

    ghost predicate Shape() {
      p1k.Length == 5
    }

    ghost function State(): P1k
      requires Shape()
      reads p1k
    {
      P1k(p1k[0], p1k[1], p1k[2], p1k[3], p1k[4])
    }

    constructor ()
      ensures Shape() && fresh(p1k)
    {
      p1k := new bv16[5](_ => 0);
    }

    /** `tkip_mixing_phase1` */
    method MixingPhase1(s: Sbox, tk: Key, ta: Bytes, iv32: bv32)
      requires Shape() && |ta| == 6
      modifies p1k
      ensures State() == Phase1(s, tk, ta, iv32)
    {
      hide Xor16, Plus16, Half;
      p1k[0] := (iv32 & 0xffff) as bv16;
      p1k[1] := (iv32 >> 16) as bv16;
      p1k[2] := Half(ta, 0);
      p1k[3] := Half(ta, 2);
      p1k[4] := Half(ta, 4);
      ghost var start := State();
      for i := 0 to 8
        invariant State() == Rounds(s, tk, i, start)
      {
        var j := 2 * (i % 2);
        p1k[0] := Plus16(p1k[0], s(Xor16(p1k[4], Half(tk, j))));
        p1k[1] := Plus16(p1k[1], s(Xor16(p1k[0], Half(tk, 4 + j))));
        p1k[2] := Plus16(p1k[2], s(Xor16(p1k[1], Half(tk, 8 + j))));
        p1k[3] := Plus16(p1k[3], s(Xor16(p1k[2], Half(tk, 12 + j))));
        p1k[4] := Plus16(p1k[4], Plus16(s(Xor16(p1k[3], Half(tk, j))), i as bv16));
      }
    }

    /** `tkip_mixing_phase2` */
    method MixingPhase2(s: Sbox, tk: Key, iv16: bv16) returns (rc4key: Key)
      requires Shape()
      ensures rc4key == Phase2(s, tk, State(), iv16)
    {
      hide Xor16, Plus16, Half, Ror1, Lo, Hi, Sweep1, Sweep2, KeyBytes;
      var ppk := new bv16[6](_ => 0);
      ppk[0], ppk[1], ppk[2], ppk[3], ppk[4] := p1k[0], p1k[1], p1k[2], p1k[3], p1k[4];
      ppk[5] := Plus16(p1k[4], iv16);
      ghost var start := PpkOf(ppk);
      FirstSweep(s, tk, ppk);
      SecondSweep(tk, ppk);
      rc4key := EmitKey(tk, iv16, ppk);
    }
  }

  ghost function PpkOf(ppk: array<bv16>): Ppk
    requires ppk.Length == 6
    reads ppk
  {
    Ppk(ppk[0], ppk[1], ppk[2], ppk[3], ppk[4], ppk[5])
  }

  method FirstSweep(s: Sbox, tk: Key, ppk: array<bv16>)
    requires ppk.Length == 6
    modifies ppk
    ensures PpkOf(ppk) == Sweep1(s, tk, old(PpkOf(ppk)))
  {
    hide Xor16, Plus16, Half;
    ppk[0] := Plus16(ppk[0], s(Xor16(ppk[5], Half(tk, 0))));
    ppk[1] := Plus16(ppk[1], s(Xor16(ppk[0], Half(tk, 2))));
    ppk[2] := Plus16(ppk[2], s(Xor16(ppk[1], Half(tk, 4))));
    ppk[3] := Plus16(ppk[3], s(Xor16(ppk[2], Half(tk, 6))));
    ppk[4] := Plus16(ppk[4], s(Xor16(ppk[3], Half(tk, 8))));
    ppk[5] := Plus16(ppk[5], s(Xor16(ppk[4], Half(tk, 10))));
  }

  method SecondSweep(tk: Key, ppk: array<bv16>)
    requires ppk.Length == 6
    modifies ppk
    ensures PpkOf(ppk) == Sweep2(tk, old(PpkOf(ppk)))
  {
    hide Xor16, Plus16, Half, Ror1;
    ppk[0] := Plus16(ppk[0], Ror1(Xor16(ppk[5], Half(tk, 12))));
    ppk[1] := Plus16(ppk[1], Ror1(Xor16(ppk[0], Half(tk, 14))));
    ppk[2] := Plus16(ppk[2], Ror1(ppk[1]));
    ppk[3] := Plus16(ppk[3], Ror1(ppk[2]));
    ppk[4] := Plus16(ppk[4], Ror1(ppk[3]));
    ppk[5] := Plus16(ppk[5], Ror1(ppk[4]));
  }

  lemma {:induction false} PpkByte(ppk: array<bv16>, i: nat)
    requires ppk.Length == 6 && i < 6
    ensures PpkBytes(PpkOf(ppk))[2 * i] == Lo(ppk[i]) && PpkBytes(PpkOf(ppk))[2 * i + 1] == Hi(ppk[i])
  {
    hide Lo, Hi;
    assert i == 0 || i == 1 || i == 2 || i == 3 || i == 4 || i == 5;
  }

  method EmitKey(tk: Key, iv16: bv16, ppk: array<bv16>) returns (rc4key: Key)
    requires ppk.Length == 6
    ensures rc4key == KeyBytes(tk, iv16, PpkOf(ppk))
  {
    hide Xor16, Half, Lo, Hi, TkipIv, PpkBytes;
    var head := TkipIv(iv16) + [((Xor16(ppk[5], Half(tk, 0)) >> 1) & 0xff) as bv8];
    ghost var all := PpkBytes(PpkOf(ppk));
    var tail: Bytes := [];
    for i := 0 to 6
      invariant tail == all[..2 * i]
    {
      PpkByte(ppk, i);
      assert all[..2 * i + 2] == all[..2 * i] + [all[2 * i], all[2 * i + 1]];
      tail := tail + [Lo(ppk[i]), Hi(ppk[i])];
    }
    rc4key := head + tail;
  }
}
