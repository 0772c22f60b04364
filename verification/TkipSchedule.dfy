/** The key mixing as two recurrences over one sequence of words each, with no state and no sweeps. */
module TkipSchedule {
  import opened Ieee80211
  import opened TkipMixing
  import opened Words

  /** Phase 1 goes eight times over five words; word k of pass i comes out of its value five words before
      and of the word before it, under the sixteen bits of the key at 4k, two further on in odd passes. */
  predicate Follows1(s: Sbox, tk: Key, y: seq<bv16>, i: nat, k: nat)
    requires |y| == 45 && i < 8 && k < 5
  {
    y[5 * i + k + 5] ==
      Plus16(y[5 * i + k],
             if k < 4 then s(Xor16(y[5 * i + k + 4], Half(tk, 4 * k + 2 * (i % 2))))
             else Plus16(s(Xor16(y[5 * i + k + 4], Half(tk, 2 * (i % 2)))), i as bv16))
  }

  ghost predicate Schedule1(s: Sbox, tk: Key, ta: Bytes, iv32: bv32, y: seq<bv16>)
    requires |ta| == 6
  {
    && |y| == 45
    && y[0] == (iv32 & 0xffff) as bv16 && y[1] == (iv32 >> 16) as bv16
    && y[2] == Half(ta, 0) && y[3] == Half(ta, 2) && y[4] == Half(ta, 4)
    && forall i, k :: 0 <= i < 8 && 0 <= k < 5 ==> Follows1(s, tk, y, i, k)
  }

  function FiveAt(y: seq<bv16>, n: nat): P1k
    requires n + 5 <= |y|
  {
    P1k(y[n], y[n + 1], y[n + 2], y[n + 3], y[n + 4])
  }

  lemma {:induction false} RoundsFollow(s: Sbox, tk: Key, ta: Bytes, iv32: bv32, y: seq<bv16>, n: nat)
    requires |ta| == 6 && Schedule1(s, tk, ta, iv32, y) && n <= 8
    ensures Rounds(s, tk, n, Phase1Start(ta, iv32)) == FiveAt(y, 5 * n)
    decreases n
  {
    hide Half, Round, Follows1;
    if n > 0 {
      RoundsFollow(s, tk, ta, iv32, y, n - 1);
      var i := n - 1;
      assert Follows1(s, tk, y, i, 0) && Follows1(s, tk, y, i, 1) && Follows1(s, tk, y, i, 2)
          && Follows1(s, tk, y, i, 3) && Follows1(s, tk, y, i, 4);
      RoundFollows(s, tk, y, i);
    }
  }

  lemma {:induction false} RoundFollows(s: Sbox, tk: Key, y: seq<bv16>, i: nat)
    requires |y| == 45 && i < 8
    requires Follows1(s, tk, y, i, 0) && Follows1(s, tk, y, i, 1) && Follows1(s, tk, y, i, 2)
    requires Follows1(s, tk, y, i, 3) && Follows1(s, tk, y, i, 4)
    ensures Round(s, tk, i as bv16, i % 2, FiveAt(y, 5 * i)) == FiveAt(y, 5 * (i + 1))
  {
    hide Half, Xor16, Plus16;
  }

  lemma {:induction false} Phase1Schedule(s: Sbox, tk: Key, ta: Bytes, iv32: bv32, y: seq<bv16>)
    requires |ta| == 6 && Schedule1(s, tk, ta, iv32, y)
    ensures Phase1(s, tk, ta, iv32) == P1k(y[40], y[41], y[42], y[43], y[44])
  {
    RoundsFollow(s, tk, ta, iv32, y, 8);
  }

  /** Phase 2 goes twice over six words, the second time with a rotation for the substitution; the key's
      sixteen bytes are used up by the first eight words. */
  predicate Follows2(s: Sbox, tk: Key, z: seq<bv16>, n: nat)
    requires |z| == 18 && n < 12
  {
    z[n + 6] ==
      Plus16(z[n],
             if n < 6 then s(Xor16(z[n + 5], Half(tk, 2 * n)))
             else if n < 8 then Ror1(Xor16(z[n + 5], Half(tk, 2 * n)))
             else Ror1(z[n + 5]))
  }

  ghost predicate Schedule2(s: Sbox, tk: Key, p: P1k, iv16: bv16, z: seq<bv16>) {
    && |z| == 18
    && z[..6] == [p.p0, p.p1, p.p2, p.p3, p.p4, Plus16(p.p4, iv16)]
    && forall n :: 0 <= n < 12 ==> Follows2(s, tk, z, n)
  }

  /** The RC4 key: three bytes that travel in the clear, one of key and last word, and the last six words. */
  lemma {:induction false} Phase2Schedule(s: Sbox, tk: Key, p: P1k, iv16: bv16, z: seq<bv16>)
    requires Schedule2(s, tk, p, iv16, z)
    ensures Phase2(s, tk, p, iv16)
         == [Hi(iv16), (Hi(iv16) | 0x20) & 0x7f, Lo(iv16), Lo(Xor16(z[17], Half(tk, 0)) >> 1),
             Lo(z[12]), Hi(z[12]), Lo(z[13]), Hi(z[13]), Lo(z[14]), Hi(z[14]),
             Lo(z[15]), Hi(z[15]), Lo(z[16]), Hi(z[16]), Lo(z[17]), Hi(z[17])]
  {
    hide Half, Xor16, Plus16, Ror1, Hi, Lo, Follows2, Sweep1, Sweep2, KeyBytes, Phase2Start;
    FirstSix(s, tk, p, iv16, z);
    SecondSix(s, tk, p, iv16, z);
    KeyLaidOut(tk, iv16, Ppk(z[12], z[13], z[14], z[15], z[16], z[17]));
  }

  lemma {:induction false} KeyLaidOut(tk: Key, iv16: bv16, p: Ppk)
    ensures KeyBytes(tk, iv16, p)
         == [Hi(iv16), (Hi(iv16) | 0x20) & 0x7f, Lo(iv16), Lo(Xor16(p.k5, Half(tk, 0)) >> 1),
             Lo(p.k0), Hi(p.k0), Lo(p.k1), Hi(p.k1), Lo(p.k2), Hi(p.k2), Lo(p.k3), Hi(p.k3), Lo(p.k4), Hi(p.k4), Lo(p.k5), Hi(p.k5)]
  {
    hide Half, Xor16, Hi, PpkBytes, TkipIv;
    LowByte(Xor16(p.k5, Half(tk, 0)) >> 1);
    hide Lo;
    IvLaidOut(iv16);
    WordsLaidOut(p);
    Joined(TkipIv(iv16), Lo(Xor16(p.k5, Half(tk, 0)) >> 1), PpkBytes(p));
  }

  lemma {:induction false} IvLaidOut(iv16: bv16)
    ensures var a := TkipIv(iv16); a[0] == Hi(iv16) && a[1] == (Hi(iv16) | 0x20) & 0x7f && a[2] == Lo(iv16)
  {
    hide Hi, Lo;
  }

  lemma {:induction false} WordsLaidOut(p: Ppk)
    ensures var c := PpkBytes(p);
            && c[0] == Lo(p.k0) && c[1] == Hi(p.k0) && c[2] == Lo(p.k1) && c[3] == Hi(p.k1)
            && c[4] == Lo(p.k2) && c[5] == Hi(p.k2) && c[6] == Lo(p.k3) && c[7] == Hi(p.k3)
            && c[8] == Lo(p.k4) && c[9] == Hi(p.k4) && c[10] == Lo(p.k5) && c[11] == Hi(p.k5)
  {
    hide Hi, Lo;
  }

  lemma {:induction false} Joined(a: Bytes, b: bv8, c: Bytes)
    requires |a| == 3 && |c| == 12
    ensures a + [b] + c == [a[0], a[1], a[2], b, c[0], c[1], c[2], c[3], c[4], c[5], c[6], c[7], c[8], c[9], c[10], c[11]]
  {
  }

  lemma {:induction false} LowByte(x: bv16)
    ensures Lo(x) == (x & 0xff) as bv8
  {
  }

  lemma {:induction false} FirstSix(s: Sbox, tk: Key, p: P1k, iv16: bv16, z: seq<bv16>)
    requires Schedule2(s, tk, p, iv16, z)
    ensures Sweep1(s, tk, Phase2Start(p, iv16)) == Ppk(z[6], z[7], z[8], z[9], z[10], z[11])
  {
    hide Half, Xor16, Plus16, Ror1;
    var w := z[..6];
    assert z[0] == w[0] && z[1] == w[1] && z[2] == w[2] && z[3] == w[3] && z[4] == w[4] && z[5] == w[5];
    assert Follows2(s, tk, z, 0) && Follows2(s, tk, z, 1) && Follows2(s, tk, z, 2)
        && Follows2(s, tk, z, 3) && Follows2(s, tk, z, 4) && Follows2(s, tk, z, 5);
  }

  lemma {:induction false} SecondSix(s: Sbox, tk: Key, p: P1k, iv16: bv16, z: seq<bv16>)
    requires Schedule2(s, tk, p, iv16, z)
    ensures Sweep2(tk, Ppk(z[6], z[7], z[8], z[9], z[10], z[11])) == Ppk(z[12], z[13], z[14], z[15], z[16], z[17])
  {
    hide Half, Xor16, Plus16, Ror1;
    assert Follows2(s, tk, z, 6) && Follows2(s, tk, z, 7) && Follows2(s, tk, z, 8)
        && Follows2(s, tk, z, 9) && Follows2(s, tk, z, 10) && Follows2(s, tk, z, 11);
  }
}
