/** The Michael message integrity code of TKIP. */
module Michael {
  import opened Ieee80211
  import opened Words

  datatype Ctx = Ctx(l: bv32, r: bv32)

  function Rol(x: bv32, n: bv6): bv32
    requires 0 < n < 32
  {
    (x << n) | (x >> (32 - n))
  }

  function SwapPairs(x: bv32): bv32 {
    ((x & 0xff00ff00) >> 8) | ((x & 0x00ff00ff) << 8)
  }

  /** One half-round: r takes in a function of l, then l takes in r. */
  function Mix(c: Ctx, f: bv32): Ctx {
    Ctx(Plus(c.l, Xor(c.r, f)), Xor(c.r, f))
  }

  /** The last rotation is to the right by two in the source: to the left by thirty. */
  function BlockOf(c: Ctx, val: bv32): Ctx {
    var c0 := Ctx(Xor(c.l, val), c.r);
    var c1 := Mix(c0, Rol(c0.l, 17));
    var c2 := Mix(c1, SwapPairs(c1.l));
    var c3 := Mix(c2, Rol(c2.l, 3));
    Mix(c3, Rol(c3.l, 30))
  }

  /** The half-round backwards. */
  function Unmix(c: Ctx, f: bv32): Ctx {
    Ctx(Minus(c.l, c.r), Xor(c.r, f))
  }

  function Unblock(c: Ctx, val: bv32): Ctx {
    var c3 := Unmix(c, Rol(Minus(c.l, c.r), 30));
    var c2 := Unmix(c3, Rol(Minus(c3.l, c3.r), 3));
    var c1 := Unmix(c2, SwapPairs(Minus(c2.l, c2.r)));
    var c0 := Unmix(c1, Rol(Minus(c1.l, c1.r), 17));
    Ctx(Xor(c0.l, val), c0.r)
  }

  lemma {:induction false} UnmixMix(c: Ctx, f: bv32)
    ensures Minus(Mix(c, f).l, Mix(c, f).r) == c.l && Unmix(Mix(c, f), f) == c
  {
    hide Xor, Plus, Minus;
    PlusUndone(c.l, Xor(c.r, f));
    XorUndone(c.r, f);
  }

  lemma {:induction false} MixUnmix(c: Ctx, f: bv32)
    ensures Unmix(c, f).l == Minus(c.l, c.r) && Mix(Unmix(c, f), f) == c
  {
    hide Xor, Plus, Minus;
    MinusUndone(c.l, c.r);
    XorUndone(c.r, f);
  }

  /** Each block step is a bijection on (l, r). */
  lemma {:induction false} BlockBijective(c: Ctx, val: bv32)
    ensures Unblock(BlockOf(c, val), val) == c
    ensures BlockOf(Unblock(c, val), val) == c
  {
    hide Mix, Unmix, Rol, SwapPairs, Xor, Plus, Minus;
    var c0 := Ctx(Xor(c.l, val), c.r);
    var c1 := Mix(c0, Rol(c0.l, 17));
    var c2 := Mix(c1, SwapPairs(c1.l));
    var c3 := Mix(c2, Rol(c2.l, 3));
    UnmixMix(c0, Rol(c0.l, 17));
    UnmixMix(c1, SwapPairs(c1.l));
    UnmixMix(c2, Rol(c2.l, 3));
    UnmixMix(c3, Rol(c3.l, 30));
    var d3 := Unmix(c, Rol(Minus(c.l, c.r), 30));
    var d2 := Unmix(d3, Rol(Minus(d3.l, d3.r), 3));
    var d1 := Unmix(d2, SwapPairs(Minus(d2.l, d2.r)));
    var d0 := Unmix(d1, Rol(Minus(d1.l, d1.r), 17));
    MixUnmix(c, Rol(Minus(c.l, c.r), 30));
    MixUnmix(d3, Rol(Minus(d3.l, d3.r), 3));
    MixUnmix(d2, SwapPairs(Minus(d2.l, d2.r)));
    MixUnmix(d1, Rol(Minus(d1.l, d1.r), 17));
    XorUndone(d0.l, val);
    XorUndone(c.l, val);
  }

  /** The standard's test vectors for one block step on a zero word. */
  lemma {:induction false} BlockVectors()
    ensures BlockOf(Ctx(0, 0), 0) == Ctx(0, 0)
    ensures BlockOf(Ctx(0, 1), 0) == Ctx(0xc00015a8, 0xc0000b95)
    ensures BlockOf(Ctx(1, 0), 0) == Ctx(0x6b519593, 0x572b8b8a)
    ensures BlockOf(Ctx(0x01234567, 0x83659326), 0) == Ctx(0x441492c2, 0x1d8427ed)
  {
  }

  // ---------------------------------------------------------------------------------------------
  // Bytes and words

  /** `get_unaligned_le32` */
  function LeWord(b0: bv8, b1: bv8, b2: bv8, b3: bv8): bv32 {
    (b0 as bv32) | ((b1 as bv32) << 8) | ((b2 as bv32) << 16) | ((b3 as bv32) << 24)
  }

  /** `put_unaligned_le32` */
  function LeBytes(x: bv32): (s: Bytes)
    ensures |s| == 4
  {
    [(x & 0xff) as bv8, ((x >> 8) & 0xff) as bv8, ((x >> 16) & 0xff) as bv8, (x >> 24) as bv8]
  }

  lemma {:induction false} BytesOfWord(b0: bv8, b1: bv8, b2: bv8, b3: bv8)
    ensures LeBytes(LeWord(b0, b1, b2, b3)) == [b0, b1, b2, b3]
  {
    var x := (b0 as bv32) | ((b1 as bv32) << 8) | ((b2 as bv32) << 16) | ((b3 as bv32) << 24);
    assert (x & 0xff) as bv8 == b0;
    assert ((x >> 8) & 0xff) as bv8 == b1;
    assert ((x >> 16) & 0xff) as bv8 == b2;
    assert (x >> 24) as bv8 == b3;
  }

  lemma {:induction false} WordOfBytes(x: bv32)
    ensures var s := LeBytes(x); LeWord(s[0], s[1], s[2], s[3]) == x
  {
  }

  function WordAt(s: Bytes, i: nat): bv32
    requires i + 4 <= |s|
  {
    LeWord(s[i], s[i + 1], s[i + 2], s[i + 3])
  }

  function LeWords(s: Bytes): seq<bv32>
    requires |s| % 4 == 0
  {
    if s == [] then [] else LeWords(s[..|s| - 4]) + [WordAt(s, |s| - 4)]
  }

  /** The value of the last partial block: 0x5a above up to three bytes. */
  function TailValue(s: Bytes): bv32 {
    if s == [] then 0x5a else PushByte(TailValue(s[1..]), s[0])
  }

  function PushByte(v: bv32, b: bv8): bv32 {
    (v << 8) | (b as bv32)
  }

  function Zeros(n: nat): Bytes {
    seq(n, _ => 0)
  }

  /** The padding of section 11.4.2.3.3: 0x5a, then four to seven zero bytes up to a whole word. */
  function Padded(data: Bytes): (p: Bytes)
    ensures |p| % 4 == 0
  {
    data + [0x5a] + Zeros(7 - |data| % 4)
  }

  /** The words the driver feeds in for the data: whole blocks, the partial block, a zero block. */
  function DataWords(data: Bytes): seq<bv32> {
    var full := |data| - |data| % 4;
    LeWords(data[..full]) + [TailValue(data[full..])] + [0]
  }

  lemma {:induction false} TailValueIsPadded(s: Bytes)
    requires |s| < 4
    ensures WordAt(s + [0x5a] + Zeros(7 - |s|), 0) == TailValue(s) && WordAt(s + [0x5a] + Zeros(7 - |s|), 4) == 0
  {
    hide LeWord, PushByte;
    var p := s + [0x5a] + Zeros(7 - |s|);
    if |s| == 0 {
      TailBits(0, 0, 0);
    } else if |s| == 1 {
      assert s[1..] == [];
      TailBits(p[0], 0, 0);
    } else if |s| == 2 {
      var u := s[1..];
      assert u[1..] == [];
      assert TailValue(u) == PushByte(0x5a, s[1]);
      TailBits(p[0], p[1], 0);
    } else {
      var u := s[1..];
      var v := u[1..];
      assert v[1..] == [];
      assert TailValue(v) == PushByte(0x5a, s[2]) && TailValue(u) == PushByte(TailValue(v), s[1]);
      TailBits(p[0], p[1], p[2]);
    }
  }

  lemma {:induction false} TailBits(a: bv8, b: bv8, c: bv8)
    ensures LeWord(0x5a, 0, 0, 0) == 0x5a && LeWord(0, 0, 0, 0) == 0
    ensures LeWord(a, 0x5a, 0, 0) == PushByte(0x5a, a)
    ensures LeWord(a, b, 0x5a, 0) == PushByte(PushByte(0x5a, b), a)
    ensures LeWord(a, b, c, 0x5a) == PushByte(PushByte(PushByte(0x5a, c), b), a)
  {
    PushIsLow(a, 0x5a, 0, 0);
    PushIsLow(b, 0x5a, 0, 0);
    PushIsLow(a, b, 0x5a, 0);
    PushIsLow(c, 0x5a, 0, 0);
    PushIsLow(b, c, 0x5a, 0);
    PushIsLow(a, b, c, 0x5a);
    assert LeWord(0x5a, 0, 0, 0) == 0x5a && LeWord(0, 0, 0, 0) == 0;
    hide LeWord, PushByte;
  }

  /** Pushing a byte shifts the others up. */
  lemma {:induction false} PushIsLow(a: bv8, b: bv8, c: bv8, d: bv8)
    ensures LeWord(a, b, c, d) == PushByte(LeWord(b, c, d, 0), a)
  {
    calc {
      PushByte(LeWord(b, c, d, 0), a);
      (((b as bv32) | ((c as bv32) << 8) | ((d as bv32) << 16) | ((0 as bv32) << 24)) << 8) | (a as bv32);
      (a as bv32) | ((b as bv32) << 8) | ((c as bv32) << 16) | ((d as bv32) << 24);
      LeWord(a, b, c, d);
    }
  }

  lemma {:induction false} LeWordsAppend(a: Bytes, b: Bytes)
    requires |a| % 4 == 0 && |b| % 4 == 0
    ensures LeWords(a + b) == LeWords(a) + LeWords(b)
    decreases |b|
  {
    if b == [] {
      assert a + b == a;
    } else {
      var c := b[..|b| - 4];
      LeWordsAppend(a, c);
      assert (a + b)[..|a + b| - 4] == a + c;
      assert WordAt(a + b, |a + b| - 4) == WordAt(b, |b| - 4);
    }
  }

  /** The driver's words are the little-endian words of the padded data. */
  lemma {:induction false} PaddingAsSpecified(data: Bytes)
    ensures DataWords(data) == LeWords(Padded(data))
  {
    hide LeWord;
    var full := |data| - |data| % 4;
    var whole, part := data[..full], data[full..];
    var tail := part + [0x5a] + Zeros(7 - |part|);
    assert Padded(data) == whole + tail;
    LeWordsAppend(whole, tail);
    TailValueIsPadded(part);
    assert tail[..4][..0] == [];
    assert LeWords(tail[..4]) == [WordAt(tail[..4], 0)];
    assert tail[..|tail| - 4] == tail[..4];
    assert WordAt(tail[..4], 0) == WordAt(tail, 0);
    assert LeWords(tail) == [WordAt(tail, 0)] + [WordAt(tail, 4)];
  }

  lemma {:induction false} LeWordsInjective(a: Bytes, b: Bytes)
    requires |a| % 4 == 0 && |b| % 4 == 0 && LeWords(a) == LeWords(b)
    ensures a == b
    decreases |a|
  {
    hide LeWord, WordAt;
    LeWordsLength(a);
    LeWordsLength(b);
    if a != [] {
      var n := |a| - 4;
      LeWordsLength(a[..n]);
      LeWordsLength(b[..n]);
      LastWord(a);
      LastWord(b);
      LeWordsInjective(a[..n], b[..n]);
      SameWord(a, b, n);
      assert a == a[..n] + a[n..] && b == b[..n] + b[n..];
    }
  }

  lemma {:induction false} LastWord(a: Bytes)
    requires |a| % 4 == 0 && a != []
    ensures var x := LeWords(a);
            x != [] && x[|x| - 1] == WordAt(a, |a| - 4) && x[..|x| - 1] == LeWords(a[..|a| - 4])
  {
    hide WordAt;
  }

  lemma {:induction false} SameWord(a: Bytes, b: Bytes, n: nat)
    requires |a| == |b| == n + 4 && WordAt(a, n) == WordAt(b, n)
    ensures a[n..] == b[n..]
  {
    hide LeWord, LeBytes;
    BytesOfWord(a[n], a[n + 1], a[n + 2], a[n + 3]);
    BytesOfWord(b[n], b[n + 1], b[n + 2], b[n + 3]);
    assert a[n..] == [a[n], a[n + 1], a[n + 2], a[n + 3]];
    assert b[n..] == [b[n], b[n + 1], b[n + 2], b[n + 3]];
  }

  lemma {:induction false} LeWordsLength(a: Bytes)
    requires |a| % 4 == 0
    ensures 4 * |LeWords(a)| == |a|
  {
    if a != [] {
      LeWordsLength(a[..|a| - 4]);
    }
  }

  /** Different data never look alike to the code: the padding is injective. */
  lemma {:induction false} DataWordsInjective(a: Bytes, b: Bytes)
    requires DataWords(a) == DataWords(b)
    ensures a == b
  {
    PaddingAsSpecified(a);
    PaddingAsSpecified(b);
    LeWordsInjective(Padded(a), Padded(b));
    hide LeWords, DataWords;
    var p := Padded(a);
    LastMark(a);
    LastMark(b);
    assert p[|a|] == 0x5a && Padded(b)[|b|] == 0x5a;
    assert a == p[..|a|] && b == Padded(b)[..|b|];
  }

  lemma {:induction false} LastMark(a: Bytes)
    ensures Padded(a)[|a|] == 0x5a && Padded(a)[..|a|] == a && forall i :: |a| < i < |Padded(a)| ==> Padded(a)[i] == 0
  {
  }

  /** The four block steps behind the vectors below. */
  lemma {:induction false} StringBlocks()
    ensures BlockOf(Ctx(0, 0), 0x5a) == Ctx(0xc000134d, 0xeaa1301e)
    ensures BlockOf(Ctx(0xc000134d, 0xeaa1301e), 0) == Ctx(0x1c5c9282, 0xb830d1a1)
    ensures BlockOf(Ctx(0x1c5c9282, 0xb830d1a1), 0x5a4d) == Ctx(0xa556433e, 0xd6ec7884)
    ensures BlockOf(Ctx(0xa556433e, 0xd6ec7884), 0) == Ctx(0xca214743, 0x3f9b6340)
  {
  }

  /** The words of the empty string and of "M". */
  lemma {:induction false} StringWords()
    ensures DataWords([]) == [0x5a, 0] && DataWords([0x4d]) == [0x5a4d, 0]
  {
    assert TailValue([]) == 0x5a;
    assert [0x4d as bv8][1..] == [];
    assert TailValue([0x4d]) == PushByte(0x5a, 0x4d) == 0x5a4d;
    hide TailValue, PushByte;
    assert [0x4d as bv8][..0] == [] && [0x4d as bv8][0..] == [0x4d];
  }

  /** The standard's first two test vectors for whole strings, the second keyed with the first's result. */
  lemma {:induction false} StringVectors()
    ensures Fold(Ctx(0, 0), DataWords([])) == Ctx(0x1c5c9282, 0xb830d1a1)
    ensures Fold(Ctx(0x1c5c9282, 0xb830d1a1), DataWords([0x4d])) == Ctx(0xca214743, 0x3f9b6340)
  {
    hide BlockOf, DataWords, Fold;
    StringWords();
    StringBlocks();
    FoldTwo(Ctx(0, 0), 0x5a, 0);
    FoldTwo(Ctx(0x1c5c9282, 0xb830d1a1), 0x5a4d, 0);
  }

  lemma {:induction false} FoldTwo(c: Ctx, a: bv32, b: bv32)
    ensures Fold(c, [a, b]) == BlockOf(BlockOf(c, a), b)
  {
    hide BlockOf;
    assert [a, b][..1] == [a] && [a][..0] == [];
    assert Fold(c, [a]) == BlockOf(Fold(c, []), a);
  }

  // ---------------------------------------------------------------------------------------------
  // The code over a whole message

  function Fold(c: Ctx, ws: seq<bv32>): Ctx {
    if ws == [] then c else BlockOf(Fold(c, ws[..|ws| - 1]), ws[|ws| - 1])
  }

  function Unfold(c: Ctx, ws: seq<bv32>): Ctx
    decreases |ws|
  {
    if ws == [] then c else Unfold(Unblock(c, ws[|ws| - 1]), ws[..|ws| - 1])
  }

  /** Over a fixed message the code is a bijection on keys: the key can be computed back. */
  lemma {:induction false} FoldBijective(c: Ctx, ws: seq<bv32>)
    ensures Unfold(Fold(c, ws), ws) == c
    ensures Fold(Unfold(c, ws), ws) == c
    decreases |ws|
  {
    hide BlockOf, Unblock;
    if ws != [] {
      var x, init := ws[|ws| - 1], ws[..|ws| - 1];
      BlockBijective(Fold(c, init), x);
      FoldBijective(c, init);
      FoldBijective(Unblock(c, x), init);
      BlockBijective(c, x);
    }
  }

  /** The words of the whole code input: DA, SA, priority and the padded data. */
  function MessageWords(da: Bytes, sa: Bytes, tid: bv8, data: Bytes): seq<bv32>
    requires |da| == 6 && |sa| == 6
  {
    PseudoWords(da, sa, tid) + DataWords(data)
  }

  function PseudoWords(da: Bytes, sa: Bytes, tid: bv8): seq<bv32>
    requires |da| == 6 && |sa| == 6
  {
    [WordAt(da, 0), LeWord(da[4], da[5], sa[0], sa[1]), WordAt(sa, 2), tid as bv32]
  }

  /** The pseudo-header is sixteen bytes: both addresses and the priority. */
  lemma {:induction false} PseudoHeader(da: Bytes, sa: Bytes, tid: bv8)
    requires |da| == 6 && |sa| == 6
    ensures PseudoWords(da, sa, tid) == LeWords(da + sa + [tid, 0, 0, 0])
  {
    hide LeWord;
    var s := da + sa + [tid, 0, 0, 0];
    TidWord(tid);
    assert LeWords(s[..0]) == [];
    NextWord(s, 0);
    NextWord(s, 4);
    NextWord(s, 8);
    NextWord(s, 12);
    assert s[..16] == s;
    assert WordAt(s, 0) == WordAt(da, 0) && WordAt(s, 4) == LeWord(da[4], da[5], sa[0], sa[1]) && WordAt(s, 8) == WordAt(sa, 2);
  }

  lemma {:induction false} TidWord(tid: bv8)
    ensures LeWord(tid, 0, 0, 0) == tid as bv32
  {
  }

  /** What the code is computed over, as section 11.4.2.3.3 lays it out: destination, source, priority, three
      zero bytes, the data, and the padding. */
  lemma {:induction false} MessageAsSpecified(da: Bytes, sa: Bytes, tid: bv8, data: Bytes)
    requires |da| == 6 && |sa| == 6
    ensures |da + sa + [tid, 0, 0, 0] + Padded(data)| % 4 == 0
    ensures MessageWords(da, sa, tid, data) == LeWords(da + sa + [tid, 0, 0, 0] + Padded(data))
  {
    hide LeWords, PseudoWords, DataWords, Padded;
    PseudoHeader(da, sa, tid);
    PaddingAsSpecified(data);
    LeWordsAppend(da + sa + [tid, 0, 0, 0], Padded(data));
  }

  function KeyCtx(key: Bytes): Ctx
    requires |key| == 8
  {
    Ctx(WordAt(key, 0), WordAt(key, 4))
  }

  function MicOf(key: Bytes, h: Header, data: Bytes): (mic: Bytes)
    requires |key| == 8
    ensures |mic| == 8
  {
    var c := Fold(KeyCtx(key), MessageWords(Destination(h), Source(h), QosTid(h), data));
    LeBytes(c.l) + LeBytes(c.r)
  }

  /** For one message, different keys give different codes. */
  lemma {:induction false} MicDeterminesKey(k1: Bytes, k2: Bytes, h: Header, data: Bytes)
    requires |k1| == |k2| == 8 && MicOf(k1, h, data) == MicOf(k2, h, data)
    ensures k1 == k2
  {
    hide LeWord, LeBytes, Fold, Unfold, DataWords;
    var ws := MessageWords(Destination(h), Source(h), QosTid(h), data);
    var c1, c2 := Fold(KeyCtx(k1), ws), Fold(KeyCtx(k2), ws);
    assert MicOf(k1, h, data)[..4] == LeBytes(c1.l) && MicOf(k1, h, data)[4..] == LeBytes(c1.r);
    assert MicOf(k2, h, data)[..4] == LeBytes(c2.l) && MicOf(k2, h, data)[4..] == LeBytes(c2.r);
    WordOfBytes(c1.l);
    WordOfBytes(c1.r);
    WordOfBytes(c2.l);
    WordOfBytes(c2.r);
    FoldBijective(KeyCtx(k1), ws);
    FoldBijective(KeyCtx(k2), ws);
    SplitKey(k1);
    SplitKey(k2);
  }

  lemma {:induction false} SplitKey(k: Bytes)
    requires |k| == 8
    ensures k == LeBytes(KeyCtx(k).l) + LeBytes(KeyCtx(k).r)
  {
    hide LeWord, LeBytes;
    BytesOfWord(k[0], k[1], k[2], k[3]);
    BytesOfWord(k[4], k[5], k[6], k[7]);
  }

  /** `struct michael_mic_ctx` and the routines that update it. */
  class MichaelCtx {
    var l: bv32
    var r: bv32

    function State(): Ctx
      reads this
    {
      Ctx(l, r)
    }

    constructor (key: Bytes)
      requires |key| == 8
      ensures State() == KeyCtx(key)
    {
      l := WordAt(key, 0);
      r := WordAt(key, 4);
    }

    /** `michael_block` */
    method Block(val: bv32)
      modifies this
      ensures State() == BlockOf(old(State()), val)
    {
      hide Rol, SwapPairs, Xor, Plus;
      l := Xor(l, val);
      r := Xor(r, Rol(l, 17));
      l := Plus(l, r);
      r := Xor(r, SwapPairs(l));
      l := Plus(l, r);
      r := Xor(r, Rol(l, 3));
      l := Plus(l, r);
      r := Xor(r, Rol(l, 30));
      l := Plus(l, r);
    }

    /** `michael_mic_hdr`: the pseudo-header is not transmitted. */
    method MicHdr(da: Bytes, sa: Bytes, tid: bv8)
      requires |da| == 6 && |sa| == 6
      modifies this
      ensures State() == Fold(old(State()), PseudoWords(da, sa, tid))
      ensures State() == Fold(old(State()), LeWords(da + sa + [tid, 0, 0, 0]))
    {
      hide BlockOf, Fold, LeWord, LeWords;
      PseudoHeader(da, sa, tid);
      ghost var c := State();
      FoldEmpty(c);
      ghost var w0, w1, w2, w3 := WordAt(da, 0), LeWord(da[4], da[5], sa[0], sa[1]), WordAt(sa, 2), tid as bv32;
      FoldStep(c, [], w0);
      FoldStep(c, [w0], w1);
      FoldStep(c, [w0, w1], w2);
      FoldStep(c, [w0, w1, w2], w3);
      Block(WordAt(da, 0));
      Block(LeWord(da[4], da[5], sa[0], sa[1]));
      Block(WordAt(sa, 2));
      Block(tid as bv32);
      assert [] + [w0] == [w0] && [w0] + [w1] == [w0, w1] && [w0, w1] + [w2] == [w0, w1, w2];
      assert [w0, w1, w2] + [w3] == PseudoWords(da, sa, tid);
    }

    /** The whole blocks of the data. */
    method WholeBlocks(data: Bytes)
      modifies this
      ensures State() == Fold(old(State()), LeWords(data[..|data| - |data| % 4]))
    {
      hide BlockOf, Fold, WordAt, LeWords;
      NoWords(data);
      ghost var c := State();
      FoldEmpty(c);
      var blocks := |data| / 4;
      for block := 0 to blocks
        invariant State() == Fold(c, LeWords(data[..4 * block]))
      {
        NextWord(data, 4 * block);
        FoldStep(c, LeWords(data[..4 * block]), WordAt(data, block * 4));
        Block(WordAt(data, block * 4));
      }
    }
  }

  lemma {:induction false} NoWords(data: Bytes)
    ensures LeWords(data[..0]) == []
  {
  }

  lemma {:induction false} NextWord(data: Bytes, n: nat)
    requires n % 4 == 0 && n + 4 <= |data|
    ensures LeWords(data[..n + 4]) == LeWords(data[..n]) + [WordAt(data, n)]
  {
    hide LeWord;
    var next := data[..n + 4];
    assert next[..n] == data[..n] && WordAt(next, n) == WordAt(data, n);
  }

  lemma {:induction false} FoldStep(c: Ctx, ws: seq<bv32>, w: bv32)
    ensures Fold(c, ws + [w]) == BlockOf(Fold(c, ws), w)
  {
    assert (ws + [w])[..|ws + [w]| - 1] == ws;
  }

  lemma {:induction false} FoldAppend(c: Ctx, a: seq<bv32>, b: seq<bv32>)
    ensures Fold(c, a + b) == Fold(Fold(c, a), b)
    decreases |b|
  {
    if b == [] {
      assert a + b == a;
    } else {
      var init, w := b[..|b| - 1], b[|b| - 1];
      FoldAppend(c, a, init);
      assert a + b == (a + init) + [w];
      FoldStep(c, a + init, w);
    }
  }

  /** The partial block of zero to three bytes, under 0x5a. */
  method PartialBlock(data: Bytes) returns (val: bv32)
    ensures val == TailValue(data[|data| - |data| % 4..])
  {
    var blocks := |data| / 4;
    var left: nat := |data| % 4;
    ghost var part := data[|data| - |data| % 4..];
    val := 0x5a;
    while left > 0
      invariant left <= |part|
      invariant val == TailValue(part[left..])
    {
      left := left - 1;
      val := PushByte(val, data[blocks * 4 + left]);
      assert part[left..][1..] == part[left + 1..] && part[left..][0] == data[blocks * 4 + left];
    }
    assert part[0..] == part;
  }

  /** `michael_mic` */
  method MichaelMic(key: Bytes, h: Header, data: Bytes) returns (mic: Bytes)
    requires |key| == 8
    ensures mic == MicOf(key, h, data)
  {
    hide BlockOf, Fold, LeWord, LeBytes, LeWords, TailValue, PushByte;
    var c := new MichaelCtx(key);
    ghost var c0 := c.State();
    ghost var pseudo := PseudoWords(Destination(h), Source(h), QosTid(h));
    ghost var whole := LeWords(data[..|data| - |data| % 4]);
    c.MicHdr(Destination(h), Source(h), QosTid(h));
    c.WholeBlocks(data);
    var val := PartialBlock(data);
    c.Block(val);
    c.Block(0);
    FoldAppend(c0, pseudo, whole);
    FoldStep(c0, pseudo + whole, val);
    FoldStep(c0, pseudo + whole + [val], 0);
    assert pseudo + whole + [val] + [0] == MessageWords(Destination(h), Source(h), QosTid(h), data);
    mic := LeBytes(c.l) + LeBytes(c.r);
  }

  lemma {:induction false} FoldEmpty(c: Ctx)
    ensures Fold(c, []) == c
  {
  }
}
