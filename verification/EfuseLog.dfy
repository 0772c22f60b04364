/** The log kept in the one-time-programmable cells, and the image it stands for. */
module EfuseLog {
  import opened Words

  const ERASED: Byte := 0xFF
  const SECTIONS: nat := 16
  const CELLS: nat := 512

  /** Cells kept free at the end of the device (`EFUSE_OOB_PROTECT_BYTES`). */
  const OOB_PROTECT: nat := 15

  /** The mask shifted down w times. */
  function Shifted(en: nat, w: nat): nat {
    if w == 0 then en else if w == 1 then en / 2 else if w == 2 then en / 2 / 2 else en / 2 / 2 / 2
  }

  /** In a word mask a cleared bit means that the word is present. */
  predicate On(en: nat, w: nat) {
    Shifted(en, w) % 2 == 0
  }

  const NO_WORDS: nat := 0x0F

  function Mask(w0: bool, w1: bool, w2: bool, w3: bool): (en: nat)
    ensures en < 16
    ensures On(en, 0) == w0 && On(en, 1) == w1 && On(en, 2) == w2 && On(en, 3) == w3
  {
    (if w0 then 0 else 1) + (if w1 then 0 else 2) + (if w2 then 0 else 4) + (if w3 then 0 else 8)
  }

  /** A mask is its four bits. */
  lemma {:induction false} MaskOf(en: nat)
    requires en < 16
    ensures en == Mask(On(en, 0), On(en, 1), On(en, 2), On(en, 3))
  {
  }

  /** Masks with the same words are the same. */
  lemma {:induction false} MasksEqual(a: nat, b: nat)
    requires a < 16 && b < 16 && forall w :: 0 <= w < 4 ==> (On(a, w) <==> On(b, w))
    ensures a == b
  {
    MaskOf(a);
    MaskOf(b);
  }

  function Bit(b: bool): nat {
    if b then 1 else 0
  }

  /** `efuse_calculate_word_cnts` */
  function WordCount(en: nat): (n: nat)
    ensures n <= 4
  {
    Bit(On(en, 0)) + Bit(On(en, 1)) + Bit(On(en, 2)) + Bit(On(en, 3))
  }

  /** Words present below word w. */
  function CountBelow(en: nat, w: nat): (n: nat)
    requires w <= 4
    ensures n <= WordCount(en) && (w < 4 && On(en, w) ==> n + 1 <= WordCount(en))
    ensures w == 0 ==> n == 0
    ensures w == 4 ==> n == WordCount(en)
  {
    Bit(0 < w && On(en, 0)) + Bit(1 < w && On(en, 1)) + Bit(2 < w && On(en, 2)) + Bit(3 < w && On(en, 3))
  }

  lemma {:induction false} CountNext(en: nat, w: nat)
    requires w < 4
    ensures CountBelow(en, w + 1) == CountBelow(en, w) + Bit(On(en, w))
  {
  }

  /** One packet: a section of the image, the words of it that are present, and the section's eight
      bytes, of which only those of present words mean anything. */
  datatype Packet = Packet(section: nat, en: nat, data: seq<Byte>) {

    /** A one-byte header that no reader takes for an extended header or for the end of the log. */
    ghost predicate Valid() {
      section < SECTIONS && en < 16 && |data| == 8 && (en == NO_WORDS ==> section % 2 == 1 && section != 15)
    }

    function Header(): (h: nat)
    {
      section * 16 + en
    }

    function Length(): nat {
      1 + 2 * WordCount(en)
    }

    /** Nothing has been programmed into the packet's words yet. */
    predicate Empty()
      requires |data| == 8
    {
      forall j :: 0 <= j < 8 && On(en, j / 2) ==> data[j] == ERASED
    }
  }

  type Log = seq<Packet>

  ghost predicate Wellformed(log: Log) {
    forall k :: 0 <= k < |log| ==> log[k].Valid()
  }

  /** Where packet k starts. */
  function Offset(log: Log, k: nat): (a: nat)
    requires k <= |log|
    ensures k == 0 ==> a == 0
  {
    if k == 0 then 0 else Offset(log, k - 1) + log[k - 1].Length()
  }

  function Size(log: Log): nat {
    Offset(log, |log|)
  }

  lemma {:induction false} OffsetMonotone(log: Log, j: nat, k: nat)
    requires j <= k <= |log|
    ensures Offset(log, j) <= Offset(log, k)
    ensures j < k ==> Offset(log, j) + log[j].Length() <= Offset(log, k)
    decreases k
  {
    if j < k {
      OffsetMonotone(log, j, k - 1);
    }
  }

  /** Offsets depend only on the masks of earlier packets. */
  lemma {:induction false} OffsetAgrees(log: Log, log': Log, k: nat)
    requires k <= |log| && k <= |log'|
    requires forall i :: 0 <= i < k ==> log[i].en == log'[i].en
    ensures Offset(log, k) == Offset(log', k)
  {
    if k > 0 {
      OffsetAgrees(log, log', k - 1);
    }
  }

  /** The cells hold packet p at address a. */
  ghost predicate HoldsPacket(cells: seq<Byte>, a: nat, p: Packet)
    requires |p.data| == 8
  {
    && a + p.Length() <= |cells|
    && cells[a] == p.Header()
    && (forall w :: 0 <= w < 4 && On(p.en, w) ==>
          cells[a + 1 + 2 * CountBelow(p.en, w)] == p.data[2 * w] && cells[a + 2 + 2 * CountBelow(p.en, w)] == p.data[2 * w + 1])
  }

  /** The device content is the log, followed by erased cells. */
  ghost predicate Represents(cells: seq<Byte>, log: Log) {
    && |cells| == CELLS
    && Wellformed(log)
    && Size(log) <= CELLS
    && (forall k :: 0 <= k < |log| ==> HoldsPacket(cells, Offset(log, k), log[k]))
    && (forall a :: Size(log) <= a < CELLS ==> cells[a] == ERASED)
  }

  // ---------------------------------------------------------------------------------------------
  // The image: the last packet that has a word decides it

  predicate Writes(p: Packet, s: nat, w: nat) {
    p.section == s && On(p.en, w)
  }

  /** Byte j of section s after the first n packets. */
  function CellAfter(log: Log, n: nat, s: nat, j: nat): (b: Byte)
    requires n <= |log| && j < 8
    requires forall k :: 0 <= k < |log| ==> |log[k].data| == 8
    ensures n == 0 ==> b == ERASED
  {
    if n == 0 then ERASED
    else if Writes(log[n - 1], s, j / 2) then log[n - 1].data[j]
    else CellAfter(log, n - 1, s, j)
  }

  function Cell(log: Log, s: nat, j: nat): Byte
    requires j < 8
    requires forall k :: 0 <= k < |log| ==> |log[k].data| == 8
  {
    CellAfter(log, |log|, s, j)
  }

  /** Byte a of the 128-byte image. */
  function ImageAt(log: Log, a: nat): Byte
    requires forall k :: 0 <= k < |log| ==> |log[k].data| == 8
  {
    Cell(log, a / 8, a % 8)
  }

  lemma {:induction false} ImageOfSection(log: Log, s: nat, j: nat)
    requires j < 8 && Wellformed(log)
    ensures ImageAt(log, 8 * s + j) == Cell(log, s, j)
  {
    assert (8 * s + j) / 8 == s && (8 * s + j) % 8 == j;
  }

  /** A 128-byte map is what the log decodes to. */
  ghost predicate Decodes(image: seq<Byte>, log: Log)
    requires Wellformed(log)
  {
    |image| == 8 * SECTIONS && forall a :: 0 <= a < 8 * SECTIONS ==> image[a] == ImageAt(log, a)
  }

  /** The last of the first n packets that has word w of section s, or -1. */
  function LastWriter(log: Log, n: nat, s: nat, w: nat): int
    requires n <= |log|
  {
    if n == 0 then -1
    else if Writes(log[n - 1], s, w) then n - 1
    else LastWriter(log, n - 1, s, w)
  }

  lemma {:induction false} LastWriterDecides(log: Log, n: nat, s: nat, j: nat)
    requires n <= |log| && j < 8 && Wellformed(log)
    ensures var k := LastWriter(log, n, s, j / 2);
            && -1 <= k < n
            && (k >= 0 ==> Writes(log[k], s, j / 2))
            && CellAfter(log, n, s, j) == (if k < 0 then ERASED else log[k].data[j])
  {
    if n > 0 && !Writes(log[n - 1], s, j / 2) {
      LastWriterDecides(log, n - 1, s, j);
    }
  }

  /** Bytes a packet for these words would carry. */
  function Target(en: nat, data: seq<Byte>): (t: seq<Byte>)
    requires |data| == 8
    ensures |t| == 8
  {
    seq(8, j requires 0 <= j < 8 => if On(en, j / 2) then data[j] else ERASED)
  }

  // ---------------------------------------------------------------------------------------------
  // Reading a well-formed log front to back

  lemma {:induction false} HeaderFields(p: Packet)
    requires p.Valid()
    ensures p.Header() < ERASED && p.Header() / 16 == p.section && p.Header() % 16 == p.en && p.Header() % 32 != 0x0F
  {
  }

  /** What a reader finds where packet k should start. */
  lemma {:induction false} HeaderAt(cells: seq<Byte>, log: Log, k: nat)
    requires Represents(cells, log) && k <= |log|
    ensures Offset(log, k) <= Size(log)
    ensures k < |log| ==> Offset(log, k) + log[k].Length() == Offset(log, k + 1) <= Size(log)
    ensures k < |log| ==> cells[Offset(log, k)] == log[k].Header() && HoldsPacket(cells, Offset(log, k), log[k])
    ensures k == |log| && Size(log) < CELLS ==> cells[Offset(log, k)] == ERASED
  {
    OffsetMonotone(log, k, |log|);
    if k < |log| {
      OffsetMonotone(log, k + 1, |log|);
    }
  }

  /** A packet changes its own words and no others. */
  lemma {:induction false} CellStep(log: Log, k: nat, s: nat, j: nat)
    requires k < |log| && j < 8 && Wellformed(log)
    ensures CellAfter(log, k + 1, s, j) == if s == log[k].section && On(log[k].en, j / 2) then log[k].data[j] else CellAfter(log, k, s, j)
  {
  }

  lemma {:induction false} WordlessPacket(log: Log, k: nat, s: nat, j: nat)
    requires Wellformed(log) && k + 1 == |log| && WordCount(log[k].en) == 0 && j < 8
    ensures CellAfter(log, k, s, j) == Cell(log, s, j)
  {
    CellStep(log, k, s, j);
    NoWords(log[k].en, j / 2);
  }

  lemma {:induction false} NoWords(en: nat, w: nat)
    requires WordCount(en) == 0 && w < 4
    ensures !On(en, w)
  {
  }

  // ---------------------------------------------------------------------------------------------
  // How programming cells changes the log they represent

  lemma {:induction false} AppendRepresents(before: seq<Byte>, after: seq<Byte>, log: Log, p: Packet)
    requires Represents(before, log) && |after| == CELLS && p.Valid()
    requires HoldsPacket(after, Size(log), p)
    requires forall a :: 0 <= a < CELLS && !(Size(log) <= a < Size(log) + p.Length()) ==> after[a] == before[a]
    ensures Represents(after, log + [p])
  {
    hide HoldsPacket, Offset, WordCount, Size;
    var log' := log + [p];
    SizeAppend(log, p);
    HeldFits(after, Size(log), p);
    forall k | 0 <= k < |log'|
      ensures HoldsPacket(after, Offset(log', k), log'[k])
    {
      if k < |log| {
        AppendHolds(before, after, log, p, k);
      }
    }
  }

  lemma {:induction false} HeldFits(cells: seq<Byte>, a: nat, p: Packet)
    requires p.Valid() && HoldsPacket(cells, a, p)
    ensures a + p.Length() <= |cells|
  {
    hide On;
  }

  lemma {:induction false} SizeAppend(log: Log, p: Packet)
    ensures Size(log + [p]) == Size(log) + p.Length() && Offset(log + [p], |log|) == Size(log)
  {
    hide WordCount;
    OffsetAgrees(log, log + [p], |log|);
  }

  lemma {:induction false} AppendHolds(before: seq<Byte>, after: seq<Byte>, log: Log, p: Packet, k: nat)
    requires Represents(before, log) && |after| == CELLS && k < |log|
    requires forall a :: 0 <= a < Size(log) ==> after[a] == before[a]
    ensures HoldsPacket(after, Offset(log + [p], k), log[k])
  {
    hide HoldsPacket, Offset, WordCount;
    OffsetAgrees(log, log + [p], k);
    OffsetMonotone(log, k, |log|);
    HeldElsewhere(before, after, Offset(log, k), log[k]);
  }

  lemma {:induction false} HeldElsewhere(before: seq<Byte>, after: seq<Byte>, a: nat, p: Packet)
    requires p.Valid() && HoldsPacket(before, a, p) && |after| == |before|
    requires forall i :: a <= i < a + p.Length() ==> after[i] == before[i]
    ensures HoldsPacket(after, a, p)
  {
    hide On;
  }

  lemma {:induction false} FillRepresents(before: seq<Byte>, after: seq<Byte>, log: Log, k: nat, t: seq<Byte>)
    requires Represents(before, log) && |after| == CELLS && k < |log| && |t| == 8
    requires HoldsPacket(after, Offset(log, k), log[k].(data := t))
    requires forall a :: 0 <= a < CELLS && !(Offset(log, k) <= a < Offset(log, k) + log[k].Length()) ==> after[a] == before[a]
    ensures Represents(after, log[k := log[k].(data := t)])
  {
    hide HoldsPacket, Offset, WordCount;
    var log' := log[k := log[k].(data := t)];
    OffsetAgrees(log, log', |log|);
    OffsetMonotone(log, k, |log|);
    forall i | 0 <= i < |log|
      ensures HoldsPacket(after, Offset(log', i), log'[i])
    {
      OffsetAgrees(log, log', i);
      if i != k {
        OffsetMonotone(log, i, |log|);
        OffsetMonotone(log, if i < k then i else k, if i < k then k else i);
        HeldElsewhere(before, after, Offset(log, i), log[i]);
      }
    }
  }

  // ---------------------------------------------------------------------------------------------
  // The format in plain numbers

  lemma {:induction false} ExampleMasks()
    ensures On(0x0C, 0) && On(0x0C, 1) && !On(0x0C, 2) && !On(0x0C, 3)
    ensures !On(0x07, 0) && !On(0x07, 1) && !On(0x07, 2) && On(0x07, 3)
  {
  }

  /** Words 0 and 1 of section 3, then word 3 of section 10: where they are in the cells, and where in the image. */
  lemma {:induction false} FormatExample(cells: seq<Byte>, x: seq<Byte>, y: seq<Byte>)
    requires |x| == |y| == 8
    ensures var log := [Packet(3, 0x0C, x), Packet(10, 0x07, y)];
            && (Represents(cells, log) <==>
                  |cells| == 512 && cells[..8] == [0x3C, x[0], x[1], x[2], x[3], 0xA7, y[6], y[7]]
                  && forall a :: 8 <= a < 512 ==> cells[a] == 0xFF)
            && (forall a: nat | a < 128 :: ImageAt(log, a) ==
                  if 24 <= a < 28 then x[a - 24] else if 86 <= a < 88 then y[a - 80] else 0xFF)
  {
    ExampleMasks();
    hide On;
    var p, q := Packet(3, 0x0C, x), Packet(10, 0x07, y);
    var log := [p, q];
    assert Offset(log, 1) == Offset(log, 0) + p.Length() == 5;
    assert Size(log) == Offset(log, 1) + q.Length() == 8;
    forall a: nat | a < 128
      ensures ImageAt(log, a) == if 24 <= a < 28 then x[a - 24] else if 86 <= a < 88 then y[a - 80] else 0xFF
    {
      ExampleByte(x, y, a);
    }
    if |cells| == 512 {
      ExampleHolds(cells, x, y);
    }
  }

  lemma {:induction false} ExampleHolds(cells: seq<Byte>, x: seq<Byte>, y: seq<Byte>)
    requires |x| == |y| == 8 && |cells| == 512
    ensures HoldsPacket(cells, 0, Packet(3, 0x0C, x)) && HoldsPacket(cells, 5, Packet(10, 0x07, y)) <==>
            cells[..8] == [0x3C, x[0], x[1], x[2], x[3], 0xA7, y[6], y[7]]
  {
    ExampleMasks();
    hide On;
    var c := cells[..8];
    assert forall i :: 0 <= i < 8 ==> c[i] == cells[i];
    assert On(0x0C, 0) && CountBelow(0x0C, 0) == 0 && On(0x0C, 1) && CountBelow(0x0C, 1) == 1;
    assert On(0x07, 3) && CountBelow(0x07, 3) == 0;
  }

  lemma {:induction false} ExampleByte(x: seq<Byte>, y: seq<Byte>, a: nat)
    requires |x| == |y| == 8 && a < 128
    ensures ImageAt([Packet(3, 0x0C, x), Packet(10, 0x07, y)], a) ==
            if 24 <= a < 28 then x[a - 24] else if 86 <= a < 88 then y[a - 80] else 0xFF
  {
    ExampleMasks();
    hide On;
    var log := [Packet(3, 0x0C, x), Packet(10, 0x07, y)];
    var s, j := a / 8, a % 8;
    assert j / 2 == 0 || j / 2 == 1 || j / 2 == 2 || j / 2 == 3;
    assert CellAfter(log, 0, s, j) == ERASED;
    assert CellAfter(log, 1, s, j) == if s == 3 && j < 4 then x[j] else ERASED;
    assert CellAfter(log, 2, s, j) == if s == 10 && j >= 6 then y[j] else CellAfter(log, 1, s, j);
  }
}
