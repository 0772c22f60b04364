/** What a reader may find in the cells: packets under the one-byte headers of the log, and packets under
    the two-byte headers that other tools write. */
module EfuseRecords {
  import opened EfuseLog
  import opened Words

  datatype Record = Record(packet: Packet, extended: bool) {

    ghost predicate Valid() {
      packet.Valid() && (extended ==> packet.en != NO_WORDS)
    }

    /** Where the words start. */
    function HeaderLength(): nat {
      if extended then 2 else 1
    }

    function Length(): nat {
      HeaderLength() + 2 * WordCount(packet.en)
    }

    /** The first byte: section and mask, or the lower three bits of the section above 0x0F. */
    function FirstByte(): nat {
      if extended then 32 * (packet.section % 8) + 0x0F else packet.Header()
    }

    /** The second byte of an extended header: the upper bits of the section, and the mask. */
    function SecondByte(): nat {
      16 * (packet.section / 8) + packet.en
    }
  }

  ghost predicate AllValid(rs: seq<Record>) {
    forall k :: 0 <= k < |rs| ==> rs[k].Valid()
  }

  function Packets(rs: seq<Record>): (log: Log)
    ensures |log| == |rs| && forall k :: 0 <= k < |rs| ==> log[k] == rs[k].packet
  {
    seq(|rs|, k requires 0 <= k < |rs| => rs[k].packet)
  }

  /** Where record k starts. */
  function Start(rs: seq<Record>, k: nat): (a: nat)
    requires k <= |rs|
    ensures k == 0 ==> a == 0
  {
    if k == 0 then 0 else Start(rs, k - 1) + rs[k - 1].Length()
  }

  function Total(rs: seq<Record>): nat {
    Start(rs, |rs|)
  }

  /** How many of the first k headers are extended. */
  function ExtendedBefore(rs: seq<Record>, k: nat): (n: nat)
    requires k <= |rs|
    ensures n <= Start(rs, k)
  {
    if k == 0 then 0 else ExtendedBefore(rs, k - 1) + if rs[k - 1].extended then 1 else 0
  }

  ghost predicate HoldsWords(cells: seq<Byte>, a: nat, p: Packet)
    requires |p.data| == 8
  {
    && a + 2 * WordCount(p.en) <= |cells|
    && (forall w :: 0 <= w < 4 && On(p.en, w) ==>
          cells[a + 2 * CountBelow(p.en, w)] == p.data[2 * w] && cells[a + 2 * CountBelow(p.en, w) + 1] == p.data[2 * w + 1])
  }

  ghost predicate HoldsRecord(cells: seq<Byte>, a: nat, r: Record)
    requires r.Valid()
  {
    && a + r.Length() <= |cells|
    && cells[a] == r.FirstByte()
    && (r.extended ==> cells[a + 1] == r.SecondByte())
    && HoldsWords(cells, a + r.HeaderLength(), r.packet)
  }

  /** The cells hold these records one behind the other, and nothing else. */
  ghost predicate Holds(cells: seq<Byte>, rs: seq<Record>) {
    && |cells| == CELLS
    && AllValid(rs)
    && Total(rs) <= CELLS
    && (forall k :: 0 <= k < |rs| ==> HoldsRecord(cells, Start(rs, k), rs[k]))
    && (forall a :: Total(rs) <= a < CELLS ==> cells[a] == ERASED)
  }

  lemma {:induction false} StartMonotone(rs: seq<Record>, j: nat, k: nat)
    requires j <= k <= |rs|
    ensures Start(rs, j) <= Start(rs, k)
    decreases k
  {
    if j < k {
      StartMonotone(rs, j, k - 1);
    }
  }

  /** What a reader finds where record k should start. */
  lemma {:induction false} RecordAt(cells: seq<Byte>, rs: seq<Record>, k: nat)
    requires Holds(cells, rs) && k <= |rs|
    ensures Start(rs, k) <= Total(rs)
    ensures k < |rs| ==> Start(rs, k) + rs[k].Length() == Start(rs, k + 1) <= Total(rs)
    ensures k < |rs| ==> rs[k].Valid() && HoldsRecord(cells, Start(rs, k), rs[k])
    ensures k < |rs| ==> ExtendedBefore(rs, k + 1) == ExtendedBefore(rs, k) + if rs[k].extended then 1 else 0
    ensures k == |rs| && Total(rs) < CELLS ==> cells[Start(rs, k)] == ERASED
  {
    hide HoldsRecord, Record.Length, Record.Valid;
    StartMonotone(rs, k, |rs|);
    if k < |rs| {
      StartMonotone(rs, k + 1, |rs|);
    }
  }

  /** What a reader makes of the header bytes. */
  lemma {:induction false} HeaderBytes(r: Record)
    requires r.Valid()
    ensures r.FirstByte() < ERASED && r.SecondByte() < 256
    ensures r.FirstByte() % 32 == 0x0F <==> r.extended
    ensures !r.extended ==> r.FirstByte() / 16 == r.packet.section && r.FirstByte() % 16 == r.packet.en
    ensures r.extended ==> r.SecondByte() % 16 == r.packet.en != NO_WORDS
    ensures r.extended ==> (r.SecondByte() / 16) * 8 + r.FirstByte() / 32 == r.packet.section
  {
    if !r.extended {
      HeaderFields(r.packet);
    }
  }

  /** A record whose first byte is the device's last one is the last record and has no words. */
  lemma {:induction false} LastByteRecord(cells: seq<Byte>, rs: seq<Record>, k: nat)
    requires Holds(cells, rs) && k < |rs| && Start(rs, k) + 1 >= CELLS
    ensures k + 1 == |rs| && Total(rs) == CELLS && WordCount(rs[k].packet.en) == 0 && !rs[k].extended
  {
    RecordAt(cells, rs, k);
    StartMonotone(rs, k + 1, |rs|);
    hide Holds, HoldsRecord, WordCount;
    LaterStart(rs, k);
  }

  lemma {:induction false} LaterStart(rs: seq<Record>, k: nat)
    requires k < |rs|
    ensures k + 1 < |rs| ==> Start(rs, k + 1) < Total(rs)
  {
    hide WordCount;
    if k + 1 < |rs| {
      StartMonotone(rs, k + 2, |rs|);
    }
  }

  // ---------------------------------------------------------------------------------------------
  // A log is such a sequence without extended headers

  function Plain(log: Log): (rs: seq<Record>)
    ensures |rs| == |log| && forall k :: 0 <= k < |log| ==> rs[k] == Record(log[k], false)
  {
    seq(|log|, k requires 0 <= k < |log| => Record(log[k], false))
  }

  lemma {:induction false} PlainStarts(log: Log, k: nat)
    requires k <= |log|
    ensures Start(Plain(log), k) == Offset(log, k) && ExtendedBefore(Plain(log), k) == 0
  {
    hide WordCount;
    if k > 0 {
      PlainStarts(log, k - 1);
    }
  }

  lemma {:induction false} PlainHolds(cells: seq<Byte>, log: Log)
    requires Represents(cells, log)
    ensures Holds(cells, Plain(log)) && Packets(Plain(log)) == log
    ensures Total(Plain(log)) == Size(log) && ExtendedBefore(Plain(log), |log|) == 0
  {
    hide WordCount, Offset, HoldsPacket, HoldsRecord;
    var rs := Plain(log);
    PlainStarts(log, |log|);
    forall k | 0 <= k < |rs|
      ensures rs[k].Valid() && HoldsRecord(cells, Start(rs, k), rs[k])
    {
      PlainStarts(log, k);
      PlainHeld(cells, Offset(log, k), log[k]);
    }
  }

  lemma {:induction false} PlainHeld(cells: seq<Byte>, a: nat, p: Packet)
    requires p.Valid() && HoldsPacket(cells, a, p)
    ensures HoldsRecord(cells, a, Record(p, false))
  {
    hide On;
  }

  // ---------------------------------------------------------------------------------------------
  // In plain numbers

  /** Word 0 of section 11 under an extended header. */
  lemma {:induction false} ExtendedExample(cells: seq<Byte>, x: seq<Byte>)
    requires |x| == 8 && |cells| == 512
    ensures var rs := [Record(Packet(11, 0x0E, x), true)];
            && (Holds(cells, rs) <==> cells[..4] == [0x6F, 0x1E, x[0], x[1]] && forall a :: 4 <= a < 512 ==> cells[a] == 0xFF)
            && Total(rs) == 4 && ExtendedBefore(rs, 1) == 1
  {
    assert On(0x0E, 0) && !On(0x0E, 1) && !On(0x0E, 2) && !On(0x0E, 3);
    hide On;
    var r := Record(Packet(11, 0x0E, x), true);
    var rs := [r];
    assert Start(rs, 1) == Start(rs, 0) + r.Length() == 4;
    assert ExtendedBefore(rs, 1) == ExtendedBefore(rs, 0) + 1;
    var c := cells[..4];
    assert forall i :: 0 <= i < 4 ==> c[i] == cells[i];
    assert CountBelow(0x0E, 0) == 0;
  }
}
