/** The device's cells and the driver's routines that read and program them, on fault-free hardware. */
module EfuseDevice {
  import opened EfuseLog
  import opened EfuseRecords
  import opened EfuseUpdate
  import opened Words

  /** Bitwise AND: programming a cell can only clear bits. */
  function Burn(cell: nat, data: nat): (r: nat)
    ensures r <= cell && r <= data
  {
    if cell == 0 || data == 0 then 0
    else 2 * Burn(cell / 2, data / 2) + (if cell % 2 == 1 && data % 2 == 1 then 1 else 0)
  }

  function Ones(k: nat): nat {
    if k == 0 then 0 else 2 * Ones(k - 1) + 1
  }

  lemma {:induction false} BurnOnes(k: nat, data: nat)
    requires data <= Ones(k)
    ensures Burn(Ones(k), data) == data
  {
    if k > 0 && data > 0 {
      BurnOnes(k - 1, data / 2);
      assert Ones(k) / 2 == Ones(k - 1);
    }
  }

  lemma {:induction false} BurnErased(data: Byte)
    ensures Burn(ERASED, data) == data
  {
    assert Ones(8) == 255 by {
      assert Ones(4) == 15;
    }
    BurnOnes(8, data);
  }

  /** The 16-bit value of a little-endian word. */
  function Word(lo: Byte, hi: Byte): nat {
    lo + 256 * hi
  }

  datatype WriteState = HeaderState | DataState

  class Efuse {
    const cells: array<Byte>
    /** What a read past the last cell returns. */
    const floating: Byte
    const initMap: array<Byte>
    const modifyMap: array<Byte>
    var usedBytes: nat
    var repeatTimes: nat
    ghost var log: Log

    ghost predicate Shape() {
      && cells.Length == CELLS && initMap.Length == 8 * SECTIONS && modifyMap.Length == 8 * SECTIONS
      && cells != initMap && cells != modifyMap && initMap != modifyMap
    }

    method OneByteRead(addr: nat) returns (ok: bool, data: Byte)
      requires Shape()
      ensures ok && data == (if addr < CELLS then cells[addr] else floating)
    {
      ok := true;
      data := if addr < CELLS then cells[addr] else floating;
    }

    // -------------------------------------------------------------------------------------------
    // Reading

    /** Reads the words of one packet, whatever the cells contain. */
    method ReadWords(start: nat, en: nat, section: nat, words: array2<nat>) returns (addr: nat)
      requires Shape() && start <= CELLS && section < SECTIONS && words.Length0 == 4 && words.Length1 == SECTIONS
      modifies words
      ensures start <= addr <= CELLS + 1
      ensures forall w, s :: 0 <= w < 4 && 0 <= s < SECTIONS && !(s == section && On(en, w)) ==> words[w, s] == old(words[w, s])
      ensures start + 2 * WordCount(en) <= CELLS ==>
                && addr == start + 2 * WordCount(en)
                && forall w :: 0 <= w < 4 && On(en, w) ==>
                     words[w, section] == Word(cells[start + 2 * CountBelow(en, w)], cells[start + 2 * CountBelow(en, w) + 1])
    {
      hide On, CountBelow, WordCount;
      addr := start;
      var wren := en;
      var i := 0;
      ghost var complete := start + 2 * WordCount(en) <= CELLS;
      while i < 4
        invariant 0 <= i <= 4 && start <= addr <= CELLS && (i < 4 ==> wren == Shifted(en, i))
        invariant forall w, s :: 0 <= w < 4 && 0 <= s < SECTIONS && !(s == section && On(en, w)) ==> words[w, s] == old(words[w, s])
        invariant complete ==> addr == start + 2 * CountBelow(en, i)
        invariant complete ==> forall w :: 0 <= w < i && On(en, w) ==>
                     words[w, section] == Word(cells[start + 2 * CountBelow(en, w)], cells[start + 2 * CountBelow(en, w) + 1])
      {
        CountNext(en, i);
        OnShifted(en, i);
        if wren % 2 == 0 {
          var ok, lo := OneByteRead(addr);
          addr := addr + 1;
          words[i, section] := lo;
          if addr >= CELLS {
            break;
          }
          var ok', hi := OneByteRead(addr);
          addr := addr + 1;
          words[i, section] := Word(lo, hi);
          if addr >= CELLS {
            if complete {
              NoneLeft(en, i + 1);
            }
            break;
          }
        }
        wren := wren / 2;
        i := i + 1;
      }
    }

    /** Where decoding stands before record k: the first byte of its header has been read. The second byte of
        an extended header is never counted as used. */
    ghost predicate Decoding(rs: seq<Record>, k: nat, addr: nat, header: Byte, utilized: nat, words: array2<nat>)
      requires words.Length0 == 4 && words.Length1 == SECTIONS && AllValid(rs)
      reads words
    {
      && k <= |rs|
      && addr == (if k < |rs| then Start(rs, k) + 1 else Total(rs))
      && utilized == addr - ExtendedBefore(rs, k)
      && (k < |rs| ==> header == rs[k].FirstByte())
      && (k == |rs| && Total(rs) < CELLS ==> header == ERASED)
      && WordsAfter(Packets(rs), k, words)
    }

    /** The word table after the first k packets. */
    ghost predicate WordsAfter(packets: Log, k: nat, words: array2<nat>)
      requires words.Length0 == 4 && words.Length1 == SECTIONS && Wellformed(packets) && k <= |packets|
      reads words
    {
      forall w, s :: 0 <= w < 4 && 0 <= s < SECTIONS ==>
        words[w, s] == Word(CellAfter(packets, k, s, 2 * w), CellAfter(packets, k, s, 2 * w + 1))
    }

    /** Reads the words of record k where there is one. */
    method ReadPacket(start: nat, en: nat, section: nat, words: array2<nat>, ghost rs: seq<Record>, ghost k: nat, ghost held: bool)
      returns (addr: nat)
      requires Shape() && start <= CELLS && section < SECTIONS && words.Length0 == 4 && words.Length1 == SECTIONS
      requires held ==>
                 && Holds(cells[..], rs) && k < |rs| && WordsAfter(Packets(rs), k, words)
                 && start == Start(rs, k) + rs[k].HeaderLength() && section == rs[k].packet.section && en == rs[k].packet.en
      modifies words
      ensures start <= addr <= CELLS + 1
      ensures held ==> addr == Start(rs, k) + rs[k].Length() && WordsAfter(Packets(rs), k + 1, words)
    {
      hide On, CountBelow, WordCount, CellAfter, Start;
      if held {
        RecordAt(cells[..], rs, k);
      }
      addr := ReadWords(start, en, section, words);
      if held {
        forall w: nat, s: nat | w < 4 && s < SECTIONS
          ensures words[w, s] == Word(CellAfter(Packets(rs), k + 1, s, 2 * w), CellAfter(Packets(rs), k + 1, s, 2 * w + 1))
        {
          CellStep(Packets(rs), k, s, 2 * w);
          CellStep(Packets(rs), k, s, 2 * w + 1);
        }
      }
    }

    /** `read_efuse`: total for any content; from cells that hold records it returns their image. The bytes
        counted as used are all but the second bytes of extended headers. */
    method ReadEfuse(offset: nat, size: nat, pbuf: array<Byte>, ghost rs: seq<Record>)
      requires Shape() && size <= pbuf.Length && pbuf != cells
      modifies pbuf, `usedBytes
      ensures offset + size > 128 ==> pbuf[..] == old(pbuf[..]) && usedBytes == old(usedBytes)
      ensures forall i :: size <= i < pbuf.Length ==> pbuf[i] == old(pbuf[i])
      ensures offset + size <= 128 && Holds(cells[..], rs) ==>
                && usedBytes == Total(rs) - ExtendedBefore(rs, |rs|)
                && forall i :: 0 <= i < size ==> pbuf[i] == ImageAt(Packets(rs), offset + i)
    {
      if offset + size > 8 * SECTIONS {
        return;
      }
      hide Holds, ImageAt, Start;
      ghost var content := cells[..];
      var words := new nat[4, SECTIONS]((_, _) => 0xFFFF);
      var utilized := DecodeWords(words, rs);
      ghost var held := Holds(content, rs);
      assert held ==> WordsHold(Packets(rs), words);
      var table := BuildTable(words, Packets(rs));
      CopyOut(table, offset, size, pbuf);
      usedBytes := utilized;
      assert cells[..] == content;
    }

    method CopyOut(table: array<Byte>, offset: nat, size: nat, pbuf: array<Byte>)
      requires offset + size <= table.Length && size <= pbuf.Length && pbuf != table
      modifies pbuf
      ensures forall i :: 0 <= i < size ==> pbuf[i] == table[offset + i]
      ensures forall i :: size <= i < pbuf.Length ==> pbuf[i] == old(pbuf[i])
    {
      for i := 0 to size
        invariant forall a :: 0 <= a < i ==> pbuf[a] == table[offset + a]
        invariant forall a :: i <= a < pbuf.Length ==> pbuf[a] == old(pbuf[a])
      {
        pbuf[i] := table[offset + i];
      }
    }

    method DecodeWords(words: array2<nat>, ghost rs: seq<Record>) returns (utilized: nat)
      requires Shape() && words.Length0 == 4 && words.Length1 == SECTIONS
      requires forall w, s :: 0 <= w < 4 && 0 <= s < SECTIONS ==> words[w, s] == 0xFFFF
      modifies words
      ensures Holds(cells[..], rs) ==>
                utilized == Total(rs) - ExtendedBefore(rs, |rs|) && WordsHold(Packets(rs), words)
    {
      hide On, CountBelow, WordCount, CellAfter, Start, Cell, WordsHold, ExtendedBefore;
      ghost var content := cells[..];
      ghost var held := Holds(content, rs);
      ghost var k := 0;
      utilized := 0;
      var addr := 0;
      var ok, header := OneByteRead(addr);
      if header != ERASED {
        utilized := utilized + 1;
        addr := addr + 1;
      }
      if held {
        DecodingStarts(rs, words);
      }
      while header != ERASED && addr < CELLS
        invariant addr <= CELLS + 1
        invariant held ==> Decoding(rs, k, addr, header, utilized, words)
        decreases CELLS + 1 - addr, if header != ERASED then 1 else 0
      {
        if held {
          DecodingGoesOn(rs, k, addr, header, utilized, words);
        }
        var section, wren;
        if header % 32 == 0x0F {
          var low := header / 32;
          ok, header := OneByteRead(addr);
          addr := addr + 1;
          if header % 16 == NO_WORDS {
            ok, header := OneByteRead(addr);
            if header != ERASED && addr < CELLS {
              addr := addr + 1;
            }
            continue;
          }
          section := (header / 16) * 8 + low;
          wren := header % 16;
        } else {
          section := header / 16;
          wren := header % 16;
        }
        var start := addr;
        if section < SECTIONS {
          addr := ReadPacket(addr, wren, section, words, rs, k, held);
          utilized := utilized + (addr - start);
        }
        ok, header := OneByteRead(addr);
        if header != ERASED && addr < CELLS {
          utilized := utilized + 1;
          addr := addr + 1;
        }
        k := k + 1;
      }
      if held {
        DecodingEnds(rs, k, addr, header, utilized, words);
      }
    }

    lemma {:induction false} DecodingStarts(rs: seq<Record>, words: array2<nat>)
      requires Shape() && words.Length0 == 4 && words.Length1 == SECTIONS && Holds(cells[..], rs)
      requires forall w, s :: 0 <= w < 4 && 0 <= s < SECTIONS ==> words[w, s] == 0xFFFF
      ensures if cells[0] != ERASED then Decoding(rs, 0, 1, cells[0], 1, words) else Decoding(rs, 0, 0, ERASED, 0, words)
    {
      hide On, CountBelow, WordCount;
      RecordAt(cells[..], rs, 0);
      if rs != [] {
        HeaderBytes(rs[0]);
      }
    }

    /** What the header stands for, and what is behind the record. */
    lemma {:induction false} DecodingGoesOn(rs: seq<Record>, k: nat, addr: nat, header: Byte, utilized: nat, words: array2<nat>)
      requires Shape() && words.Length0 == 4 && words.Length1 == SECTIONS && Holds(cells[..], rs)
      requires Decoding(rs, k, addr, header, utilized, words) && header != ERASED && addr < CELLS
      ensures k < |rs| && rs[k].Valid() && addr == Start(rs, k) + 1 && header == rs[k].FirstByte()
      ensures header % 32 == 0x0F <==> rs[k].extended
      ensures !rs[k].extended ==> header / 16 == rs[k].packet.section && header % 16 == rs[k].packet.en
      ensures rs[k].extended ==>
                && cells[addr] == rs[k].SecondByte() && cells[addr] % 16 == rs[k].packet.en != NO_WORDS
                && (cells[addr] / 16) * 8 + header / 32 == rs[k].packet.section
      ensures ExtendedBefore(rs, k + 1) == ExtendedBefore(rs, k) + if rs[k].extended then 1 else 0
      ensures var next := Start(rs, k) + rs[k].Length();
              && next == Start(rs, k + 1) <= CELLS
              && (k + 1 < |rs| ==> next < CELLS && cells[next] == rs[k + 1].FirstByte() != ERASED)
              && (k + 1 == |rs| ==> next == Total(rs) && (next < CELLS ==> cells[next] == ERASED))
    {
      hide On, CountBelow, WordCount, CellAfter, Start, ExtendedBefore;
      RecordAt(cells[..], rs, k);
      HeaderBytes(rs[k]);
      RecordAt(cells[..], rs, k + 1);
      if k + 1 < |rs| {
        HeaderBytes(rs[k + 1]);
      }
    }

    /** At the end of the loop the words are those of the image, even if a last packet has no words to read. */
    lemma {:induction false} DecodingEnds(rs: seq<Record>, k: nat, addr: nat, header: Byte, utilized: nat, words: array2<nat>)
      requires Shape() && words.Length0 == 4 && words.Length1 == SECTIONS
      requires Holds(cells[..], rs) && Decoding(rs, k, addr, header, utilized, words)
      requires header == ERASED || addr >= CELLS
      ensures utilized == Total(rs) - ExtendedBefore(rs, |rs|) && WordsHold(Packets(rs), words)
    {
      hide On, CountBelow, WordCount, CellAfter, Start;
      RecordAt(cells[..], rs, k);
      if k < |rs| {
        HeaderBytes(rs[k]);
        LastByteRecord(cells[..], rs, k);
        forall w: nat, s: nat | w < 4 && s < SECTIONS
          ensures words[w, s] == Word(Cell(Packets(rs), s, 2 * w), Cell(Packets(rs), s, 2 * w + 1))
        {
          WordlessPacket(Packets(rs), k, s, 2 * w);
          WordlessPacket(Packets(rs), k, s, 2 * w + 1);
        }
      }
    }

    method BuildTable(words: array2<nat>, ghost packets: Log) returns (table: array<Byte>)
      requires words.Length0 == 4 && words.Length1 == SECTIONS
      ensures fresh(table) && table.Length == 8 * SECTIONS
      ensures WordsHold(packets, words) ==> forall a :: 0 <= a < 8 * SECTIONS ==> table[a] == ImageAt(packets, a)
    {
      hide ImageAt, Cell;
      table := new Byte[8 * SECTIONS](_ => 0);
      ghost var holds := WordsHold(packets, words);
      for i := 0 to SECTIONS
        invariant holds ==> forall a :: 0 <= a < 8 * i ==> table[a] == ImageAt(packets, a)
      {
        for j := 0 to 4
          invariant holds ==> forall a :: 0 <= a < 8 * i + 2 * j ==> table[a] == ImageAt(packets, a)
        {
          if holds {
            ImageOfSection(packets, i, 2 * j);
            ImageOfSection(packets, i, 2 * j + 1);
            WordBytes(Cell(packets, i, 2 * j), Cell(packets, i, 2 * j + 1));
          }
          table[8 * i + 2 * j] := words[j, i] % 256;
          table[8 * i + 2 * j + 1] := words[j, i] / 256 % 256;
        }
      }
    }

    ghost predicate WordsHold(packets: Log, words: array2<nat>)
      requires words.Length0 == 4 && words.Length1 == SECTIONS
      reads words
    {
      && Wellformed(packets)
      && forall w, s :: 0 <= w < 4 && 0 <= s < SECTIONS ==> words[w, s] == Word(Cell(packets, s, 2 * w), Cell(packets, s, 2 * w + 1))
    }

    // -------------------------------------------------------------------------------------------
    // Programming

    /** Cells that have been programmed keep their value. */
    twostate predicate ProgrammedKept()
      requires Shape()
      reads cells
    {
      forall a :: 0 <= a < CELLS && old(cells[a]) != ERASED ==> cells[a] == old(cells[a])
    }

    method OneByteWrite(addr: nat, data: Byte) returns (ok: bool)
      requires Shape() && addr < CELLS
      modifies cells
      ensures ok && cells[..] == old(cells[..])[addr := Burn(old(cells[addr]), data)]
    {
      cells[addr] := Burn(cells[addr], data);
      ok := true;
    }

    /** `efuse_get_current_size` */
    method CurrentSize() returns (addr: nat)
      requires Shape()
      ensures Represents(cells[..], log) ==> addr == Size(log)
    {
      hide Offset, WordCount, On;
      ghost var wellformed := Represents(cells[..], log);
      ghost var k := 0;
      addr := 0;
      var continual := true;
      while continual && addr < CELLS
        invariant wellformed ==> k <= |log| && addr == Offset(log, k) && (!continual ==> k == |log|)
        decreases CELLS + 9 - addr, continual
      {
        if wellformed {
          HeaderAt(cells[..], log, k);
          if k < |log| {
            HeaderFields(log[k]);
          }
        }
        var ok, data := OneByteRead(addr);
        if data != ERASED {
          addr := addr + WordCount(data % 16) * 2 + 1;
          k := k + 1;
        } else {
          continual := false;
        }
      }
      if wellformed {
        HeaderAt(cells[..], log, k);
      }
    }

    /** The words of en below n have been programmed from `start` on. */
    ghost predicate Programmed(start: nat, en: nat, n: nat, data: seq<Byte>)
      requires Shape() && n <= 4 && |data| == 8 && start + 2 * WordCount(en) <= CELLS
      reads cells
    {
      forall w :: 0 <= w < n && On(en, w) ==>
        cells[start + 2 * CountBelow(en, w)] == data[2 * w] && cells[start + 2 * CountBelow(en, w) + 1] == data[2 * w + 1]
    }

    ghost predicate Erased(lo: nat, hi: nat)
      requires Shape() && hi <= CELLS
      reads cells
    {
      forall a :: lo <= a < hi ==> cells[a] == ERASED
    }

    /** Programming word w into cells with this content leaves something else there. */
    ghost predicate Spoils(content: seq<Byte>, start: nat, en: nat, data: seq<Byte>, w: nat)
      requires |content| == CELLS && |data| == 8 && w < 4 && start + 2 * WordCount(en) <= CELLS
    {
      && On(en, w)
      && (Burn(content[start + 2 * CountBelow(en, w)], data[2 * w]) != data[2 * w]
          || Burn(content[start + 2 * CountBelow(en, w) + 1], data[2 * w + 1]) != data[2 * w + 1])
    }

    /** The words of en below n have been burnt into the content, and nothing else has changed. */
    ghost predicate Burnt(content: seq<Byte>, start: nat, en: nat, data: seq<Byte>, n: nat)
      requires Shape() && |content| == CELLS && |data| == 8 && n <= 4 && start + 2 * WordCount(en) <= CELLS
      reads cells
    {
      && (forall w :: 0 <= w < n && On(en, w) ==>
            && cells[start + 2 * CountBelow(en, w)] == Burn(content[start + 2 * CountBelow(en, w)], data[2 * w])
            && cells[start + 2 * CountBelow(en, w) + 1] == Burn(content[start + 2 * CountBelow(en, w) + 1], data[2 * w + 1]))
      && (forall a :: 0 <= a < CELLS && !(start <= a < start + 2 * CountBelow(en, n)) ==> cells[a] == content[a])
    }

    /** The words below n that did not read back as written. */
    ghost predicate BadWords(content: seq<Byte>, start: nat, en: nat, data: seq<Byte>, n: nat, bad: nat)
      requires |content| == CELLS && |data| == 8 && n <= 4 && start + 2 * WordCount(en) <= CELLS
    {
      bad < 16 && forall w :: 0 <= w < 4 ==> (On(bad, w) <==> w < n && Spoils(content, start, en, data, w))
    }

    lemma {:induction false} BadWordsNext(content: seq<Byte>, start: nat, en: nat, data: seq<Byte>, w: nat, bad: nat)
      requires |content| == CELLS && |data| == 8 && w < 4 && start + 2 * WordCount(en) <= CELLS
      requires BadWords(content, start, en, data, w, bad)
      ensures bad < 16
      ensures BadWords(content, start, en, data, w + 1, if Spoils(content, start, en, data, w) then WithWord(bad, w) else bad)
    {
      hide On, CountBelow, WordCount, Burn, Spoils;
    }

    /** One word of a packet: two cells written and read back. */
    method WriteWord(start: nat, en: nat, w: nat, data: seq<Byte>, addr: nat, bad: nat, ghost content: seq<Byte>)
      returns (next: nat, bad': nat)
      requires Shape() && |content| == CELLS && w < 4 && |data| == 8 && start + 2 * WordCount(en) <= CELLS
      requires addr == start + 2 * CountBelow(en, w)
      requires Burnt(content, start, en, data, w) && BadWords(content, start, en, data, w, bad)
      modifies cells
      ensures next == start + 2 * CountBelow(en, w + 1)
      ensures Burnt(content, start, en, data, w + 1) && BadWords(content, start, en, data, w + 1, bad')
    {
      hide On, CountBelow, WordCount, Burn, BadWords, WithWord;
      CountNext(en, w);
      CountOrder(en, w);
      BadWordsNext(content, start, en, data, w, bad);
      next, bad' := addr, bad;
      if On(en, w) {
        var ok := BurnPair(addr, data[2 * w], data[2 * w + 1]);
        next := addr + 2;
        if !ok {
          bad' := WithWord(bad, w);
        }
      }
    }

    /** Two cells written and read back. */
    method BurnPair(addr: nat, lo: Byte, hi: Byte) returns (same: bool)
      requires Shape() && addr + 2 <= CELLS
      modifies cells
      ensures cells[addr] == Burn(old(cells[addr]), lo) && cells[addr + 1] == Burn(old(cells[addr + 1]), hi)
      ensures forall a :: 0 <= a < CELLS && a != addr && a != addr + 1 ==> cells[a] == old(cells[a])
      ensures same <==> cells[addr] == lo && cells[addr + 1] == hi
    {
      hide Burn;
      var ok := OneByteWrite(addr, lo);
      ok := OneByteWrite(addr + 1, hi);
      var ok0, lo' := OneByteRead(addr);
      var ok1, hi' := OneByteRead(addr + 1);
      same := !(lo != lo' || hi != hi');
    }

    /** `enable_efuse_data_write`, on any cells: each word is burnt in, and those that do not read back as
        written are reported. */
    method EnableDataWrite(start: nat, en: nat, data: seq<Byte>) returns (bad: nat)
      requires Shape() && |data| == 8 && start + 2 * WordCount(en) <= CELLS
      modifies cells
      ensures Burnt(old(cells[..]), start, en, data, 4) && BadWords(old(cells[..]), start, en, data, 4, bad)
    {
      hide On, CountBelow, WordCount, Burn;
      ghost var content := cells[..];
      NoWordsIff(NO_WORDS);
      var next;
      next, bad := WriteWord(start, en, 0, data, start, NO_WORDS, content);
      next, bad := WriteWord(start, en, 1, data, next, bad, content);
      next, bad := WriteWord(start, en, 2, data, next, bad, content);
      next, bad := WriteWord(start, en, 3, data, next, bad, content);
    }

    /** Erased cells take every word. */
    lemma {:induction false} ErasedTakesAll(content: seq<Byte>, start: nat, en: nat, data: seq<Byte>, bad: nat)
      requires Shape() && |content| == CELLS && |data| == 8 && start + 2 * WordCount(en) <= CELLS
      requires Burnt(content, start, en, data, 4) && BadWords(content, start, en, data, 4, bad)
      requires forall a :: start <= a < start + 2 * WordCount(en) ==> content[a] == ERASED
      ensures bad == NO_WORDS && Programmed(start, en, 4, data)
      ensures forall a :: 0 <= a < CELLS && !(start <= a < start + 2 * WordCount(en)) ==> cells[a] == content[a]
    {
      hide On, CountBelow, WordCount, Burn;
      forall w | 0 <= w < 4 && On(en, w)
        ensures !Spoils(content, start, en, data, w)
        ensures cells[start + 2 * CountBelow(en, w)] == data[2 * w] && cells[start + 2 * CountBelow(en, w) + 1] == data[2 * w + 1]
      {
        CountNext(en, w);
        BurnErased(data[2 * w]);
        BurnErased(data[2 * w + 1]);
      }
      NoWordsIff(bad);
    }

    method PayloadEmpty(addr: nat, en: nat) returns (empty: bool)
      requires Shape() && addr + 1 + 2 * WordCount(en) <= CELLS
      ensures empty <==> Erased(addr + 1, addr + 1 + 2 * WordCount(en))
    {
      hide WordCount;
      empty := true;
      for i := 0 to 2 * WordCount(en)
        invariant empty <==> Erased(addr + 1, addr + 1 + i)
      {
        var ok, data := OneByteRead(addr + 1 + i);
        if ok && data != ERASED {
          empty := false;
        }
      }
    }

    /** Programs the words of packet k, which is still empty. */
    method FillPacket(addr: nat, en: nat, t: seq<Byte>, ghost k: nat)
      requires Shape() && Represents(cells[..], log) && k < |log| && addr == Offset(log, k) && en == log[k].en
      requires |t| == 8 && addr + 1 + 2 * WordCount(en) <= CELLS && Erased(addr + 1, addr + 1 + 2 * WordCount(en))
      modifies cells, `log
      ensures log == old(log)[k := old(log)[k].(data := t)]
      ensures Represents(cells[..], log) && ProgrammedKept()
    {
      hide On, CountBelow, WordCount, Offset, Burn;
      ghost var content := cells[..];
      HeaderAt(content, log, k);
      var badEn := EnableDataWrite(addr + 1, en, t);
      ErasedTakesAll(content, addr + 1, en, t, badEn);
      FillRepresents(content, cells[..], log, k, t);
      log := log[k := log[k].(data := t)];
    }

    /** `efuse_write_data_case1`: the cell at addr holds a header. */
    method WriteDataCase1(addr: nat, header: Byte, offset: nat, targetEn: nat, t: seq<Byte>, ghost k: nat)
      returns (addr': nat, targetEn': nat, continual: bool)
      requires Shape() && Represents(cells[..], log) && k < |log| && addr == Offset(log, k) && header == log[k].Header()
      requires offset < SECTIONS && targetEn < 16 && |t| == 8 && forall j :: 0 <= j < 8 && !On(targetEn, j / 2) ==> t[j] == ERASED
      modifies cells, `log, `repeatTimes
      ensures Represents(cells[..], log) && ProgrammedKept()
      ensures !Reusable(old(log)[k], offset, targetEn) ==>
                && log == old(log) && cells[..] == old(cells[..]) && repeatTimes == old(repeatTimes)
                && continual && targetEn' == targetEn && addr' == Offset(log, k + 1)
      ensures Reusable(old(log)[k], offset, targetEn) ==>
                var rest := Without(targetEn, old(log)[k].en);
                && log == old(log)[k := old(log)[k].(data := t)] && repeatTimes == old(repeatTimes) + 1
                && continual == (rest != NO_WORDS && repeatTimes <= 3)
                && (continual ==> targetEn' == rest && addr' == Size(log))
    {
      hide On, CountBelow, WordCount, Offset, Burn;
      ghost var content := cells[..];
      ghost var p := log[k];
      HeaderAt(content, log, k);
      HeaderFields(p);
      var tmpOffset := header / 16;
      var tmpEn := header % 16;
      var tmpWordCnts := WordCount(tmpEn);
      addr', targetEn', continual := addr, targetEn, true;
      if tmpOffset != offset {
        addr' := addr + tmpWordCnts * 2 + 1;
        return;
      }
      var dataEmpty := PayloadEmpty(addr, tmpEn);
      EmptyIffErased(content, addr, p);
      if !dataEmpty {
        addr' := addr + tmpWordCnts * 2 + 1;
        return;
      }
      var matchEn := Mask(On(targetEn, 0) && On(tmpEn, 0), On(targetEn, 1) && On(tmpEn, 1),
                          On(targetEn, 2) && On(tmpEn, 2), On(targetEn, 3) && On(tmpEn, 3));
      SharesIffMask(targetEn, tmpEn);
      if matchEn == NO_WORDS {
        addr' := addr + 2 * tmpWordCnts + 1;
        return;
      }
      FillPacket(addr, tmpEn, t, k);
      var restEn := Mask(On(targetEn, 0) != On(matchEn, 0), On(targetEn, 1) != On(matchEn, 1),
                         On(targetEn, 2) != On(matchEn, 2), On(targetEn, 3) != On(matchEn, 3));
      assert restEn == Without(targetEn, tmpEn);
      if restEn != NO_WORDS {
        addr' := CurrentSize();
        targetEn' := restEn;
      } else {
        continual := false;
      }
      repeatTimes := repeatTimes + 1;
      if repeatTimes > REPEAT_THRESHOLD {
        continual := false;
      }
    }

    /** The header of a packet has been programmed behind the log, its words have not. */
    ghost predicate HeaderPending(addr: nat, p: Packet)
      requires Shape()
      reads cells, `log
    {
      && p.Valid() && addr == Size(log) && addr + p.Length() <= CELLS
      && Represents(cells[..][addr := ERASED], log) && cells[addr] == p.Header()
    }

    /** `efuse_write_data_case2`: the cell at addr is erased; the header is written and read back. */
    method WriteDataCase2(addr: nat, offset: nat, targetEn: nat, t: seq<Byte>) returns (state: WriteState)
      requires Shape() && Represents(cells[..], log) && addr == Size(log) && Packet(offset, targetEn, t).Valid()
      requires addr + 1 + 2 * WordCount(targetEn) <= CELLS
      modifies cells
      ensures state == DataState && HeaderPending(addr, Packet(offset, targetEn, t)) && ProgrammedKept()
    {
      hide On, CountBelow, WordCount, Offset, Burn;
      ghost var content := cells[..];
      HeaderFields(Packet(offset, targetEn, t));
      var pgHeader := offset * 16 + targetEn;
      BurnErased(pgHeader);
      var ok := OneByteWrite(addr, pgHeader);
      assert cells[..][addr := ERASED] == content;
      var ok', tmpHeader := OneByteRead(addr);
      if tmpHeader != pgHeader {
        assert false;
      }
      state := DataState;
    }

    /** The data state: the words are programmed and the packet is complete. */
    method WriteData(addr: nat, targetEn: nat, t: seq<Byte>, ghost offset: nat) returns (badEn: nat)
      requires Shape() && HeaderPending(addr, Packet(offset, targetEn, t))
      modifies cells, `log
      ensures badEn == NO_WORDS && Represents(cells[..], log) && log == old(log) + [Packet(offset, targetEn, t)]
      ensures ProgrammedKept()
    {
      hide On, CountBelow, WordCount, Offset, Burn;
      ghost var content := cells[..][addr := ERASED];
      ghost var p := Packet(offset, targetEn, t);
      assert forall a :: addr < a < CELLS ==> cells[a] == content[a];
      ghost var before := cells[..];
      badEn := EnableDataWrite(addr + 1, targetEn, t);
      ErasedTakesAll(before, addr + 1, targetEn, t, badEn);
      AppendRepresents(content, cells[..], log, p);
      log := log + [p];
    }

    /** No packet before k of the log at entry can be reused. */
    ghost predicate Scanning(k: nat, addr: nat, start: Written, offset: nat, wordEn: nat, targetEn: nat)
      requires Shape() && Represents(cells[..], log)
      reads cells, `log, `repeatTimes
    {
      && k < |log| && addr == Offset(log, k) && Written(log, repeatTimes) == start && targetEn == wordEn
      && FindReusable(log, k, offset, wordEn) == FindReusable(log, 0, offset, wordEn)
    }

    /** Only a packet with the words still to be written is missing at the end of the log. */
    ghost predicate Appending(addr: nat, p: Packet, goal: Written)
      reads `log, `repeatTimes
    {
      p.Valid() && addr == Size(log) && goal == Written(log + [p], repeatTimes)
    }

    /** The header state on packet k: it is passed over, or filled and left behind. */
    method ScanPacket(addr: nat, header: Byte, offset: nat, wordEn: nat, data: seq<Byte>, ghost k: nat)
      returns (addr': nat, targetEn: nat, continual: bool, ghost k': nat)
      requires Shape() && Represents(cells[..], log) && Size(log) < CELLS - OOB_PROTECT
      requires offset < SECTIONS && wordEn < NO_WORDS && |data| == 8
      requires k < |log| && header == log[k].Header() && Scanning(k, addr, Written(log, repeatTimes), offset, wordEn, wordEn)
      modifies cells, `log, `repeatTimes
      ensures Represents(cells[..], log) && ProgrammedKept()
      ensures k < k' <= |log| == |old(log)|
      ensures var goal := PgWrite(old(log), offset, wordEn, data, old(repeatTimes));
              var p := Packet(offset, targetEn, Target(wordEn, data));
              if continual then
                && addr' == Offset(log, k') <= Size(log) < CELLS - OOB_PROTECT
                && (k' < |log| ==> Scanning(k', addr', Written(old(log), old(repeatTimes)), offset, wordEn, targetEn))
                && (k' == |log| ==> Appending(addr', p, goal))
              else
                Written(log, repeatTimes) == goal
    {
      hide On, WordCount, Offset, PgWrite, FindReusable, HoldsPacket;
      ghost var log0, repeats0 := log, repeatTimes;
      var t := Target(wordEn, data);
      FindReusableStep(log, k, offset, wordEn);
      FindReusableStep(log, k + 1, offset, wordEn);
      addr', targetEn, continual := WriteDataCase1(addr, header, offset, wordEn, t, k);
      if Reusable(log0[k], offset, wordEn) {
        PgWriteFills(log0, k, offset, wordEn, data, repeats0);
        SizeOfFill(log0, k, t);
        k' := |log|;
      } else {
        k' := k + 1;
        if k' == |log| {
          PgWriteAppends(log, offset, wordEn, data, repeats0);
        }
      }
      OffsetMonotone(log, k', |log|);
    }

    /** `efuse_pg_packet_write` */
    method PgPacketWrite(offset: nat, wordEn: nat, data: seq<Byte>) returns (result: bool)
      requires Shape() && Represents(cells[..], log) && offset < SECTIONS && wordEn < NO_WORDS && |data| == 8
      modifies cells, `log, `repeatTimes
      ensures Represents(cells[..], log) && ProgrammedKept()
      ensures result == (old(Size(log)) < 497)
      ensures result ==> Written(log, repeatTimes) == PgWrite(old(log), offset, wordEn, data, old(repeatTimes))
      ensures !result ==> log == old(log) && cells[..] == old(cells[..]) && repeatTimes == old(repeatTimes)
    {
      hide On, WordCount, Offset, PgWrite, FindReusable, HoldsPacket;
      var size := CurrentSize();
      if size >= CELLS - OOB_PROTECT {
        return false;
      }
      ghost var start := Written(log, repeatTimes);
      ghost var goal := PgWrite(log, offset, wordEn, data, repeatTimes);
      ghost var k := 0;
      var t := Target(wordEn, data);
      var targetEn := wordEn;
      var writeState := HeaderState;
      var continual := true;
      var addr := 0;
      if log == [] {
        FindReusableStep(log, 0, offset, wordEn);
        PgWriteAppends(log, offset, wordEn, data, repeatTimes);
      }
      while continual && addr < CELLS - OOB_PROTECT
        invariant ProgrammedKept()
        invariant continual ==> k <= |log| && addr == Offset(log, k) <= Size(log) < CELLS - OOB_PROTECT
        invariant continual && writeState == HeaderState ==> Represents(cells[..], log)
        invariant continual && writeState == HeaderState && k < |log| ==> Scanning(k, addr, start, offset, wordEn, targetEn)
        invariant continual && k == |log| ==> Appending(addr, Packet(offset, targetEn, t), goal)
        invariant continual && writeState == DataState ==> k == |log| && HeaderPending(addr, Packet(offset, targetEn, t))
        invariant !continual ==> Represents(cells[..], log) && Written(log, repeatTimes) == goal
        decreases continual, |log| - k, writeState == HeaderState
      {
        if writeState == HeaderState {
          HeaderAt(cells[..], log, k);
          if k < |log| {
            HeaderFields(log[k]);
          }
          var ok, header := OneByteRead(addr);
          if ok && header != ERASED {
            addr, targetEn, continual, k := ScanPacket(addr, header, offset, wordEn, data, k);
          } else {
            writeState := WriteDataCase2(addr, offset, targetEn, t);
          }
        } else {
          var badEn := WriteData(addr, targetEn, t, offset);
          if badEn != NO_WORDS {
            assert false;
          }
          continual := false;
        }
      }
      result := true;
    }

    // -------------------------------------------------------------------------------------------
    // Updating from the shadow maps

    /** The device's log is well formed, the init map is its image and the used-byte count its size. */
    ghost predicate Synced()
      reads `log, `usedBytes, cells, initMap
    {
      && Shape()
      && Represents(cells[..], log)
      && Decodes(initMap[..], log)
      && usedBytes == Size(log)
    }

    /** `efuse_read_all_map`, into the init map. */
    method ReadAllMap()
      requires Shape() && Represents(cells[..], log)
      modifies initMap, `usedBytes
      ensures Synced()
    {
      hide ImageAt, Represents, Offset, Holds, Total, ExtendedBefore;
      ghost var content := cells[..];
      assert Wellformed(log) by {
        assert Represents(content, log);
        RepresentedIsWellformed(content, log);
      }
      PlainHolds(content, log);
      ReadEfuse(0, 8 * SECTIONS, initMap, Plain(log));
      assert cells[..] == content;
      assert forall a :: 0 <= a < 8 * SECTIONS ==> initMap[a] == ImageAt(log, 0 + a);
    }

    /** How many words of a section differ. */
    method CountChanges(section: nat) returns (changed: nat)
      requires Shape() && section < SECTIONS
      ensures changed == WordCount(ChangeMask(initMap[..], modifyMap[..], section))
    {
      hide On, Mask;
      ghost var init: Image, wanted: Image := initMap[..], modifyMap[..];
      ghost var en := ChangeMask(init, wanted, section);
      var base := section * 8;
      changed := 0;
      for w := 0 to 4
        invariant changed == CountBelow(en, w)
      {
        CountNext(en, w);
        assert Differs(init, wanted, section, w) <==>
          initMap[base + 2 * w] != modifyMap[base + 2 * w] || initMap[base + 2 * w + 1] != modifyMap[base + 2 * w + 1];
        if initMap[base + 2 * w] != modifyMap[base + 2 * w] || initMap[base + 2 * w + 1] != modifyMap[base + 2 * w + 1] {
          changed := changed + 1;
        }
      }
    }

    /** `efuse_shadow_update_chk` */
    method ShadowUpdateChk() returns (result: bool)
      requires Shape()
      ensures result == (NeedBelow(initMap[..], modifyMap[..], SECTIONS) + usedBytes < 497)
    {
      hide On, Mask, ChangeMask, WordCount;
      var wordsNeed, hdrNum := 0, 0;
      ghost var init: Image, wanted: Image := initMap[..], modifyMap[..];
      for section := 0 to SECTIONS
        invariant hdrNum + 2 * wordsNeed == NeedBelow(init, wanted, section)
      {
        var changed := CountChanges(section);
        NoneIfNoChanges(ChangeMask(init, wanted, section));
        wordsNeed := wordsNeed + changed;
        if changed > 0 {
          hdrNum := hdrNum + 1;
        }
      }
      var totalBytes := hdrNum + wordsNeed * 2;
      result := !(totalBytes + usedBytes >= CELLS - OOB_PROTECT);
    }

    /** The words of a section that differ; the init map takes over the new bytes. */
    method TakeChanges(offset: nat) returns (wordEn: nat)
      requires Shape() && offset < SECTIONS
      modifies initMap
      ensures wordEn == ChangeMask(old(initMap[..]), modifyMap[..], offset)
      ensures forall a :: 0 <= a < 8 * SECTIONS && !(8 * offset <= a < 8 * offset + 8) ==> initMap[a] == old(initMap[a])
    {
      hide On, Mask;
      ghost var init: Image, wanted: Image := initMap[..], modifyMap[..];
      var base := offset * 8;
      wordEn := NO_WORDS;
      NoWordsIff(NO_WORDS);
      for i := 0 to 8
        invariant wordEn < 16
        invariant forall a :: 0 <= a < 8 * SECTIONS && !(base <= a < base + i) ==> initMap[a] == init[a]
        invariant forall w :: 0 <= w < 4 ==> (On(wordEn, w) <==>
                    (2 * w < i && init[base + 2 * w] != wanted[base + 2 * w]) ||
                    (2 * w + 1 < i && init[base + 2 * w + 1] != wanted[base + 2 * w + 1]))
      {
        if initMap[base + i] != modifyMap[base + i] {
          wordEn := WithWord(wordEn, i / 2);
          initMap[base + i] := modifyMap[base + i];
        }
      }
      assert forall w :: 0 <= w < 4 ==> (On(wordEn, w) <==> Differs(init, wanted, offset, w));
      MasksEqual(wordEn, ChangeMask(init, wanted, offset));
    }

    /** `efuse_shadow_update` */
    method ShadowUpdate() returns (updated: bool)
      requires Synced()
      modifies cells, initMap, modifyMap, `usedBytes, `log, `repeatTimes
      ensures Synced() && modifyMap[..] == initMap[..] && ProgrammedKept()
      ensures updated == (NeedBelow(old(initMap[..]), old(modifyMap[..]), SECTIONS) + old(usedBytes) < 497)
      ensures !updated ==> cells[..] == old(cells[..]) && log == old(log) && repeatTimes == old(repeatTimes)
      ensures updated ==>
                Written(log, repeatTimes) == UpdateTo(old(log), old(repeatTimes), old(initMap[..]), old(modifyMap[..]), SECTIONS)
      ensures updated ==>
                (modifyMap[..] == old(modifyMap[..]) <==> Sound(old(log), old(repeatTimes), old(initMap[..]), old(modifyMap[..])))
    {
      hide On, Represents, UpdateTo, NeedBelow, ImageAt, Offset, Sound, PgWrite, ChangeMask;
      ghost var init: Image, wanted: Image := initMap[..], modifyMap[..];
      ghost var log0, repeats0 := log, repeatTimes;
      RepresentedIsWellformed(cells[..], log);
      UpdateStart(log0, repeats0, init, wanted);
      updated := ShadowUpdateChk();
      if updated {
        for offset := 0 to SECTIONS
          invariant Represents(cells[..], log) && ProgrammedKept() && modifyMap[..] == wanted
          invariant Written(log, repeatTimes) == UpdateTo(log0, repeats0, init, wanted, offset)
          invariant forall a :: 8 * offset <= a < 8 * SECTIONS ==> initMap[a] == init[a]
        {
          UpdateStep(offset, log0, repeats0, init, wanted);
        }
        UpdateExact(log0, repeats0, init, wanted);
      }
      ReadAllMap();
      CopyOut(initMap, 0, 8 * SECTIONS, modifyMap);
      assert modifyMap[..] == initMap[..];
    }

    method UpdateStep(offset: nat, ghost log0: Log, ghost repeats0: nat, ghost init: Image, ghost wanted: Image)
      requires Shape() && offset < SECTIONS && Represents(cells[..], log) && Wellformed(log0) && modifyMap[..] == wanted
      requires Size(log0) + NeedBelow(init, wanted, SECTIONS) < CELLS - OOB_PROTECT
      requires Written(log, repeatTimes) == UpdateTo(log0, repeats0, init, wanted, offset)
      requires forall a :: 8 * offset <= a < 8 * SECTIONS ==> initMap[a] == init[a]
      modifies cells, initMap, `log, `repeatTimes
      ensures Represents(cells[..], log) && ProgrammedKept()
      ensures Written(log, repeatTimes) == UpdateTo(log0, repeats0, init, wanted, offset + 1)
      ensures forall a :: 8 * offset + 8 <= a < 8 * SECTIONS ==> initMap[a] == init[a]
    {
      hide On, Represents, NeedBelow, Offset, PgWrite, ChangeMask;
      UpdateFits(log0, repeats0, init, wanted, offset);
      NeedMonotone(init, wanted, offset, SECTIONS);
      MaskOfSection(initMap[..], init, wanted, offset);
      var wordEn := TakeChanges(offset);
      if wordEn != NO_WORDS {
        var written := PgPacketWrite(offset, wordEn, modifyMap[8 * offset..8 * offset + 8]);
        if !written {
          assert false;
        }
      }
    }
  }

  function WithWord(en: nat, w: nat): (r: nat)
    requires w < 4
    ensures r < 16 && forall v :: 0 <= v < 4 ==> (On(r, v) <==> v == w || On(en, v))
  {
    Mask(On(en, 0) || w == 0, On(en, 1) || w == 1, On(en, 2) || w == 2, On(en, 3) || w == 3)
  }

  lemma {:induction false} NoneIfNoChanges(en: nat)
    requires en < 16
    ensures WordCount(en) == 0 <==> en == NO_WORDS
  {
    NoWordsIff(en);
    assert WordCount(en) == 0 <==> !On(en, 0) && !On(en, 1) && !On(en, 2) && !On(en, 3);
  }

  lemma {:induction false} NoWordsIff(en: nat)
    ensures en < 16 ==> (en == NO_WORDS <==> forall w :: 0 <= w < 4 ==> !On(en, w))
  {
    if en < 16 {
      MaskOf(en);
      MaskOf(NO_WORDS);
    }
  }

  lemma {:induction false} MaskOfSection(a: Image, b: Image, wanted: Image, s: nat)
    requires s < SECTIONS && forall i :: 8 * s <= i < 8 * SECTIONS ==> a[i] == b[i]
    ensures ChangeMask(a, wanted, s) == ChangeMask(b, wanted, s)
  {
  }

  lemma {:induction false} RepresentedIsWellformed(cells: seq<Byte>, log: Log)
    requires Represents(cells, log)
    ensures Wellformed(log)
  {
  }

  lemma {:induction false} WordBytes(lo: Byte, hi: Byte)
    ensures Word(lo, hi) % 256 == lo && Word(lo, hi) / 256 % 256 == hi
  {
  }

  lemma {:induction false} OnShifted(en: nat, w: nat)
    requires w < 4
    ensures On(en, w) <==> Shifted(en, w) % 2 == 0
    ensures w < 3 ==> Shifted(en, w + 1) == Shifted(en, w) / 2
  {
  }

  lemma {:induction false} NoneLeft(en: nat, i: nat)
    requires i <= 4 && CountBelow(en, i) == WordCount(en)
    ensures forall w :: i <= w < 4 ==> !On(en, w)
  {
  }

  /** Words lie in the packet in order. */
  lemma {:induction false} CountOrder(en: nat, w: nat)
    requires w < 4
    ensures forall v :: 0 <= v < w && On(en, v) ==> CountBelow(en, v) + 1 <= CountBelow(en, w)
  {
  }

  lemma {:induction false} SharesIffMask(a: nat, b: nat)
    ensures Shares(a, b) <==> Mask(On(a, 0) && On(b, 0), On(a, 1) && On(b, 1), On(a, 2) && On(b, 2), On(a, 3) && On(b, 3)) != NO_WORDS
  {
  }

  /** Each payload cell belongs to a word that is present. */
  lemma {:induction false} PayloadCell(en: nat, x: nat)
    requires x < 2 * WordCount(en)
    ensures exists w :: 0 <= w < 4 && On(en, w) && (x == 2 * CountBelow(en, w) || x == 2 * CountBelow(en, w) + 1)
  {
    hide On;
    var n0, n1 := Bit(On(en, 0)), Bit(On(en, 0)) + Bit(On(en, 1));
    var w := if On(en, 0) && x / 2 == 0 then 0 else if On(en, 1) && x / 2 == n0 then 1 else if On(en, 2) && x / 2 == n1 then 2 else 3;
    assert On(en, w) && CountBelow(en, w) == x / 2;
  }

  lemma {:induction false} EmptyIffErased(cells: seq<Byte>, a: nat, p: Packet)
    requires p.Valid() && HoldsPacket(cells, a, p)
    ensures p.Empty() <==> forall i :: a + 1 <= i < a + 1 + 2 * WordCount(p.en) ==> cells[i] == ERASED
  {
    hide On, CountBelow, WordCount;
    if p.Empty() {
      forall i | a + 1 <= i < a + 1 + 2 * WordCount(p.en)
        ensures cells[i] == ERASED
      {
        PayloadCell(p.en, i - a - 1);
        var w :| 0 <= w < 4 && On(p.en, w) && (i - a - 1 == 2 * CountBelow(p.en, w) || i - a - 1 == 2 * CountBelow(p.en, w) + 1);
        assert 2 * w / 2 == w && (2 * w + 1) / 2 == w;
        assert p.data[2 * w] == ERASED && p.data[2 * w + 1] == ERASED;
      }
    } else {
      var j :| 0 <= j < 8 && On(p.en, j / 2) && p.data[j] != ERASED;
      var w := j / 2;
      assert cells[a + 1 + 2 * CountBelow(p.en, w)] == p.data[2 * w];
      assert j == 2 * w || j == 2 * w + 1;
    }
  }
}
