/** One message integrity code computed to the end, in literal bytes. */
module MichaelVectors {
  import opened Ieee80211
  import opened Michael

  /** A QoS data frame on its way to the access point, priority 5: destination is the third address, source
      the second. */
  function ToAp(): (h: Header)
    ensures Destination(h) == [0x01, 0x23, 0x45, 0x67, 0x89, 0xab]
    ensures Source(h) == [0x10, 0x32, 0x54, 0x76, 0x98, 0xba]
    ensures QosTid(h) == 5
  {
    var h := [0x88, 0x01, 0x00, 0x00, 0xff, 0xff, 0xff, 0xff, 0xff, 0xff, 0x10, 0x32, 0x54, 0x76, 0x98, 0xba,
              0x01, 0x23, 0x45, 0x67, 0x89, 0xab, 0x00, 0x00, 0xa5, 0x00];
    assert h[10..16] == [0x10, 0x32, 0x54, 0x76, 0x98, 0xba];
    assert h[16..22] == [0x01, 0x23, 0x45, 0x67, 0x89, 0xab];
    h
  }

  const KEY: Bytes := [0xd5, 0x5e, 0x10, 0x05, 0x10, 0x12, 0x89, 0x86]
  const DATA: Bytes := [0x4d, 0x69, 0x63, 0x68, 0x61]

  lemma {:induction false} HeaderBlocks()
    ensures BlockOf(Ctx(0x05105ed5, 0x86891210), 0x67452301) == Ctx(0x4d69ebad, 0x09a10b28)
    ensures BlockOf(Ctx(0x4d69ebad, 0x09a10b28), 0x3210ab89) == Ctx(0x44f29b88, 0x07b5551b)
    ensures BlockOf(Ctx(0x44f29b88, 0x07b5551b), 0xba987654) == Ctx(0xb1c13d1f, 0x91b8c6d7)
    ensures BlockOf(Ctx(0xb1c13d1f, 0x91b8c6d7), 0x00000005) == Ctx(0x43cc485a, 0x497ef7af)
  {
  }

  lemma {:induction false} DataBlocks()
    ensures BlockOf(Ctx(0x43cc485a, 0x497ef7af), 0x6863694d) == Ctx(0xb4b74508, 0xd9fae0e3)
    ensures BlockOf(Ctx(0xb4b74508, 0xd9fae0e3), 0x00005a61) == Ctx(0xb3430e0f, 0xf484a5fc)
    ensures BlockOf(Ctx(0xb3430e0f, 0xf484a5fc), 0x00000000) == Ctx(0x6525221e, 0xda4d5add)
  {
  }

  lemma {:induction false} LiteralWords()
    ensures LeWord(0x01, 0x23, 0x45, 0x67) == 0x67452301 && LeWord(0x89, 0xab, 0x10, 0x32) == 0x3210ab89
    ensures LeWord(0x54, 0x76, 0x98, 0xba) == 0xba987654 && LeWord(0x05, 0, 0, 0) == 5
    ensures LeWord(0x4d, 0x69, 0x63, 0x68) == 0x6863694d && LeWord(0x61, 0x5a, 0, 0) == 0x5a61 && LeWord(0, 0, 0, 0) == 0
    ensures LeWord(0xd5, 0x5e, 0x10, 0x05) == 0x05105ed5 && LeWord(0x10, 0x12, 0x89, 0x86) == 0x86891210
    ensures LeBytes(0x6525221e) == [0x1e, 0x22, 0x25, 0x65] && LeBytes(0xda4d5add) == [0xdd, 0x5a, 0x4d, 0xda]
  {
  }

  const HEADER: Bytes := [0x01, 0x23, 0x45, 0x67, 0x89, 0xab, 0x10, 0x32, 0x54, 0x76, 0x98, 0xba, 5, 0, 0, 0]
  const PADDED: Bytes := [0x4d, 0x69, 0x63, 0x68, 0x61, 0x5a, 0, 0, 0, 0, 0, 0]

  lemma {:induction false} HeaderWords()
    ensures LeWords(HEADER) == [0x67452301, 0x3210ab89, 0xba987654, 5]
  {
    hide LeWord;
    LiteralWords();
    var s := HEADER;
    assert LeWords(s[..0]) == [];
    NextWord(s, 0);
    NextWord(s, 4);
    NextWord(s, 8);
    NextWord(s, 12);
    assert s[..16] == s;
  }

  lemma {:induction false} PaddedWords()
    ensures LeWords(PADDED) == [0x6863694d, 0x5a61, 0]
  {
    hide LeWord;
    LiteralWords();
    var s := PADDED;
    assert LeWords(s[..0]) == [];
    NextWord(s, 0);
    NextWord(s, 4);
    NextWord(s, 8);
    assert s[..12] == s;
  }

  /** The words of the example, taken off the padded bytes. */
  lemma {:induction false} MessageBytes()
    ensures MessageWords(Destination(ToAp()), Source(ToAp()), 5, DATA)
         == [0x67452301, 0x3210ab89, 0xba987654, 5, 0x6863694d, 0x5a61, 0]
  {
    Laid();
    MessageAsSpecified(Destination(ToAp()), Source(ToAp()), 5, DATA);
    hide *;
    HeaderWords();
    PaddedWords();
    LeWordsAppend(HEADER, PADDED);
  }

  lemma {:induction false} Laid()
    ensures Destination(ToAp()) + Source(ToAp()) + [5, 0, 0, 0] == HEADER && Padded(DATA) == PADDED
  {
    hide Destination, Source, IsHeader;
  }

  /** The whole code. */
  lemma {:induction false} CodeVector()
    ensures MicOf(KEY, ToAp(), DATA) == [0x1e, 0x22, 0x25, 0x65, 0xdd, 0x5a, 0x4d, 0xda]
  {
    hide BlockOf, Fold, LeWord, LeBytes, MessageWords, Destination, Source, QosTid, IsHeader;
    LiteralWords();
    HeaderBlocks();
    DataBlocks();
    MessageBytes();
    var c0 := KeyCtx(KEY);
    var ws: seq<bv32> := [0x67452301, 0x3210ab89, 0xba987654, 5, 0x6863694d, 0x5a61, 0];
    assert c0 == Ctx(0x05105ed5, 0x86891210);
    FoldEmpty(c0);
    FoldTo(c0, ws, 0);
    FoldTo(c0, ws, 1);
    FoldTo(c0, ws, 2);
    FoldTo(c0, ws, 3);
    FoldTo(c0, ws, 4);
    FoldTo(c0, ws, 5);
    FoldTo(c0, ws, 6);
    assert ws[..0] == [] && ws[..7] == ws;
  }

  lemma {:induction false} FoldTo(c: Ctx, ws: seq<bv32>, n: nat)
    requires n < |ws|
    ensures Fold(c, ws[..n + 1]) == BlockOf(Fold(c, ws[..n]), ws[n])
  {
    hide BlockOf;
    assert ws[..n + 1] == ws[..n] + [ws[n]];
    FoldStep(c, ws[..n], ws[n]);
  }
}
