/** What writing packets and updating from the shadow maps do to the log, and exactly when an update
    leaves the device decoding to the requested map. */
module EfuseUpdate {
  import opened EfuseLog
  import opened Words

  /** `EFUSE_REPEAT_THRESHOLD_` */
  const REPEAT_THRESHOLD: nat := 3

  predicate Shares(a: nat, b: nat) {
    (On(a, 0) && On(b, 0)) || (On(a, 1) && On(b, 1)) || (On(a, 2) && On(b, 2)) || (On(a, 3) && On(b, 3))
  }

  /** Words of en that are not words of other. */
  function Without(en: nat, other: nat): (r: nat)
    ensures r < 16 && forall w :: 0 <= w < 4 ==> (On(r, w) <==> On(en, w) && !On(other, w))
  {
    Mask(On(en, 0) && !On(other, 0), On(en, 1) && !On(other, 1), On(en, 2) && !On(other, 2), On(en, 3) && !On(other, 3))
  }

  /** A packet of the section that is still empty and has room for one of the words. */
  predicate Reusable(p: Packet, s: nat, en: nat)
    requires |p.data| == 8
  {
    p.section == s && p.Empty() && Shares(p.en, en)
  }

  /** The first reusable packet from index k on, or -1. */
  function FindReusable(log: Log, k: nat, s: nat, en: nat): int
    requires k <= |log| && forall i :: 0 <= i < |log| ==> |log[i].data| == 8
    decreases |log| - k
  {
    if k == |log| then -1
    else if Reusable(log[k], s, en) then k
    else FindReusable(log, k + 1, s, en)
  }

  datatype Written = Written(log: Log, repeats: nat)

  /** `efuse_pg_packet_write` on a device with room: fill the first reusable packet, append what is left. */
  function PgWrite(log: Log, s: nat, en: nat, data: seq<Byte>, repeats: nat): Written
    requires |data| == 8 && forall i :: 0 <= i < |log| ==> |log[i].data| == 8
  {
    var t := Target(en, data);
    var k := FindReusable(log, 0, s, en);
    if k < 0 || |log| <= k then Written(log + [Packet(s, en, t)], repeats)
    else
      var filled := log[k := log[k].(data := t)];
      var rest := Without(en, log[k].en);
      Written(if rest == NO_WORDS || repeats + 1 > REPEAT_THRESHOLD then filled else filled + [Packet(s, rest, t)], repeats + 1)
  }

  lemma {:induction false} FindReusableFinds(log: Log, k: nat, s: nat, en: nat)
    requires Wellformed(log) && k <= |log|
    ensures var r := FindReusable(log, k, s, en);
            r == -1 || (k <= r < |log| && Reusable(log[r], s, en))
    decreases |log| - k
  {
    if k < |log| && !Reusable(log[k], s, en) {
      FindReusableFinds(log, k + 1, s, en);
    }
  }

  lemma {:induction false} PgWriteAppends(log: Log, s: nat, en: nat, data: seq<Byte>, repeats: nat)
    requires |data| == 8 && Wellformed(log) && FindReusable(log, 0, s, en) == -1
    ensures PgWrite(log, s, en, data, repeats) == Written(log + [Packet(s, en, Target(en, data))], repeats)
  {
  }

  lemma {:induction false} PgWriteFills(log: Log, k: nat, s: nat, en: nat, data: seq<Byte>, repeats: nat)
    requires |data| == 8 && Wellformed(log) && k < |log| && FindReusable(log, 0, s, en) == k
    ensures var filled := log[k := log[k].(data := Target(en, data))];
            var rest := Without(en, log[k].en);
            PgWrite(log, s, en, data, repeats) ==
            Written(if rest == NO_WORDS || repeats + 1 > REPEAT_THRESHOLD then filled else filled + [Packet(s, rest, Target(en, data))], repeats + 1)
  {
  }

  lemma {:induction false} FindReusableStep(log: Log, k: nat, s: nat, en: nat)
    requires Wellformed(log) && k <= |log|
    ensures FindReusable(log, k, s, en) ==
            if k == |log| then -1 else if Reusable(log[k], s, en) then k else FindReusable(log, k + 1, s, en)
  {
  }

  lemma {:induction false} PgWriteWellformed(log: Log, s: nat, en: nat, data: seq<Byte>, repeats: nat)
    requires Wellformed(log) && s < SECTIONS && en < NO_WORDS && |data| == 8
    ensures Wellformed(PgWrite(log, s, en, data, repeats).log)
  {
    hide On;
    FindReusableFinds(log, 0, s, en);
  }

  /** Who writes a word last depends only on the headers. */
  lemma {:induction false} LastWriterAgrees(a: Log, b: Log, n: nat, s: nat, w: nat)
    requires n <= |a| && n <= |b| && forall i :: 0 <= i < n ==> a[i].section == b[i].section && a[i].en == b[i].en
    ensures LastWriter(a, n, s, w) == LastWriter(b, n, s, w)
  {
    if n > 0 {
      LastWriterAgrees(a, b, n - 1, s, w);
    }
  }

  lemma {:induction false} CellAfterAgrees(a: Log, b: Log, n: nat, s: nat, j: nat)
    requires n <= |a| && n <= |b| && j < 8 && Wellformed(a) && Wellformed(b)
    requires forall i :: 0 <= i < n ==> a[i] == b[i]
    ensures CellAfter(a, n, s, j) == CellAfter(b, n, s, j)
  {
    if n > 0 {
      CellAfterAgrees(a, b, n - 1, s, j);
    }
  }

  lemma {:induction false} CellOfAppend(log: Log, p: Packet, s: nat, j: nat)
    requires p.Valid() && Wellformed(log) && j < 8
    ensures Cell(log + [p], s, j) == if Writes(p, s, j / 2) then p.data[j] else Cell(log, s, j)
  {
    CellAfterAgrees(log, log + [p], |log|, s, j);
  }

  /** Filling packet k changes the image only where packet k has the last word. */
  lemma {:induction false} CellOfFill(log: Log, k: nat, t: seq<Byte>, s: nat, j: nat)
    requires Wellformed(log) && k < |log| && |t| == 8 && j < 8
    ensures Wellformed(log[k := log[k].(data := t)])
    ensures Cell(log[k := log[k].(data := t)], s, j) ==
            if LastWriter(log, |log|, s, j / 2) == k then t[j] else Cell(log, s, j)
  {
    hide On;
    var b := log[k := log[k].(data := t)];
    LastWriterDecides(log, |log|, s, j);
    LastWriterDecides(b, |log|, s, j);
    LastWriterAgrees(log, b, |log|, s, j / 2);
  }

  /** Word w of a write to section s really reaches the image. */
  predicate Effective(log: Log, s: nat, en: nat, repeats: nat, w: nat)
    requires forall i :: 0 <= i < |log| ==> |log[i].data| == 8
  {
    var k := FindReusable(log, 0, s, en);
    k < 0 || |log| <= k || (if On(log[k].en, w) then LastWriter(log, |log|, s, w) == k else repeats + 1 <= REPEAT_THRESHOLD)
  }

  /** What one packet write does to every byte of the image. */
  lemma {:induction false} PgWriteEffect(log: Log, s: nat, en: nat, data: seq<Byte>, repeats: nat, s': nat, j: nat)
    requires Wellformed(log) && s < SECTIONS && en < NO_WORDS && |data| == 8 && j < 8
    ensures Wellformed(PgWrite(log, s, en, data, repeats).log)
    ensures Cell(PgWrite(log, s, en, data, repeats).log, s', j) ==
            if s' == s && On(en, j / 2) && Effective(log, s, en, repeats, j / 2) then data[j] else Cell(log, s', j)
  {
    hide On, CellAfter;
    PgWriteWellformed(log, s, en, data, repeats);
    FindReusableFinds(log, 0, s, en);
    var t := Target(en, data);
    var k := FindReusable(log, 0, s, en);
    if k < 0 {
      CellOfAppend(log, Packet(s, en, t), s', j);
    } else {
      var filled := log[k := log[k].(data := t)];
      var rest := Without(en, log[k].en);
      CellOfFill(log, k, t, s', j);
      LastWriterDecides(log, |log|, s', j);
      if rest != NO_WORDS && repeats + 1 <= REPEAT_THRESHOLD {
        CellOfAppend(filled, Packet(s, rest, t), s', j);
      } else if rest == NO_WORDS {
        assert !On(rest, j / 2) by {
          NoWordsOff(j / 2);
        }
      }
    }
  }

  lemma {:induction false} NoWordsOff(w: nat)
    requires w < 4
    ensures !On(NO_WORDS, w)
  {
  }

  // ---------------------------------------------------------------------------------------------
  // Updating from the shadow maps

  type Image = m: seq<Byte> | |m| == 8 * SECTIONS witness seq(8 * SECTIONS, _ => ERASED)

  predicate Differs(init: Image, wanted: Image, s: nat, w: nat)
    requires s < SECTIONS && w < 4
  {
    init[8 * s + 2 * w] != wanted[8 * s + 2 * w] || init[8 * s + 2 * w + 1] != wanted[8 * s + 2 * w + 1]
  }

  /** The words of a section that have to be written. */
  function ChangeMask(init: Image, wanted: Image, s: nat): (en: nat)
    requires s < SECTIONS
    ensures en < 16 && forall w :: 0 <= w < 4 ==> (On(en, w) <==> Differs(init, wanted, s, w))
  {
    Mask(Differs(init, wanted, s, 0), Differs(init, wanted, s, 1), Differs(init, wanted, s, 2), Differs(init, wanted, s, 3))
  }

  function SectionOf(m: Image, s: nat): seq<Byte>
    requires s < SECTIONS
  {
    m[8 * s..8 * s + 8]
  }

  /** The log after the sections below n have been updated. */
  function UpdateTo(log: Log, repeats: nat, init: Image, wanted: Image, n: nat): (r: Written)
    requires n <= SECTIONS && Wellformed(log)
    ensures Wellformed(r.log)
  {
    if n == 0 then Written(log, repeats)
    else
      var w := UpdateTo(log, repeats, init, wanted, n - 1);
      var en := ChangeMask(init, wanted, n - 1);
      if en == NO_WORDS then w
      else
        PgWriteWellformed(w.log, n - 1, en, SectionOf(wanted, n - 1), w.repeats);
        PgWrite(w.log, n - 1, en, SectionOf(wanted, n - 1), w.repeats)
  }

  lemma {:induction false} UpdateStart(log: Log, repeats: nat, init: Image, wanted: Image)
    requires Wellformed(log)
    ensures UpdateTo(log, repeats, init, wanted, 0) == Written(log, repeats)
  {
  }

  /** The packets of section s are the same in both logs. */
  ghost predicate SameFor(s: nat, a: Log, b: Log) {
    && |a| <= |b|
    && (forall i :: 0 <= i < |a| ==> (a[i].section == s || b[i].section == s ==> a[i] == b[i]))
    && (forall i :: |a| <= i < |b| ==> b[i].section != s)
  }

  lemma {:induction false} FindSame(s: nat, a: Log, b: Log, k: nat, en: nat)
    requires Wellformed(a) && Wellformed(b) && SameFor(s, a, b) && k <= |b|
    ensures FindReusable(b, k, s, en) == if k <= |a| then FindReusable(a, k, s, en) else -1
    decreases |b| - k
  {
    hide On;
    if k < |b| {
      FindSame(s, a, b, k + 1, en);
    }
  }

  lemma {:induction false} LastWriterSame(s: nat, a: Log, b: Log, n: nat, w: nat)
    requires SameFor(s, a, b) && n <= |b|
    ensures LastWriter(b, n, s, w) == LastWriter(a, if n <= |a| then n else |a|, s, w)
  {
    if n > 0 {
      LastWriterSame(s, a, b, n - 1, w);
    }
  }

  lemma {:induction false} CellSame(s: nat, a: Log, b: Log, n: nat, j: nat)
    requires Wellformed(a) && Wellformed(b) && SameFor(s, a, b) && n <= |b| && j < 8
    ensures CellAfter(b, n, s, j) == CellAfter(a, if n <= |a| then n else |a|, s, j)
  {
    if n > 0 {
      CellSame(s, a, b, n - 1, j);
    }
  }

  /** Writing one section leaves the packets of every other section alone. */
  lemma {:induction false} PgWriteOthers(log: Log, s: nat, en: nat, data: seq<Byte>, repeats: nat, other: nat)
    requires Wellformed(log) && s < SECTIONS && en < NO_WORDS && |data| == 8 && other != s
    ensures SameFor(other, log, PgWrite(log, s, en, data, repeats).log)
  {
    hide On;
    FindReusableFinds(log, 0, s, en);
  }

  lemma {:induction false} SameForTrans(s: nat, a: Log, b: Log, c: Log)
    requires SameFor(s, a, b) && SameFor(s, b, c)
    ensures SameFor(s, a, c)
  {
  }

  lemma {:induction false} SameForSelf(s: nat, a: Log)
    ensures SameFor(s, a, a)
  {
  }

  /** Until its turn comes, a section's packets are those of the log at entry; afterwards nothing
      changes them any more. */
  lemma {:induction false} UpdateOthers(log: Log, repeats: nat, init: Image, wanted: Image, m: nat, n: nat, s: nat)
    requires m <= n <= SECTIONS && Wellformed(log) && (s < m || n <= s)
    ensures SameFor(s, UpdateTo(log, repeats, init, wanted, m).log, UpdateTo(log, repeats, init, wanted, n).log)
  {
    hide PgWrite, ChangeMask, Wellformed, SameFor;
    if m == n {
      SameForSelf(s, UpdateTo(log, repeats, init, wanted, n).log);
    } else {
      UpdateOthers(log, repeats, init, wanted, m, n - 1, s);
      var w := UpdateTo(log, repeats, init, wanted, n - 1);
      var en := ChangeMask(init, wanted, n - 1);
      if en != NO_WORDS {
        PgWriteOthers(w.log, n - 1, en, SectionOf(wanted, n - 1), w.repeats, s);
        SameForTrans(s, UpdateTo(log, repeats, init, wanted, m).log, w.log, UpdateTo(log, repeats, init, wanted, n).log);
      }
    }
  }

  /** How often reuse has been counted before section n: the count at entry, which is never reset, and
      one for each changed section below n that found an empty packet to fill. */
  function RepeatsBefore(log: Log, repeats: nat, init: Image, wanted: Image, n: nat): nat
    requires n <= SECTIONS && forall i :: 0 <= i < |log| ==> |log[i].data| == 8
  {
    if n == 0 then repeats
    else
      var en := ChangeMask(init, wanted, n - 1);
      RepeatsBefore(log, repeats, init, wanted, n - 1) + (if en != NO_WORDS && FindReusable(log, 0, n - 1, en) >= 0 then 1 else 0)
  }

  lemma {:induction false} UpdateRepeats(log: Log, repeats: nat, init: Image, wanted: Image, n: nat)
    requires n <= SECTIONS && Wellformed(log)
    ensures UpdateTo(log, repeats, init, wanted, n).repeats == RepeatsBefore(log, repeats, init, wanted, n)
  {
    hide On, ChangeMask;
    if n > 0 {
      UpdateRepeats(log, repeats, init, wanted, n - 1);
      var w := UpdateTo(log, repeats, init, wanted, n - 1);
      var en := ChangeMask(init, wanted, n - 1);
      UpdateOthers(log, repeats, init, wanted, 0, n - 1, n - 1);
      FindSame(n - 1, log, w.log, 0, en);
      FindReusableFinds(w.log, 0, n - 1, en);
    }
  }

  /** Decidable before the update: every changed word of the section either finds no empty packet to
      go to, or goes to one that no later packet overrides, or is left over while the reuse count is
      still within its threshold. */
  predicate SectionSound(log: Log, repeats: nat, init: Image, wanted: Image, s: nat)
    requires s < SECTIONS && forall i :: 0 <= i < |log| ==> |log[i].data| == 8
  {
    var en := ChangeMask(init, wanted, s);
    forall w :: 0 <= w < 4 && On(en, w) ==> Effective(log, s, en, RepeatsBefore(log, repeats, init, wanted, s), w)
  }

  predicate Sound(log: Log, repeats: nat, init: Image, wanted: Image)
    requires forall i :: 0 <= i < |log| ==> |log[i].data| == 8
  {
    forall s :: 0 <= s < SECTIONS ==> SectionSound(log, repeats, init, wanted, s)
  }

  /** What the whole update does to every byte of the image. */
  lemma {:induction false} UpdateEffect(log: Log, repeats: nat, init: Image, wanted: Image, s: nat, j: nat)
    requires Wellformed(log) && s < SECTIONS && j < 8
    ensures var en := ChangeMask(init, wanted, s);
            Cell(UpdateTo(log, repeats, init, wanted, SECTIONS).log, s, j) ==
            if On(en, j / 2) && Effective(log, s, en, RepeatsBefore(log, repeats, init, wanted, s), j / 2)
            then wanted[8 * s + j] else Cell(log, s, j)
  {
    hide On, ChangeMask, RepeatsBefore, FindReusable, LastWriter, PgWrite;
    var w := UpdateTo(log, repeats, init, wanted, s);
    var x := UpdateTo(log, repeats, init, wanted, s + 1);
    var z := UpdateTo(log, repeats, init, wanted, SECTIONS);
    var en := ChangeMask(init, wanted, s);
    UpdateOthers(log, repeats, init, wanted, 0, s, s);
    CellSame(s, log, w.log, |w.log|, j);
    UpdateOthers(log, repeats, init, wanted, s + 1, SECTIONS, s);
    CellSame(s, x.log, z.log, |z.log|, j);
    if en == NO_WORDS {
      NoWordsOff(j / 2);
    } else {
      PgWriteEffect(w.log, s, en, SectionOf(wanted, s), w.repeats, s, j);
      UpdateRepeats(log, repeats, init, wanted, s);
      FindSame(s, log, w.log, 0, en);
      FindReusableFinds(log, 0, s, en);
      LastWriterSame(s, log, w.log, |w.log|, j / 2);
    }
  }

  /** An update of a device whose image is the init map leaves it decoding to the wanted map exactly
      when the update is sound. */
  lemma {:induction false} UpdateExact(log: Log, repeats: nat, init: Image, wanted: Image)
    requires Wellformed(log) && Decodes(init, log)
    ensures Decodes(wanted, UpdateTo(log, repeats, init, wanted, SECTIONS).log) <==> Sound(log, repeats, init, wanted)
  {
    var z := UpdateTo(log, repeats, init, wanted, SECTIONS).log;
    if Decodes(wanted, z) {
      forall s | 0 <= s < SECTIONS
        ensures SectionSound(log, repeats, init, wanted, s)
      {
        DecodedSectionIsSound(log, repeats, init, wanted, s);
      }
    }
    if Sound(log, repeats, init, wanted) {
      forall a | 0 <= a < 8 * SECTIONS
        ensures wanted[a] == ImageAt(z, a)
      {
        assert SectionSound(log, repeats, init, wanted, a / 8);
        SoundSectionDecodes(log, repeats, init, wanted, a);
      }
    }
  }

  lemma {:induction false} DecodedSectionIsSound(log: Log, repeats: nat, init: Image, wanted: Image, s: nat)
    requires Wellformed(log) && Decodes(init, log) && s < SECTIONS
    requires Decodes(wanted, UpdateTo(log, repeats, init, wanted, SECTIONS).log)
    ensures SectionSound(log, repeats, init, wanted, s)
  {
    hide On, ChangeMask, RepeatsBefore, FindReusable, LastWriter, Effective, UpdateTo, Cell, ImageAt;
    var en := ChangeMask(init, wanted, s);
    var z := UpdateTo(log, repeats, init, wanted, SECTIONS).log;
    forall w | 0 <= w < 4 && On(en, w)
      ensures Effective(log, s, en, RepeatsBefore(log, repeats, init, wanted, s), w)
    {
      var j := if init[8 * s + 2 * w] != wanted[8 * s + 2 * w] then 2 * w else 2 * w + 1;
      assert Differs(init, wanted, s, w) && init[8 * s + j] != wanted[8 * s + j];
      ImageOfSection(z, s, j);
      ImageOfSection(log, s, j);
      UpdateEffect(log, repeats, init, wanted, s, j);
    }
  }

  lemma {:induction false} SoundSectionDecodes(log: Log, repeats: nat, init: Image, wanted: Image, a: nat)
    requires Wellformed(log) && Decodes(init, log) && a < 8 * SECTIONS
    requires SectionSound(log, repeats, init, wanted, a / 8)
    ensures ImageAt(UpdateTo(log, repeats, init, wanted, SECTIONS).log, a) == wanted[a]
  {
    hide On, ChangeMask, RepeatsBefore, FindReusable, LastWriter, Effective, UpdateTo, Cell, ImageAt;
    var s, j := a / 8, a % 8;
    var en := ChangeMask(init, wanted, s);
    assert a == 8 * s + j;
    ImageOfSection(UpdateTo(log, repeats, init, wanted, SECTIONS).log, s, j);
    ImageOfSection(log, s, j);
    UpdateEffect(log, repeats, init, wanted, s, j);
    if !On(en, j / 2) {
      assert !Differs(init, wanted, s, j / 2);
      assert j == 2 * (j / 2) || j == 2 * (j / 2) + 1;
    }
  }

  // ---------------------------------------------------------------------------------------------
  // What becomes of the words of one write, without the search

  /** Packet k is the first that is still empty and shares a word with the write. Its own words reach the
      image unless a later packet has them too; the words left over reach it while fewer than three reuses
      have been counted, and are given up from then on. */
  lemma {:induction false} ReuseEffect(log: Log, s: nat, en: nat, data: seq<Byte>, repeats: nat, k: nat, j: nat)
    requires Wellformed(log) && s < SECTIONS && en < NO_WORDS && |data| == 8 && j < 8
    requires k < |log| && Reusable(log[k], s, en) && forall i :: 0 <= i < k ==> !Reusable(log[i], s, en)
    ensures var o := PgWrite(log, s, en, data, repeats);
            && o.repeats == repeats + 1
            && Wellformed(o.log)
            && Cell(o.log, s, j) ==
               if !On(en, j / 2) then Cell(log, s, j)
               else if On(log[k].en, j / 2) then
                 if exists i :: k < i < |log| && Writes(log[i], s, j / 2) then Cell(log, s, j) else data[j]
               else if repeats < 3 then data[j] else Cell(log, s, j)
  {
    hide On, Reusable, Writes, LastWriter, CellAfter, PgWrite;
    FindFirst(log, 0, k, s, en);
    PgWriteFills(log, k, s, en, data, repeats);
    PgWriteEffect(log, s, en, data, repeats, s, j);
    LastWriterFrom(log, |log|, s, j / 2, k);
    ReusableMeans(log[k], s, en);
  }

  lemma {:induction false} ReusableMeans(p: Packet, s: nat, en: nat)
    requires |p.data| == 8 && Reusable(p, s, en)
    ensures forall w :: 0 <= w < 4 ==> (Writes(p, s, w) <==> On(p.en, w))
  {
    hide On;
  }

  lemma {:induction false} LastWriterFrom(log: Log, n: nat, s: nat, w: nat, k: nat)
    requires k < n <= |log|
    ensures LastWriter(log, n, s, w) == k <==> Writes(log[k], s, w) && !exists i :: k < i < n && Writes(log[i], s, w)
    decreases n
  {
    hide Writes;
    if k < n - 1 {
      LastWriterFrom(log, n - 1, s, w, k);
    }
    LastWriterBelow(log, n - 1, s, w);
  }

  lemma {:induction false} LastWriterBelow(log: Log, n: nat, s: nat, w: nat)
    requires n <= |log|
    ensures LastWriter(log, n, s, w) < n
  {
    hide Writes;
    if n > 0 {
      LastWriterBelow(log, n - 1, s, w);
    }
  }

  /** A write that finds no such packet reaches the image whole. */
  lemma {:induction false} AppendEffect(log: Log, s: nat, en: nat, data: seq<Byte>, repeats: nat, j: nat)
    requires Wellformed(log) && s < SECTIONS && en < NO_WORDS && |data| == 8 && j < 8
    requires forall i :: 0 <= i < |log| ==> !Reusable(log[i], s, en)
    ensures var o := PgWrite(log, s, en, data, repeats);
            && o.repeats == repeats
            && Wellformed(o.log)
            && Cell(o.log, s, j) == if On(en, j / 2) then data[j] else Cell(log, s, j)
  {
    hide On, Reusable, CellAfter, Wellformed, PgWrite;
    FindFirst(log, 0, |log|, s, en);
    PgWriteAppends(log, s, en, data, repeats);
    PgWriteEffect(log, s, en, data, repeats, s, j);
  }

  /** Which packets count as still empty: all the bytes of the words they have read 0xFF. */
  lemma {:induction false} ReusableExactly(p: Packet, s: nat, en: nat)
    requires |p.data| == 8
    ensures Reusable(p, s, en) <==>
              && p.section == s
              && (forall j :: 0 <= j < 8 && On(p.en, j / 2) ==> p.data[j] == 0xFF)
              && exists w :: 0 <= w < 4 && On(en, w) && On(p.en, w)
  {
    hide On;
  }

  /** While the count at entry and the reuses of this update stay within three, every changed word that no
      empty packet of its section has is written. */
  lemma {:induction false} LeftOversWritten(log: Log, repeats: nat, init: Image, wanted: Image, s: nat, j: nat)
    requires Wellformed(log) && Decodes(init, log) && s < SECTIONS && j < 8
    requires UpdateTo(log, repeats, init, wanted, SECTIONS).repeats <= 3
    requires forall k :: 0 <= k < |log| && log[k].section == s && log[k].Empty() ==> !On(log[k].en, j / 2)
    ensures ImageAt(UpdateTo(log, repeats, init, wanted, SECTIONS).log, 8 * s + j) == wanted[8 * s + j]
  {
    hide On, ChangeMask, FindReusable, LastWriter, Cell, ImageAt, PgWrite, RepeatsBefore;
    var en := ChangeMask(init, wanted, s);
    UpdateRepeats(log, repeats, init, wanted, SECTIONS);
    FindReusableFinds(log, 0, s, en);
    NoWordsOff(j / 2);
    if On(en, j / 2) && FindReusable(log, 0, s, en) >= 0 {
      RepeatsCounted(log, repeats, init, wanted, s);
    }
    UpdateEffect(log, repeats, init, wanted, s, j);
    ImageOfSection(UpdateTo(log, repeats, init, wanted, SECTIONS).log, s, j);
    ImageOfSection(log, s, j);
    if !On(en, j / 2) {
      assert !Differs(init, wanted, s, j / 2);
      assert j == 2 * (j / 2) || j == 2 * (j / 2) + 1;
    }
  }

  /** A section that finds an empty packet is counted. */
  lemma {:induction false} RepeatsCounted(log: Log, repeats: nat, init: Image, wanted: Image, s: nat)
    requires Wellformed(log) && s < SECTIONS
    requires ChangeMask(init, wanted, s) != NO_WORDS && FindReusable(log, 0, s, ChangeMask(init, wanted, s)) >= 0
    ensures RepeatsBefore(log, repeats, init, wanted, s) + 1 <= RepeatsBefore(log, repeats, init, wanted, SECTIONS)
  {
    hide ChangeMask, FindReusable;
    RepeatsMonotone(log, repeats, init, wanted, s + 1, SECTIONS);
  }

  lemma {:induction false} RepeatsMonotone(log: Log, repeats: nat, init: Image, wanted: Image, m: nat, n: nat)
    requires Wellformed(log) && m <= n <= SECTIONS
    ensures RepeatsBefore(log, repeats, init, wanted, m) <= RepeatsBefore(log, repeats, init, wanted, n)
  {
    hide ChangeMask, FindReusable;
    if m < n {
      RepeatsMonotone(log, repeats, init, wanted, m, n - 1);
    }
  }

  /** A section that is as it should be is left alone: none of its packets changes and none is added. */
  lemma {:induction false} UnchangedUntouched(log: Log, repeats: nat, init: Image, wanted: Image, s: nat)
    requires Wellformed(log) && s < SECTIONS && forall a :: 8 * s <= a < 8 * s + 8 ==> init[a] == wanted[a]
    ensures SameFor(s, log, UpdateTo(log, repeats, init, wanted, SECTIONS).log)
  {
    hide PgWrite, SameFor, On;
    var x, y := UpdateTo(log, repeats, init, wanted, s), UpdateTo(log, repeats, init, wanted, s + 1);
    NoChange(init, wanted, s);
    UpdateOthers(log, repeats, init, wanted, 0, s, s);
    UpdateOthers(log, repeats, init, wanted, s + 1, SECTIONS, s);
    SameForTrans(s, log, x.log, UpdateTo(log, repeats, init, wanted, SECTIONS).log);
  }

  lemma {:induction false} NoChange(init: Image, wanted: Image, s: nat)
    requires s < SECTIONS && forall a :: 8 * s <= a < 8 * s + 8 ==> init[a] == wanted[a]
    ensures ChangeMask(init, wanted, s) == NO_WORDS
  {
    hide On;
    assert forall w :: 0 <= w < 4 ==> !Differs(init, wanted, s, w);
  }

  // ---------------------------------------------------------------------------------------------
  // Room

  lemma {:induction false} SizeOfAppend(log: Log, p: Packet)
    ensures Size(log + [p]) == Size(log) + p.Length()
  {
    OffsetAgrees(log, log + [p], |log|);
  }

  lemma {:induction false} SizeOfFill(log: Log, k: nat, t: seq<Byte>)
    requires k < |log|
    ensures Size(log[k := log[k].(data := t)]) == Size(log)
  {
    OffsetAgrees(log, log[k := log[k].(data := t)], |log|);
  }

  lemma {:induction false} WithoutCount(en: nat, other: nat)
    ensures WordCount(Without(en, other)) <= WordCount(en)
  {
    hide On;
    var r := Without(en, other);
    assert forall w :: 0 <= w < 4 && On(r, w) ==> On(en, w);
  }

  lemma {:induction false} PgWriteSize(log: Log, s: nat, en: nat, data: seq<Byte>, repeats: nat)
    requires Wellformed(log) && |data| == 8
    ensures Size(log) <= Size(PgWrite(log, s, en, data, repeats).log) <= Size(log) + 1 + 2 * WordCount(en)
    ensures FindReusable(log, 0, s, en) == -1 ==> Size(PgWrite(log, s, en, data, repeats).log) == Size(log) + 1 + 2 * WordCount(en)
  {
    hide On, Size;
    FindReusableFinds(log, 0, s, en);
    var t := Target(en, data);
    var k := FindReusable(log, 0, s, en);
    if k < 0 {
      SizeOfAppend(log, Packet(s, en, t));
    } else {
      var rest := Without(en, log[k].en);
      SizeOfFill(log, k, t);
      SizeOfAppend(log[k := log[k].(data := t)], Packet(s, rest, t));
      WithoutCount(en, log[k].en);
    }
  }

  /** Headers and words for the sections below n, as the capacity check counts them. */
  function NeedBelow(init: Image, wanted: Image, n: nat): nat
    requires n <= SECTIONS
  {
    if n == 0 then 0
    else
      var en := ChangeMask(init, wanted, n - 1);
      NeedBelow(init, wanted, n - 1) + (if en == NO_WORDS then 0 else 1 + 2 * WordCount(en))
  }

  lemma {:induction false} NeedMonotone(init: Image, wanted: Image, m: nat, n: nat)
    requires m <= n <= SECTIONS
    ensures NeedBelow(init, wanted, m) <= NeedBelow(init, wanted, n)
  {
    hide ChangeMask, WordCount;
    if m < n {
      NeedMonotone(init, wanted, m, n - 1);
    }
  }

  /** The capacity check leaves room for every packet the update writes. */
  lemma {:induction false} UpdateFits(log: Log, repeats: nat, init: Image, wanted: Image, n: nat)
    requires Wellformed(log) && n <= SECTIONS
    ensures Size(log) <= Size(UpdateTo(log, repeats, init, wanted, n).log) <= Size(log) + NeedBelow(init, wanted, n)
  {
    hide On, Size, ChangeMask, WordCount, PgWrite;
    if n > 0 {
      UpdateFits(log, repeats, init, wanted, n - 1);
      var w := UpdateTo(log, repeats, init, wanted, n - 1);
      var en := ChangeMask(init, wanted, n - 1);
      if en != NO_WORDS {
        PgWriteSize(w.log, n - 1, en, SectionOf(wanted, n - 1), w.repeats);
      }
    }
  }

  /** On a log without empty packets the update takes exactly the room that the capacity check counts. */
  lemma {:induction false} NeedExact(log: Log, repeats: nat, init: Image, wanted: Image, n: nat)
    requires Wellformed(log) && n <= SECTIONS && forall k :: 0 <= k < |log| ==> !log[k].Empty()
    ensures Size(UpdateTo(log, repeats, init, wanted, n).log) == Size(log) + NeedBelow(init, wanted, n)
  {
    hide On, Size, ChangeMask, WordCount, PgWrite, FindReusable;
    if n > 0 {
      NeedExact(log, repeats, init, wanted, n - 1);
      var w := UpdateTo(log, repeats, init, wanted, n - 1);
      var en := ChangeMask(init, wanted, n - 1);
      if en != NO_WORDS {
        UpdateOthers(log, repeats, init, wanted, 0, n - 1, n - 1);
        FindSame(n - 1, log, w.log, 0, en);
        FindReusableFinds(log, 0, n - 1, en);
        PgWriteSize(w.log, n - 1, en, SectionOf(wanted, n - 1), w.repeats);
      }
    }
  }

  // ---------------------------------------------------------------------------------------------
  // When an update can go wrong

  /** On a log without empty packets every update is sound. */
  lemma {:induction false} SoundWithoutEmptyPackets(log: Log, repeats: nat, init: Image, wanted: Image)
    requires Wellformed(log) && forall k :: 0 <= k < |log| ==> !log[k].Empty()
    ensures Sound(log, repeats, init, wanted)
  {
    hide On, ChangeMask, RepeatsBefore;
    forall s: nat | s < SECTIONS
      ensures FindReusable(log, 0, s, ChangeMask(init, wanted, s)) == -1
    {
      FindReusableFinds(log, 0, s, ChangeMask(init, wanted, s));
    }
  }

  const F: Byte := 0xFF
  const WORD0: nat := 0x0E
  const WORD1: nat := 0x0D
  const WORDS01: nat := 0x0C

  /** A packet of section 0 whose absent words read as erased. */
  function Section0(en: nat, a: Byte, b: Byte): Packet {
    Packet(0, en, [a, a, b, b, F, F, F, F])
  }

  lemma {:induction false} MaskBits()
    ensures On(WORD0, 0) && !On(WORD0, 1) && !On(WORD0, 2) && !On(WORD0, 3)
    ensures !On(WORD1, 0) && On(WORD1, 1) && !On(WORD1, 2) && !On(WORD1, 3)
    ensures On(WORDS01, 0) && On(WORDS01, 1) && !On(WORDS01, 2) && !On(WORDS01, 3)
  {
  }

  lemma {:induction false} FindFirst(log: Log, i: nat, k: nat, s: nat, en: nat)
    requires Wellformed(log) && i <= k <= |log| && (forall n :: i <= n < k ==> !Reusable(log[n], s, en))
    requires k < |log| ==> Reusable(log[k], s, en)
    ensures FindReusable(log, i, s, en) == if k < |log| then k else -1
    decreases k - i
  {
    if i < k {
      FindFirst(log, i + 1, k, s, en);
    }
  }

  /** Programming two words of a blank device and resetting them one after the other leaves two empty
      packets behind. */
  lemma {:induction false} ResetLeavesEmptyPackets()
    ensures var w1 := PgWrite([], 0, WORDS01, Section0(WORDS01, 0, 0).data, 0);
            var w2 := PgWrite(w1.log, 0, WORD0, Section0(WORD0, F, F).data, w1.repeats);
            var w3 := PgWrite(w2.log, 0, WORD1, Section0(WORD1, F, F).data, w2.repeats);
            w3 == Written([Section0(WORDS01, 0, 0), Section0(WORD0, F, F), Section0(WORD1, F, F)], 0)
  {
    MaskBits();
    hide On, FindReusable;
    var p1, p2, p3 := Section0(WORDS01, 0, 0), Section0(WORD0, F, F), Section0(WORD1, F, F);
    FindFirst([], 0, 0, 0, WORDS01);
    assert Target(WORDS01, p1.data) == p1.data;
    assert p1.data[0] != ERASED;
    FindFirst([p1], 0, 1, 0, WORD0);
    assert Target(WORD0, p2.data) == p2.data;
    assert [] + [p1] == [p1] && [p1] + [p2] == [p1, p2];
    assert !Shares(WORD0, WORD1) && !Reusable(p1, 0, WORD1);
    FindFirst([p1, p2], 0, 2, 0, WORD1);
    assert Target(WORD1, p3.data) == p3.data;
    assert [p1, p2] + [p3] == [p1, p2, p3];
  }

  /** The promise fails: programming both words again fills the first empty packet and appends the rest,
      which overrides the second empty packet; the next change of that word goes into the overridden
      packet, and the image keeps the old value. */
  lemma {:induction false} StaleReuse()
    ensures var log3 := [Section0(WORDS01, 0, 0), Section0(WORD0, F, F), Section0(WORD1, F, F)];
            var w4 := PgWrite(log3, 0, WORDS01, Section0(WORDS01, 1, 2).data, 0);
            var w5 := PgWrite(w4.log, 0, WORD1, Section0(WORD1, F, 3).data, w4.repeats);
            Wellformed(w5.log) && w5.repeats == 2 && Cell(w4.log, 0, 2) == 2 && Cell(w5.log, 0, 2) == 2
  {
    MaskBits();
    hide On, FindReusable;
    var p1, p2, p3 := Section0(WORDS01, 0, 0), Section0(WORD0, F, F), Section0(WORD1, F, F);
    var log3 := [p1, p2, p3];
    var t := Section0(WORDS01, 1, 2).data;
    assert p1.data[0] != ERASED;
    FindFirst(log3, 0, 1, 0, WORDS01);
    assert Target(WORDS01, t) == t;
    MaskOf(WORD1);
    assert Without(WORDS01, WORD0) == WORD1;
    var q := Section0(WORD0, 1, 2);
    var p4 := Section0(WORD1, 1, 2);
    var log4 := [p1, q, p3, p4];
    assert log3[1 := p2.(data := t)] + [p4] == log4;
    assert q.data[0] != ERASED;
    FindFirst(log4, 0, 2, 0, WORD1);
    var u := Section0(WORD1, F, 3).data;
    assert Target(WORD1, u) == u;
    assert Without(WORD1, WORD1) == NO_WORDS;
    var log5 := [p1, q, Section0(WORD1, F, 3), p4];
    assert log4[2 := p3.(data := u)] == log5;
    assert Writes(p4, 0, 1);
  }

  /** Word 0 of a blank device is programmed, then n times reset and programmed again. */
  function Cycles(n: nat): (r: Written)
    ensures r == Written(seq(n + 1, _ => Section0(WORD0, 0, F)), n)
  {
    CycleStart();
    if n == 0 then PgWrite([], 0, WORD0, Section0(WORD0, 0, F).data, 0)
    else
      var w := Cycles(n - 1);
      CycleStep(n);
      var reset := PgWrite(w.log, 0, WORD0, Section0(WORD0, F, F).data, w.repeats);
      PgWrite(reset.log, 0, WORD0, Section0(WORD0, 0, F).data, reset.repeats)
  }

  lemma {:induction false} CycleStart()
    ensures PgWrite([], 0, WORD0, Section0(WORD0, 0, F).data, 0) == Written([Section0(WORD0, 0, F)], 0)
    ensures [Section0(WORD0, 0, F)] == seq(1, _ => Section0(WORD0, 0, F))
  {
    MaskBits();
    hide On;
    assert Target(WORD0, Section0(WORD0, 0, F).data) == Section0(WORD0, 0, F).data;
  }

  /** The reset finds no empty packet and appends one. */
  lemma {:induction false} ResetAppends(n: nat)
    ensures var log := seq(n, _ => Section0(WORD0, 0, F));
            forall repeats: nat ::
              PgWrite(log, 0, WORD0, Section0(WORD0, F, F).data, repeats) == Written(log + [Section0(WORD0, F, F)], repeats)
  {
    MaskBits();
    hide On, FindReusable;
    var p, log := Section0(WORD0, 0, F), seq(n, _ => Section0(WORD0, 0, F));
    assert p.data[0] != ERASED && !p.Empty();
    FindFirst(log, 0, n, 0, WORD0);
    assert Target(WORD0, Section0(WORD0, F, F).data) == Section0(WORD0, F, F).data;
  }

  /** Programming again fills the packet that the reset left empty: one more reuse. */
  lemma {:induction false} CycleStep(n: nat)
    requires n > 0
    ensures var log := seq(n, _ => Section0(WORD0, 0, F));
            var reset := PgWrite(log, 0, WORD0, Section0(WORD0, F, F).data, n - 1);
            && (forall i :: 0 <= i < |reset.log| ==> |reset.log[i].data| == 8)
            && PgWrite(reset.log, 0, WORD0, Section0(WORD0, 0, F).data, reset.repeats) == Written(seq(n + 1, _ => Section0(WORD0, 0, F)), n)
  {
    MaskBits();
    MaskOf(NO_WORDS);
    hide On, FindReusable;
    var p, e, log := Section0(WORD0, 0, F), Section0(WORD0, F, F), seq(n, _ => Section0(WORD0, 0, F));
    ResetAppends(n);
    assert p.data[0] != ERASED && !p.Empty();
    FindFirst(log + [e], 0, n, 0, WORD0);
    assert Target(WORD0, p.data) == p.data;
    assert Without(WORD0, WORD0) == NO_WORDS;
    assert (log + [e])[n := e.(data := p.data)] == seq(n + 1, _ => Section0(WORD0, 0, F));
  }

  /** It fails a second way: after three or more such cycles and one more reset, programming both words
      writes the one that fits the empty packet and gives the other up, although success is reported;
      after fewer cycles it writes both. */
  lemma {:induction false} RepeatsExhausted(n: nat)
    ensures var w := Cycles(n);
            var reset := PgWrite(w.log, 0, WORD0, Section0(WORD0, F, F).data, w.repeats);
            && (forall i :: 0 <= i < |reset.log| ==> |reset.log[i].data| == 8)
            && var both := PgWrite(reset.log, 0, WORDS01, Section0(WORDS01, 1, 2).data, reset.repeats);
               && Wellformed(both.log)
               && Cell(both.log, 0, 0) == 1
               && Cell(both.log, 0, 2) == if n < 3 then 2 else ERASED
  {
    MaskBits();
    hide On, FindReusable, Cycles;
    var p, e := Section0(WORD0, 0, F), Section0(WORD0, F, F);
    var log := seq(n + 1, _ => p);
    var t := Section0(WORDS01, 1, 2).data;
    ResetAppends(n + 1);
    assert p.data[0] != ERASED && !p.Empty();
    FindFirst(log + [e], 0, n + 1, 0, WORDS01);
    assert Target(WORDS01, t) == t;
    MaskOf(WORD1);
    assert Without(WORDS01, WORD0) == WORD1;
    var q := Section0(WORD0, 1, 2);
    assert (log + [e])[n + 1 := e.(data := t)] == log + [q];
    FilledLast(log, q);
    if n < REPEAT_THRESHOLD {
      CellOfAppend(log + [q], Packet(0, WORD1, t), 0, 0);
      CellOfAppend(log + [q], Packet(0, WORD1, t), 0, 2);
    }
  }

  lemma {:induction false} FilledLast(log: Log, q: Packet)
    requires (forall i :: 0 <= i < |log| ==> log[i] == Section0(WORD0, 0, F)) && q == Section0(WORD0, 1, 2)
    ensures Wellformed(log + [q]) && Cell(log + [q], 0, 0) == 1 && Cell(log + [q], 0, 2) == ERASED
  {
    MaskBits();
    hide On;
    CellOfAppend(log, q, 0, 0);
    CellOfAppend(log, q, 0, 2);
    NeverWritten(log, |log|);
  }

  lemma {:induction false} NeverWritten(log: Log, n: nat)
    requires n <= |log| && forall i :: 0 <= i < |log| ==> log[i] == Section0(WORD0, 0, F) && |log[i].data| == 8
    ensures CellAfter(log, n, 0, 2) == ERASED
  {
    MaskBits();
    hide On;
    if n > 0 {
      NeverWritten(log, n - 1);
    }
  }
}
