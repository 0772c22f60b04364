/** The USB driver's own reader of the same cells. */
module EepromFetch {
  import opened EfuseLog
  import opened EfuseDevice
  import opened Words

  const BLOCK_SIZE: nat := 8

  /** Image byte a belongs to a word of the block at pos that the map marks as usable. */
  predicate Touched(a: nat, pos: nat, map0: nat) {
    BLOCK_SIZE * pos <= a < BLOCK_SIZE * pos + BLOCK_SIZE && On(map0, (a - BLOCK_SIZE * pos) / 2)
  }

  lemma {:induction false} TouchedWord(pos: nat, map0: nat, w: nat)
    requires w < 4
    ensures Touched(BLOCK_SIZE * pos + 2 * w, pos, map0) <==> On(map0, w)
    ensures Touched(BLOCK_SIZE * pos + 2 * w + 1, pos, map0) <==> On(map0, w)
  {
  }

  /** One block, whatever the cells contain. `done` reports that the end of the device was reached. */
  method FetchBlock(device: Efuse, start: nat, map0: nat, pos: nat, image: array<Byte>) returns (off: nat, done: bool)
    requires device.Shape() && image != device.cells && image.Length == BLOCK_SIZE * SECTIONS && pos < SECTIONS && start <= CELLS
    modifies image
    ensures start <= off && (done ==> off >= CELLS) && (!done ==> off <= CELLS)
    ensures forall a :: 0 <= a < image.Length && !Touched(a, pos, map0) ==> image[a] == old(image[a])
    ensures start + 2 * WordCount(map0) <= CELLS ==>
              && off == start + 2 * WordCount(map0)
              && forall w :: 0 <= w < 4 && On(map0, w) ==>
                   && image[BLOCK_SIZE * pos + 2 * w] == device.cells[start + 2 * CountBelow(map0, w)]
                   && image[BLOCK_SIZE * pos + 2 * w + 1] == device.cells[start + 2 * CountBelow(map0, w) + 1]
  {
    hide On, CountBelow, WordCount, Touched;
    ghost var complete := start + 2 * WordCount(map0) <= CELLS;
    off := start;
    done := false;
    var bits := map0;
    var i := 0;
    while i < 4
      invariant 0 <= i <= 4 && start <= off <= CELLS && (i < 4 ==> bits == Shifted(map0, i))
      invariant forall a :: 0 <= a < image.Length && !Touched(a, pos, map0) ==> image[a] == old(image[a])
      invariant complete ==> off == start + 2 * CountBelow(map0, i)
      invariant complete ==> forall w :: 0 <= w < i && On(map0, w) ==>
                   && image[BLOCK_SIZE * pos + 2 * w] == device.cells[start + 2 * CountBelow(map0, w)]
                   && image[BLOCK_SIZE * pos + 2 * w + 1] == device.cells[start + 2 * CountBelow(map0, w) + 1]
    {
      CountNext(map0, i);
      OnShifted(map0, i);
      TouchedWord(pos, map0, i);
      if bits % 2 == 0 {
        var ok, b := device.OneByteRead(off);
        image[pos * BLOCK_SIZE + 2 * i] := b;
        off := off + 1;
        if off >= CELLS {
          done := true;
          return;
        }
        ok, b := device.OneByteRead(off);
        image[pos * BLOCK_SIZE + 2 * i + 1] := b;
        off := off + 1;
        if off >= CELLS {
          done := true;
          if complete {
            NoneLeft(map0, i + 1);
          }
          return;
        }
      }
      bits := bits / 2;
      i := i + 1;
    }
  }

  /** Byte a of the image after the first k packets. */
  function ImageAfter(log: Log, k: nat, a: nat): (b: Byte)
    requires Wellformed(log) && k <= |log|
    ensures k == 0 ==> b == ERASED
    ensures k == |log| ==> b == ImageAt(log, a)
  {
    CellAfter(log, k, a / BLOCK_SIZE, a % BLOCK_SIZE)
  }

  lemma {:induction false} ImageStep(log: Log, k: nat, a: nat)
    requires Wellformed(log) && k < |log|
    ensures ImageAfter(log, k + 1, a) ==
            if Touched(a, log[k].section, log[k].en) then log[k].data[a - BLOCK_SIZE * log[k].section] else ImageAfter(log, k, a)
  {
    var s, j := a / BLOCK_SIZE, a % BLOCK_SIZE;
    CellStep(log, k, s, j);
    assert a == BLOCK_SIZE * s + j;
    assert s == log[k].section <==> BLOCK_SIZE * log[k].section <= a < BLOCK_SIZE * log[k].section + BLOCK_SIZE;
  }

  ghost predicate HoldsImage(image: seq<Byte>, log: Log, k: nat) {
    |image| == BLOCK_SIZE * SECTIONS && Wellformed(log) && k <= |log| && forall a :: 0 <= a < |image| ==> image[a] == ImageAfter(log, k, a)
  }

  /** On a well-formed log, reads packet k. */
  method FetchPacket(device: Efuse, start: nat, map0: nat, pos: nat, image: array<Byte>, ghost k: nat, ghost wellformed: bool)
    returns (off: nat, done: bool)
    requires device.Shape() && image != device.cells && image.Length == BLOCK_SIZE * SECTIONS && pos < SECTIONS && start <= CELLS
    requires wellformed ==>
               var log := device.log;
               && Represents(device.cells[..], log) && k < |log| && HoldsImage(image[..], log, k)
               && start == Offset(log, k) + 1 && pos == log[k].section && map0 == log[k].en
    modifies image
    ensures start <= off && (done ==> off >= CELLS) && (!done ==> off <= CELLS)
    ensures wellformed ==> off == Offset(device.log, k) + device.log[k].Length() && HoldsImage(image[..], device.log, k + 1)
  {
    hide On, CountBelow, WordCount, CellAfter, Offset, Touched, ImageAfter;
    ghost var before := image[..];
    ghost var content := device.cells[..];
    if wellformed {
      HeaderAt(content, device.log, k);
    }
    off, done := FetchBlock(device, start, map0, pos, image);
    if wellformed {
      forall a | 0 <= a < image.Length
        ensures image[a] == ImageAfter(device.log, k + 1, a)
      {
        ImageStep(device.log, k, a);
        if Touched(a, pos, map0) {
          WordOfTouched(a, pos, map0);
        } else {
          assert image[a] == before[a];
        }
      }
    }
  }

  lemma {:induction false} WordOfTouched(a: nat, pos: nat, map0: nat)
    requires Touched(a, pos, map0)
    ensures exists w :: 0 <= w < 4 && On(map0, w) && (a == BLOCK_SIZE * pos + 2 * w || a == BLOCK_SIZE * pos + 2 * w + 1)
  {
    var w := (a - BLOCK_SIZE * pos) / 2;
    assert 0 <= w < 4 && On(map0, w);
  }

  /** `r92su_fetch_eeprom_data`: total and within its 128 bytes for any content; on a well-formed log it
      returns the image that `read_efuse` returns. */
  method FetchEeprom(device: Efuse) returns (image: array<Byte>)
    requires device.Shape()
    ensures fresh(image) && image.Length == BLOCK_SIZE * SECTIONS
    ensures Represents(device.cells[..], device.log) ==> Decodes(image[..], device.log)
  {
    hide On, CountBelow, WordCount, CellAfter, Offset, Touched, ImageAfter;
    image := new Byte[BLOCK_SIZE * SECTIONS](_ => 0xFF);
    ghost var log := device.log;
    ghost var wellformed := Represents(device.cells[..], log);
    ghost var k := 0;
    var off := 0;
    while off < CELLS
      invariant wellformed ==> HoldsImage(image[..], log, k) && off == Offset(log, k)
      decreases CELLS + 2 - off
    {
      if wellformed {
        HeaderAt(device.cells[..], log, k);
        if k < |log| {
          HeaderFields(log[k]);
        }
      }
      var ok, desc := device.OneByteRead(off);
      off := off + 1;
      if desc == ERASED {
        break;
      }
      var done;
      off, done := FetchPacket(device, off, desc % 16, desc / 16, image, k, wellformed);
      k := k + 1;
      if done {
        break;
      }
    }
    if wellformed {
      HeaderAt(device.cells[..], log, k);
      assert k == |log|;
    }
  }
}
