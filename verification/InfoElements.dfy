/** Information elements: the IBSS builder that prints them into a 256-byte buffer, and the parser that
    fills the firmware's BSS record from them. */
module InfoElements {
  import opened Words
  import opened Wrappers

  type Bytes = seq<Byte>

  const EID_SSID: Byte := 0
  const EID_SUPP_RATES: Byte := 1
  const EID_DS_PARAMS: Byte := 3
  const EID_IBSS_PARAMS: Byte := 6
  const EID_HT_CAPABILITY: Byte := 45
  const EID_EXT_SUPP_RATES: Byte := 50
  const IE_BUFFER := 256

  datatype Element = Element(id: Byte, data: Bytes) {
    predicate Valid() {
      |data| <= 255
    }

    function Encode(): Bytes
      requires Valid()
    {
      [id, |data|] + data
    }
  }

  function EncodeAll(es: seq<Element>): Bytes
    requires forall e :: e in es ==> e.Valid()
  {
    if es == [] then [] else es[0].Encode() + EncodeAll(es[1..])
  }

  // ---------------------------------------------------------------------------------------------
  // Looking an element up

  /** Contents of the first element of that kind; a clipped element ends the search. */
  function Find(ies: Bytes, id: Byte): Option<Bytes> {
    if |ies| < 2 || 2 + ies[1] > |ies| then None
    else if ies[0] == id then Some(ies[2..2 + ies[1]])
    else Find(ies[2 + ies[1]..], id)
  }

  /** Element length with its two leading bytes. */
  function Whole(len: nat): nat {
    2 + len
  }

  /** The walk comes to a byte that is the last one: it has no length byte behind it. */
  predicate ReachesLoneByte(ies: Bytes, id: Byte) {
    if |ies| < 2 then |ies| == 1
    else Whole(ies[1]) <= |ies| && ies[0] != id && ReachesLoneByte(ies[Whole(ies[1])..], id)
  }

  /** `r92su_find_ie`: where the element is. `behind` is the byte in memory after the buffer; the search
      reads it in one case, and its value does not matter. */
  method FindIe(ies: Bytes, id: Byte, behind: Byte) returns (pos: Option<nat>, readBehind: bool)
    ensures pos.Some? ==> pos.value + 2 <= |ies| && pos.value + 2 + ies[pos.value + 1] <= |ies| && ies[pos.value] == id
    ensures Find(ies, id) == if pos.None? then None else Some(ies[pos.value + 2..pos.value + 2 + ies[pos.value + 1]])
    ensures readBehind <==> ReachesLoneByte(ies, id)
  {
    var i: nat := 0;
    assert ies[0..] == ies;
    while i < |ies|
      invariant i <= |ies|
      invariant Find(ies, id) == Find(ies[i..], id)
      invariant ReachesLoneByte(ies, id) == ReachesLoneByte(ies[i..], id)
    {
      readBehind := i + 1 == |ies|;
      var len := if readBehind then behind else ies[i + 1];
      var n := Whole(len);
      if i + n > |ies| {
        return None, readBehind;
      }
      assert ies[i..][2..n] == ies[i + 2..i + n];
      if ies[i] == id {
        return Some(i), false;
      }
      assert ies[i..][n..] == ies[i + n..];
      i := i + n;
    }
    pos, readBehind := None, false;
  }

  function First(es: seq<Element>, id: Byte): Option<Bytes> {
    if es == [] then None else if es[0].id == id then Some(es[0].data) else First(es[1..], id)
  }

  /** Parsing what was printed: the first element of the kind that was printed, or what follows has. */
  lemma {:induction false} FindPrinted(es: seq<Element>, tail: Bytes, id: Byte)
    requires forall e :: e in es ==> e.Valid()
    ensures Find(EncodeAll(es) + tail, id) == if First(es, id).Some? then First(es, id) else Find(tail, id)
    decreases |es|
  {
    if es == [] {
      assert EncodeAll(es) + tail == tail;
    } else {
      var rest := EncodeAll(es[1..]) + tail;
      assert EncodeAll(es) + tail == es[0].Encode() + rest;
      FindStep(es[0], rest, id);
      FindPrinted(es[1..], tail, id);
    }
  }

  /** Behind printed elements the byte after the buffer is read exactly when the element is not among them
      and the search comes to a lone byte in what follows. */
  lemma {:induction false} LoneByteBehind(es: seq<Element>, tail: Bytes, id: Byte)
    requires forall e :: e in es ==> e.Valid()
    ensures ReachesLoneByte(EncodeAll(es) + tail, id) <==> First(es, id).None? && ReachesLoneByte(tail, id)
    decreases |es|
  {
    if es == [] {
      assert EncodeAll(es) + tail == tail;
    } else {
      var rest := EncodeAll(es[1..]) + tail;
      var ies := es[0].Encode() + rest;
      assert EncodeAll(es) + tail == ies;
      assert ies[0] == es[0].id && ies[1] == |es[0].data| && ies[2 + |es[0].data|..] == rest;
      LoneByteBehind(es[1..], tail, id);
    }
  }

  /** A buffer of printed elements is never read beyond its end; one with a byte too many is, unless the
      element is found before. */
  lemma {:induction false} PrintedNeverOverread(es: seq<Element>, extra: Byte, id: Byte)
    requires forall e :: e in es ==> e.Valid()
    ensures !ReachesLoneByte(EncodeAll(es), id)
    ensures ReachesLoneByte(EncodeAll(es) + [extra], id) <==> First(es, id).None?
  {
    LoneByteBehind(es, [], id);
    LoneByteBehind(es, [extra], id);
    assert EncodeAll(es) + [] == EncodeAll(es);
  }

  lemma {:induction false} FindStep(e: Element, rest: Bytes, id: Byte)
    requires e.Valid()
    ensures Find(e.Encode() + rest, id) == if e.id == id then Some(e.data) else Find(rest, id)
  {
    var ies := e.Encode() + rest;
    assert ies[0] == e.id && ies[1] == |e.data|;
    assert ies[2..2 + |e.data|] == e.data && ies[2 + |e.data|..] == rest;
  }

  // ---------------------------------------------------------------------------------------------
  // Printing

  datatype Params = Params(ssid: Bytes, channel: Byte, basicRates: set<nat>, ies: Bytes)

  /** Rate table in units of 100 kb/s, and the HT capabilities unless HT is switched off. */
  datatype Device = Device(bitrates: seq<nat>, ht: Option<Bytes>) {
    predicate Valid() {
      (forall i :: 0 <= i < |bitrates| ==> bitrates[i] < 1280) && (ht.Some? ==> |ht.value| == 26)
    }
  }

  /** The rate's byte, its top bit set for a basic rate. */
  function Rate(d: Device, p: Params, i: nat): Byte
    requires d.Valid() && i < |d.bitrates|
  {
    var r := d.bitrates[i] / 5;
    if i in p.basicRates then WithTopBit(r) else r
  }

  function WithTopBit(b: Byte): Byte {
    if b < 0x80 then b + 0x80 else b
  }

  function Min(a: nat, b: nat): nat { if a < b then a else b }

  function SuppRates(d: Device, p: Params): (r: Bytes)
    requires d.Valid()
    ensures |r| == Min(|d.bitrates|, 16)
  {
    seq(Min(|d.bitrates|, 16), i requires 0 <= i < Min(|d.bitrates|, 16) => Rate(d, p, i))
  }

  /** The elements in the order they are printed. */
  function Elements(d: Device, p: Params): (es: seq<Element>)
    requires d.Valid() && |p.ssid| <= 32
    ensures forall e :: e in es ==> e.Valid()
  {
    FixedElements(d, p) + (ExtElements(d, p) + HtElements(d))
  }

  function FixedElements(d: Device, p: Params): (es: seq<Element>)
    requires d.Valid() && |p.ssid| <= 32
    ensures forall e :: e in es ==> e.Valid()
  {
    var r := SuppRates(d, p);
    [Element(EID_SSID, p.ssid), Element(EID_SUPP_RATES, r[..Min(|r|, 8)]),
     Element(EID_DS_PARAMS, [p.channel]), Element(EID_IBSS_PARAMS, [0, 0])]
  }

  function ExtElements(d: Device, p: Params): (es: seq<Element>)
    requires d.Valid()
    ensures forall e :: e in es ==> e.Valid()
  {
    var r := SuppRates(d, p);
    if |r| > 8 then [Element(EID_EXT_SUPP_RATES, r[8..])] else []
  }

  function HtElements(d: Device): (es: seq<Element>)
    requires d.Valid()
    ensures forall e :: e in es ==> e.Valid()
  {
    match d.ht
    case None => []
    case Some(cap) => [Element(EID_HT_CAPABILITY, cap)]
  }

  /** What ends up in the buffer: elements as long as they fit. */
  function Filled(done: Bytes, es: seq<Element>): (Bytes, bool)
    requires forall e :: e in es ==> e.Valid()
    decreases es
  {
    if es == [] then (done, true)
    else if |done + es[0].Encode()| > IE_BUFFER then (done, false)
    else Filled(done + es[0].Encode(), es[1..])
  }

  datatype Status = Ok | Invalid | NoSpace

  function Printed(d: Device, p: Params, done: Bytes): (Bytes, Status)
    requires d.Valid() && |p.ssid| <= 32
  {
    var (buf, ok) := Filled(done, Elements(d, p));
    if !ok then (buf, Invalid)
    else if |buf + p.ies| > IE_BUFFER then (buf, NoSpace)
    else (buf + p.ies, Ok)
  }

  lemma {:induction false} FilledAll(done: Bytes, es: seq<Element>)
    requires forall e :: e in es ==> e.Valid()
    ensures Filled(done, es).1 <==> |done + EncodeAll(es)| <= IE_BUFFER || es == []
    ensures Filled(done, es).1 ==> Filled(done, es).0 == done + EncodeAll(es)
    decreases |es|
  {
    hide Element.Encode;
    if es != [] {
      var e := es[0].Encode();
      FilledAll(done + e, es[1..]);
      assert done + EncodeAll(es) == done + e + EncodeAll(es[1..]);
    }
  }

  lemma {:induction false} FilledNone(done: Bytes)
    ensures Filled(done, []) == (done, true)
  {
  }

  lemma {:induction false} FilledConcat(done: Bytes, a: seq<Element>, b: seq<Element>)
    requires (forall e :: e in a ==> e.Valid()) && (forall e :: e in b ==> e.Valid())
    ensures Filled(done, a + b) == var (buf, ok) := Filled(done, a); if ok then Filled(buf, b) else (buf, false)
    decreases |a|
  {
    hide Element.Encode;
    if a == [] {
      assert a + b == b;
    } else {
      assert (a + b)[1..] == a[1..] + b;
      FilledConcat(done + a[0].Encode(), a[1..], b);
    }
  }

  /** The buffer on the caller's stack, with the cursor and the room left that the builders move. */
  class IeBuffer {
    const buf: array<Byte>
    var ie: nat
    var ieLenLeft: nat

    ghost predicate Valid()
      reads this
    {
      buf.Length == IE_BUFFER && ie + ieLenLeft == IE_BUFFER
    }

    function Contents(): (c: Bytes)
      requires Valid()
      reads this, buf
      ensures |c| == ie
    {
      buf[..ie]
    }

    constructor ()
      ensures Valid() && Contents() == [] && fresh(buf)
    {
      buf := new Byte[IE_BUFFER](_ => 0);
      ie := 0;
      ieLenLeft := IE_BUFFER;
    }

    /** `memcpy` to the cursor */
    method Copy(data: Bytes)
      requires Valid() && |data| <= ieLenLeft
      modifies this, buf
      ensures Valid() && Contents() == old(Contents()) + data
    {
      for i := 0 to |data|
        invariant ie == old(ie) && ieLenLeft == old(ieLenLeft)
        invariant buf[..ie + i] == old(buf[..ie]) + data[..i]
      {
        buf[ie + i] := data[i];
      }
      ie := ie + |data|;
      ieLenLeft := ieLenLeft - |data|;
      assert data[..|data|] == data;
    }

    /** `r92su_add_ies` */
    method AddIes(addIes: Bytes) returns (ok: bool)
      requires Valid()
      modifies this, buf
      ensures Valid() && ok == (|old(Contents()) + addIes| <= IE_BUFFER)
      ensures Contents() == if ok then old(Contents()) + addIes else old(Contents())
    {
      if ieLenLeft < |addIes| {
        return false;
      }
      Copy(addIes);
      ok := true;
    }

    /** `r92su_add_ie` */
    method AddIe(e: Element) returns (ok: bool)
      requires Valid() && e.Valid()
      modifies this, buf
      ensures Valid() && ok == (|old(Contents()) + e.Encode()| <= IE_BUFFER)
      ensures Contents() == if ok then old(Contents()) + e.Encode() else old(Contents())
    {
      if ieLenLeft < |e.data| + 2 {
        return false;
      }
      Copy([e.id, |e.data|]);
      Copy(e.data);
      ok := true;
    }

    /** `r92su_ht_update` */
    method HtUpdate(d: Device) returns (ok: bool)
      requires Valid() && d.Valid()
      modifies this, buf
      ensures Valid() && (Contents(), ok) == Filled(old(Contents()), HtElements(d))
    {
      match d.ht
      case None => ok := true;
      case Some(cap) =>
        ok := AddIe(Element(EID_HT_CAPABILITY, cap));
    }

    /** `r92su_ibss_build_ie` */
    method IbssBuildIe(d: Device, p: Params) returns (status: Status)
      requires Valid() && d.Valid() && |p.ssid| <= 32
      modifies this, buf
      ensures Valid() && (Contents(), status) == Printed(d, p, old(Contents()))
    {
      hide Filled, FixedElements, ExtElements, HtElements, SuppRates;
      var suppRates := SupportedRates(d, p);
      FilledConcat(Contents(), FixedElements(d, p), ExtElements(d, p) + HtElements(d));
      var ok := AddFixed(d, p, suppRates);
      if !ok {
        return Invalid;
      }
      FilledConcat(Contents(), ExtElements(d, p), HtElements(d));
      ok := AddExt(d, p, suppRates);
      if !ok {
        return Invalid;
      }
      ok := HtUpdate(d);
      if !ok {
        return Invalid;
      }
      ok := AddIes(p.ies);
      status := if ok then Ok else NoSpace;
    }

    method AddFixed(d: Device, p: Params, r: Bytes) returns (ok: bool)
      requires Valid() && d.Valid() && |p.ssid| <= 32 && r == SuppRates(d, p)
      modifies this, buf
      ensures Valid() && (Contents(), ok) == Filled(old(Contents()), FixedElements(d, p))
    {
      hide Filled, Element.Encode, SuppRates;
      ghost var es := FixedElements(d, p);
      FilledNone(Contents());
      assert es == [Element(EID_SSID, p.ssid)] + es[1..];
      ok := AddNext(Element(EID_SSID, p.ssid), es[1..]);
      if !ok {
        return;
      }
      assert es[1..] == [Element(EID_SUPP_RATES, r[..Min(|r|, 8)])] + es[2..];
      ok := AddNext(Element(EID_SUPP_RATES, r[..Min(|r|, 8)]), es[2..]);
      if !ok {
        return;
      }
      assert es[2..] == [Element(EID_DS_PARAMS, [p.channel])] + es[3..];
      ok := AddNext(Element(EID_DS_PARAMS, [p.channel]), es[3..]);
      if !ok {
        return;
      }
      assert es[3..] == [Element(EID_IBSS_PARAMS, [0, 0])] + [];
      ok := AddNext(Element(EID_IBSS_PARAMS, [0, 0]), []);
      FilledNone(Contents());
    }

    method AddExt(d: Device, p: Params, r: Bytes) returns (ok: bool)
      requires Valid() && d.Valid() && r == SuppRates(d, p)
      modifies this, buf
      ensures Valid() && (Contents(), ok) == Filled(old(Contents()), ExtElements(d, p))
    {
      if |r| > 8 {
        ok := AddIe(Element(EID_EXT_SUPP_RATES, r[8..]));
      } else {
        ok := true;
      }
    }

    method AddNext(e: Element, ghost rest: seq<Element>) returns (ok: bool)
      requires Valid() && e.Valid() && forall x :: x in rest ==> x.Valid()
      modifies this, buf
      ensures Valid()
      ensures Filled(old(Contents()), [e] + rest) == if ok then Filled(Contents(), rest) else (Contents(), false)
    {
      ok := AddIe(e);
      assert ([e] + rest)[1..] == rest;
    }
  }

  /** The rates loop of `r92su_ibss_build_ie` */
  method SupportedRates(d: Device, p: Params) returns (r: Bytes)
    requires d.Valid()
    ensures r == SuppRates(d, p)
  {
    var rates := new Byte[16](_ => 0);
    var ratesLen := Min(|d.bitrates|, 16);
    for i := 0 to ratesLen
      invariant forall j :: 0 <= j < i ==> rates[j] == Rate(d, p, j)
    {
      rates[i] := d.bitrates[i] / 5;
      if i in p.basicRates {
        rates[i] := WithTopBit(rates[i]);
      }
    }
    r := rates[..ratesLen];
  }

  // ---------------------------------------------------------------------------------------------
  // The firmware's record

  /** `struct h2cc2h_bss`, the fields taken from elements; SSID and rates are fixed arrays. */
  datatype FwBss = FwBss(ssidLength: nat, ssid: Bytes, atimWindow: nat, frequency: nat, rates: Bytes) {
    predicate Valid() {
      |ssid| == 32 && |rates| == 16
    }
  }

  /** `memcpy` into a fixed array. */
  function Overwritten(buf: Bytes, at: nat, data: Bytes): (r: Bytes)
    requires at + |data| <= |buf|
    ensures |r| == |buf|
  {
    buf[..at] + data + buf[at + |data|..]
  }

  function ParseSsid(fw: FwBss, ies: Bytes): (FwBss, bool)
    requires fw.Valid()
  {
    match Find(ies, EID_SSID)
    case None => (fw, false)
    case Some(ssid) =>
      if ssid == [] then (fw, false)
      else (fw.(ssidLength := |ssid|, ssid := Overwritten(fw.ssid, 0, ssid[..Min(|ssid|, 32)])), true)
  }

  function LittleEndian(lo: nat, hi: nat): nat {
    lo + 256 * hi
  }

  function ParseAtim(fw: FwBss, ies: Bytes): FwBss {
    match Find(ies, EID_IBSS_PARAMS)
    case None => fw
    case Some(data) => if |data| >= 2 then fw.(atimWindow := LittleEndian(data[0], data[1])) else fw
  }

  function ParseRates(fw: FwBss, ies: Bytes): (FwBss, bool)
    requires fw.Valid()
  {
    match Find(ies, EID_SUPP_RATES)
    case None => (fw, false)
    case Some(data) =>
      var i := Min(8, |data|);
      var rates := Overwritten(fw.rates, 0, data[..i]);
      match Find(ies, EID_EXT_SUPP_RATES)
      case None => (fw.(rates := rates), true)
      case Some(more) => (fw.(rates := Overwritten(rates, i, more[..Min(16 - i, |more|)])), true)
  }

  /** `r92su_bss_build_fw_bss`: the record, filled as far as the parser gets. */
  function Parsed(fw: FwBss, ies: Bytes): (FwBss, bool)
    requires fw.Valid()
  {
    var (fw1, ok) := ParseSsid(fw, ies);
    if !ok then (fw1, false)
    else
      var fw2 := ParseAtim(fw1, ies);
      match Find(ies, EID_DS_PARAMS)
      case None => (fw2, false)
      case Some(chan) => if chan == [] then (fw2, false) else ParseRates(fw2.(frequency := chan[0]), ies)
  }

  class BssRecord {
    var fw: FwBss

    constructor ()
      ensures fw.Valid()
    {
      fw := FwBss(0, seq(32, _ => 0), 0, 0, seq(16, _ => 0));
    }

    /** `r92su_bss_build_fw_bss`; the byte behind the buffer changes nothing. */
    method BuildFwBss(ies: Bytes, behind: Byte) returns (ok: bool)
      requires fw.Valid()
      modifies this
      ensures fw.Valid() && (fw, ok) == Parsed(old(fw), ies)
    {
      hide Find;
      ok := CopySsid(ies, behind);
      if !ok {
        return;
      }
      var tmp, over := FindIe(ies, EID_IBSS_PARAMS, behind);
      if tmp.Some? && ies[tmp.value + 1] >= 2 {
        fw := fw.(atimWindow := LittleEndian(ies[tmp.value + 2], ies[tmp.value + 3]));
      }
      assert fw == ParseAtim(ParseSsid(old(fw), ies).0, ies);
      tmp, over := FindIe(ies, EID_DS_PARAMS, behind);
      if tmp.None? || ies[tmp.value + 1] < 1 {
        return false;
      }
      fw := fw.(frequency := ies[tmp.value + 2]);
      ok := CopyRates(ies, behind);
    }

    method CopySsid(ies: Bytes, behind: Byte) returns (ok: bool)
      requires fw.Valid()
      modifies this
      ensures fw.Valid() && (fw, ok) == ParseSsid(old(fw), ies)
    {
      hide Find;
      var tmp, over := FindIe(ies, EID_SSID, behind);
      if tmp.None? || ies[tmp.value + 1] == 0 {
        return false;
      }
      var at, n := tmp.value + 2, ies[tmp.value + 1];
      var len := Min(n, 32);
      assert ies[at..at + n][..len] == ies[at..at + len];
      fw := fw.(ssidLength := n);
      fw := fw.(ssid := Overwritten(fw.ssid, 0, ies[at..at + len]));
      ok := true;
    }

    method CopyRates(ies: Bytes, behind: Byte) returns (ok: bool)
      requires fw.Valid()
      modifies this
      ensures fw.Valid() && (fw, ok) == ParseRates(old(fw), ies)
    {
      hide Find;
      var tmp, over := FindIe(ies, EID_SUPP_RATES, behind);
      if tmp.None? {
        return false;
      }
      var at, n := tmp.value + 2, ies[tmp.value + 1];
      var i := Min(8, n);
      assert ies[at..at + n][..i] == ies[at..at + i];
      fw := fw.(rates := Overwritten(fw.rates, 0, ies[at..at + i]));
      tmp, over := FindIe(ies, EID_EXT_SUPP_RATES, behind);
      if tmp.Some? {
        at, n := tmp.value + 2, ies[tmp.value + 1];
        var len := Min(16 - i, n);
        assert ies[at..at + n][..len] == ies[at..at + len];
        fw := fw.(rates := Overwritten(fw.rates, i, ies[at..at + len]));
      }
      ok := true;
    }
  }

  // ---------------------------------------------------------------------------------------------
  // Parsing what was printed

  /** The builder fails exactly when not everything fits, and which way it fails says what was too much;
      otherwise the buffer holds every element and the user's own behind them. */
  lemma {:induction false} PrintedExact(d: Device, p: Params)
    requires d.Valid() && |p.ssid| <= 32
    ensures var (buf, status) := Printed(d, p, []);
            var all := EncodeAll(Elements(d, p));
            && (status == Ok <==> |all| + |p.ies| <= IE_BUFFER)
            && (status == Invalid <==> |all| > IE_BUFFER)
            && (status == Ok ==> buf == all + p.ies)
  {
    hide Elements, EncodeAll;
    FilledAll([], Elements(d, p));
    assert [] + EncodeAll(Elements(d, p)) == EncodeAll(Elements(d, p));
    NotEmpty(d, p);
  }

  /** What the buffer holds after success, byte by byte. */
  lemma {:induction false} PrintedBytes(d: Device, p: Params, cap: Bytes)
    requires d.Valid() && |p.ssid| <= 32 && cap == (if d.ht.Some? then d.ht.value else [])
    ensures var (buf, status) := Printed(d, p, []);
            var r := SuppRates(d, p);
            var all := [0, |p.ssid|] + p.ssid
              + (if |r| <= 8 then [1, |r|] + r else [1, 8] + r[..8])
              + [3, 1, p.channel] + [6, 2, 0, 0]
              + (if |r| <= 8 then [] else [50, |r| - 8] + r[8..])
              + (if d.ht.Some? then [45, 26] + cap else []);
            && (status == Ok <==> |all| + |p.ies| <= 256)
            && (status == Invalid <==> |all| > 256)
            && (status == Ok ==> buf == all + p.ies)
  {
    hide SuppRates, Printed, EncodeAll;
    PrintedExact(d, p);
    ElementBytes(d, p);
    var r := SuppRates(d, p);
    assert r[..Min(|r|, 8)] == if |r| <= 8 then r else r[..8];
  }

  lemma {:induction false} ElementBytes(d: Device, p: Params)
    requires d.Valid() && |p.ssid| <= 32
    ensures var r := SuppRates(d, p);
            var s := r[..Min(|r|, 8)];
            EncodeAll(Elements(d, p)) ==
              ([0, |p.ssid|] + p.ssid + ([1, |s|] + s) + [3, 1, p.channel] + [6, 2, 0, 0])
              + ((if |r| <= 8 then [] else [50, |r| - 8] + r[8..]) + (if d.ht.Some? then [45, 26] + d.ht.value else []))
  {
    hide SuppRates, EncodeAll;
    FixedBytes(d, p);
    OptionalBytes(d, p);
    hide FixedElements, ExtElements, HtElements;
    EncodeConcat(FixedElements(d, p), ExtElements(d, p) + HtElements(d));
    EncodeConcat(ExtElements(d, p), HtElements(d));
  }

  lemma {:induction false} FixedBytes(d: Device, p: Params)
    requires d.Valid() && |p.ssid| <= 32
    ensures var s := SuppRates(d, p)[..Min(|SuppRates(d, p)|, 8)];
            EncodeAll(FixedElements(d, p)) == [0, |p.ssid|] + p.ssid + ([1, |s|] + s) + [3, 1, p.channel] + [6, 2, 0, 0]
  {
    hide SuppRates;
    EncodeFour(FixedElements(d, p));
    hide EncodeAll;
  }

  lemma {:induction false} OptionalBytes(d: Device, p: Params)
    requires d.Valid()
    ensures var r := SuppRates(d, p);
            EncodeAll(ExtElements(d, p)) == if |r| <= 8 then [] else [50, |r| - 8] + r[8..]
    ensures EncodeAll(HtElements(d)) == if d.ht.Some? then [45, 26] + d.ht.value else []
  {
    hide SuppRates;
    EncodeOne(ExtElements(d, p));
    EncodeOne(HtElements(d));
    hide EncodeAll;
  }

  lemma {:induction false} EncodeConcat(a: seq<Element>, b: seq<Element>)
    requires (forall e :: e in a ==> e.Valid()) && (forall e :: e in b ==> e.Valid())
    ensures EncodeAll(a + b) == EncodeAll(a) + EncodeAll(b)
    decreases |a|
  {
    hide Element.Encode;
    if a == [] {
      assert a + b == b;
    } else {
      EncodeConcat(a[1..], b);
      assert (a + b)[1..] == a[1..] + b;
    }
  }

  lemma {:induction false} EncodeOne(es: seq<Element>)
    requires forall e :: e in es ==> e.Valid()
    ensures EncodeAll(es) == if es == [] then [] else es[0].Encode() + EncodeAll(es[1..])
    ensures EncodeAll([]) == []
  {
  }

  lemma {:induction false} EncodeFour(es: seq<Element>)
    requires |es| == 4 && forall e :: e in es ==> e.Valid()
    ensures EncodeAll(es) == es[0].Encode() + es[1].Encode() + es[2].Encode() + es[3].Encode()
  {
    hide Element.Encode;
    EncodeOne(es);
    EncodeOne(es[1..]);
    EncodeOne(es[2..]);
    EncodeOne(es[3..]);
    assert es[1..][1..] == es[2..] && es[2..][1..] == es[3..] && es[3..][1..] == [];
  }

  /** A rate byte: the bit rate in units of 500 kb/s, rounded down, and 128 more for a basic rate. Only the first
      sixteen rates of the table are told. */
  lemma {:induction false} RateBytes(d: Device, p: Params, i: nat)
    requires d.Valid() && i < |d.bitrates|
    ensures |SuppRates(d, p)| <= 16 && (|d.bitrates| <= 16 ==> |SuppRates(d, p)| == |d.bitrates|)
    ensures i < 16 ==> i < |SuppRates(d, p)|
    ensures i < 16 && d.bitrates[i] < 640 ==>
              var b: nat := SuppRates(d, p)[i];
              (b >= 128 <==> i in p.basicRates) && 5 * (b % 128) <= d.bitrates[i] < 5 * (b % 128) + 5
  {
  }

  lemma {:induction false} NotEmpty(d: Device, p: Params)
    requires d.Valid() && |p.ssid| <= 32
    ensures Elements(d, p) != []
  {
  }

  lemma {:induction false} FirstPrinted(d: Device, p: Params)
    requires d.Valid() && |p.ssid| <= 32
    ensures var es := Elements(d, p);
            var r := SuppRates(d, p);
            && First(es, EID_SSID) == Some(p.ssid)
            && First(es, EID_SUPP_RATES) == Some(r[..Min(|r|, 8)])
            && First(es, EID_DS_PARAMS) == Some([p.channel])
            && First(es, EID_IBSS_PARAMS) == Some([0, 0])
            && First(es, EID_EXT_SUPP_RATES) == if |r| > 8 then Some(r[8..]) else None
  {
    hide SuppRates;
    var fixed, ext, ht := FixedElements(d, p), ExtElements(d, p), HtElements(d);
    FirstOf(fixed, 0);
    FirstOf(fixed, 1);
    FirstOf(fixed, 2);
    FirstOf(fixed, 3);
    assert fixed[0..] == fixed;
    FirstConcat(fixed, ext + ht);
    FirstConcat(ext, ht);
    assert fixed[4..] == [];
    FirstOptional(d, p);
  }

  lemma {:induction false} FirstOptional(d: Device, p: Params)
    requires d.Valid()
    ensures First(HtElements(d), EID_EXT_SUPP_RATES).None?
    ensures var r := SuppRates(d, p);
            First(ExtElements(d, p), EID_EXT_SUPP_RATES) == if |r| > 8 then Some(r[8..]) else None
  {
    hide SuppRates;
    var ht := HtElements(d);
    if ht != [] {
      assert ht[1..] == [];
    }
  }

  lemma {:induction false} FirstConcat(a: seq<Element>, b: seq<Element>)
    ensures forall id: Byte :: First(a + b, id) == if First(a, id).Some? then First(a, id) else First(b, id)
    decreases |a|
  {
    if a == [] {
      assert a + b == b;
    } else {
      FirstConcat(a[1..], b);
      assert (a + b)[1..] == a[1..] + b;
    }
  }

  lemma {:induction false} FirstOf(es: seq<Element>, i: nat)
    requires i < |es|
    ensures forall id: Byte :: First(es[i..], id) == if es[i].id == id then Some(es[i].data) else First(es[i + 1..], id)
  {
    assert es[i..][1..] == es[i + 1..];
  }

  /** The record the parser makes of what the builder printed: the SSID, the channel, no ATIM window and
      all the rates, whatever follows. Only when there are eight rates or fewer can the user's own elements
      add rates of theirs. */
  lemma {:induction false} ParsePrinted(d: Device, p: Params, fw: FwBss)
    requires d.Valid() && 1 <= |p.ssid| <= 32 && fw.Valid() && Printed(d, p, []).1 == Ok
    ensures var r := SuppRates(d, p);
            var (fw', ok) := Parsed(fw, Printed(d, p, []).0);
            && ok && fw'.Valid()
            && fw'.ssidLength == |p.ssid| && fw'.ssid[..fw'.ssidLength] == p.ssid
            && fw'.frequency == p.channel && fw'.atimWindow == 0
            && fw'.rates[..|r|] == r
            && (|r| > 8 || Find(p.ies, EID_EXT_SUPP_RATES).None? ==> fw'.rates[|r|..] == fw.rates[|r|..])
  {
    hide Find, First, Elements, EncodeAll, SuppRates, Filled, Printed, Overwritten;
    PrintedExact(d, p);
    FirstPrinted(d, p);
    var es := Elements(d, p);
    FindPrinted(es, p.ies, EID_SSID);
    FindPrinted(es, p.ies, EID_SUPP_RATES);
    FindPrinted(es, p.ies, EID_DS_PARAMS);
    FindPrinted(es, p.ies, EID_IBSS_PARAMS);
    FindPrinted(es, p.ies, EID_EXT_SUPP_RATES);
    var r := SuppRates(d, p);
    assert p.ssid[..Min(|p.ssid|, 32)] == p.ssid;
    WrittenFront(fw.ssid, p.ssid);
    RatesWritten(fw.rates, r);
    if |r| <= 8 {
      assert r[..Min(|r|, 8)] == r && r[..|r|] == r;
      WrittenFront(fw.rates, r);
      match Find(p.ies, EID_EXT_SUPP_RATES)
      case None =>
      case Some(more) => WrittenBehind(Overwritten(fw.rates, 0, r), |r|, more[..Min(16 - |r|, |more|)]);
    } else {
      assert r[..Min(|r|, 8)] == r[..8] && r[..8][..8] == r[..8];
      assert r[8..][..Min(8, |r[8..]|)] == r[8..];
    }
  }

  /** What the parser makes of any bytes at all: it needs an SSID, a channel and rates, in this order, and what it
      has filled in by then stays. Longer contents are cut off: 32 bytes of SSID, eight and then sixteen rates. */
  lemma {:induction false} ParsedExactly(fw: FwBss, ies: Bytes)
    requires fw.Valid()
    ensures var (fw', ok) := Parsed(fw, ies);
            var ssid, chan, rates, ext := Find(ies, 0), Find(ies, 3), Find(ies, 1), Find(ies, 50);
            && fw'.Valid()
            && (ok <==> ssid.Some? && ssid.value != [] && chan.Some? && chan.value != [] && rates.Some?)
            && (if ssid.None? || ssid.value == [] then fw' == fw
                else
                  && fw'.ssidLength == |ssid.value|
                  && fw'.ssid == (if |ssid.value| < 32 then ssid.value + fw.ssid[|ssid.value|..] else ssid.value[..32])
                  && fw'.atimWindow == (match Find(ies, 6) case Some(w) => if |w| >= 2 then w[0] + 256 * w[1] else fw.atimWindow
                                                           case None => fw.atimWindow)
                  && fw'.frequency == (if chan.Some? && chan.value != [] then chan.value[0] else fw.frequency))
            && (!ok ==> fw'.rates == fw.rates)
            && (ok ==>
                 var told := (if |rates.value| <= 8 then rates.value else rates.value[..8])
                             + (if ext.Some? then ext.value else []);
                 fw'.rates == if |told| < 16 then told + fw.rates[|told|..] else told[..16])
  {
    hide Find, ParseSsid, ParseRates;
    SsidParsed(fw, ies);
    RatesParsed(ParseAtim(ParseSsid(fw, ies).0, ies), ies);
    if Find(ies, 3).Some? && Find(ies, 3).value != [] {
      RatesParsed(ParseAtim(ParseSsid(fw, ies).0, ies).(frequency := Find(ies, 3).value[0]), ies);
    }
  }

  lemma {:induction false} SsidParsed(fw: FwBss, ies: Bytes)
    requires fw.Valid()
    ensures var (fw', ok) := ParseSsid(fw, ies);
            var ssid := Find(ies, 0);
            && fw'.Valid()
            && (ok <==> ssid.Some? && ssid.value != [])
            && (!ok ==> fw' == fw)
            && (ok ==>
                 fw' == fw.(ssidLength := |ssid.value|,
                            ssid := if |ssid.value| < 32 then ssid.value + fw.ssid[|ssid.value|..] else ssid.value[..32]))
  {
    hide Find, Overwritten;
    var ssid := Find(ies, 0);
    if ssid.Some? {
      CutFront(fw.ssid, ssid.value);
    }
  }

  lemma {:induction false} RatesParsed(fw: FwBss, ies: Bytes)
    requires fw.Valid()
    ensures var (fw', ok) := ParseRates(fw, ies);
            var rates, ext := Find(ies, 1), Find(ies, 50);
            && fw'.Valid()
            && (ok <==> rates.Some?)
            && (!ok ==> fw' == fw)
            && (ok ==>
                 var told := (if |rates.value| <= 8 then rates.value else rates.value[..8])
                             + (if ext.Some? then ext.value else []);
                 fw' == fw.(rates := if |told| < 16 then told + fw.rates[|told|..] else told[..16]))
  {
    hide Find, Overwritten;
    var rates, ext := Find(ies, 1), Find(ies, 50);
    if rates.Some? {
      var first := rates.value[..Min(8, |rates.value|)];
      CutFront(fw.rates, first);
      assert first[..Min(|first|, 16)] == first;
      assert |rates.value| <= 8 ==> first == rates.value;
      if ext.Some? {
        CutOff(fw.rates, first, ext.value);
      }
    }
  }

  lemma {:induction false} CutFront(buf: Bytes, data: Bytes)
    ensures Overwritten(buf, 0, data[..Min(|data|, |buf|)])
         == if |data| < |buf| then data + buf[|data|..] else data[..|buf|]
  {
    if |data| < |buf| {
      assert data[..|data|] == data;
    }
  }

  /** Writing behind what was written first, as far as there is room. */
  lemma {:induction false} CutOff(buf: Bytes, first: Bytes, data: Bytes)
    requires |first| <= |buf|
    ensures var len := Min(|buf| - |first|, |data|);
            Overwritten(Overwritten(buf, 0, first), |first|, data[..len])
            == if |first + data| < |buf| then first + data + buf[|first + data|..] else (first + data)[..|buf|]
  {
    var len := Min(|buf| - |first|, |data|);
    if |first + data| < |buf| {
      assert data[..len] == data;
    } else {
      assert (first + data)[..|buf|] == first + data[..len];
    }
  }

  lemma {:induction false} WrittenFront(buf: Bytes, data: Bytes)
    requires |data| <= |buf|
    ensures Overwritten(buf, 0, data)[..|data|] == data && Overwritten(buf, 0, data)[|data|..] == buf[|data|..]
  {
  }

  lemma {:induction false} WrittenBehind(buf: Bytes, at: nat, data: Bytes)
    requires at + |data| <= |buf|
    ensures Overwritten(buf, at, data)[..at] == buf[..at]
  {
  }

  lemma {:induction false} RatesWritten(buf: Bytes, r: Bytes)
    requires |buf| == 16 && |r| <= 16
    ensures 8 < |r| ==>
              var both := Overwritten(Overwritten(buf, 0, r[..8]), 8, r[8..]);
              both[..|r|] == r && both[|r|..] == buf[|r|..]
  {
    if 8 < |r| {
      var both := Overwritten(Overwritten(buf, 0, r[..8]), 8, r[8..]);
      assert r == r[..8] + r[8..];
      assert both == r + buf[|r|..];
    }
  }
}
