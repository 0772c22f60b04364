/** Averages over the last samples of received signal strength and of link quality. */
module SignalWindow {

  const RSSI_WINDOW := 100
  const LINK_QUALITY_WINDOW := 20

  function Sum(s: seq<nat>): nat {
    if s == [] then 0 else Sum(s[..|s| - 1]) + s[|s| - 1]
  }

  /** The last w samples of a history, or all of a shorter one. */
  function Tail(history: seq<nat>, w: nat): seq<nat> {
    if |history| <= w then history else history[|history| - w..]
  }

  lemma {:induction false} SumFirst(s: seq<nat>)
    requires s != []
    ensures Sum(s) == s[0] + Sum(s[1..])
    decreases |s|
  {
    var n := |s| - 1;
    if n > 0 {
      SumFirst(s[..n]);
      assert s[..n][1..] == s[1..][..n - 1];
    }
  }

  /** The window slides: the oldest sample falls out at one end when the new one comes in at the other. */
  lemma {:induction false} TailSlides(history: seq<nat>, w: nat, x: nat)
    requires 0 < w
    ensures Tail(history + [x], w) == (if |history| < w then history else Tail(history, w)[1..]) + [x]
    ensures Sum(Tail(history + [x], w)) + (if |history| < w then 0 else Tail(history, w)[0]) == Sum(Tail(history, w)) + x
    ensures |history| >= w ==> Tail(history, w)[0] <= Sum(Tail(history, w))
  {
    var t := Tail(history, w);
    var rest := if |history| < w then history else t[1..];
    if |history| >= w {
      assert t != [];
      SumFirst(t);
    }
    assert Tail(history + [x], w) == rest + [x];
    assert (rest + [x])[..|rest|] == rest;
  }

  lemma {:induction false} SumBounds(s: seq<nat>, lo: nat, hi: nat)
    requires forall i :: 0 <= i < |s| ==> lo <= s[i] <= hi
    ensures lo * |s| <= Sum(s) <= hi * |s|
  {
    if s != [] {
      SumBounds(s[..|s| - 1], lo, hi);
      assert lo * |s| == lo * (|s| - 1) + lo && hi * |s| == hi * (|s| - 1) + hi;
    }
  }

  function Average(s: seq<nat>): nat
    requires s != []
  {
    Quotient(Sum(s), |s|)
  }

  /** An average lies between the smallest and the largest sample it is taken over. */
  lemma {:induction false} AverageBetween(s: seq<nat>, lo: nat, hi: nat)
    requires s != [] && forall i :: 0 <= i < |s| ==> lo <= s[i] <= hi
    ensures lo <= Average(s) <= hi
  {
    SumBounds(s, lo, hi);
    DivideBetween(Sum(s), |s|, lo, hi);
  }

  /** An average is rounded down. */
  lemma {:induction false} AverageRounds(s: seq<nat>)
    requires s != []
    ensures Average(s) * |s| <= Sum(s) < (Average(s) + 1) * |s|
  {
    hide Sum;
  }

  lemma {:induction false} DivideBetween(a: nat, n: nat, lo: nat, hi: nat)
    requires 0 < n && lo * n <= a <= hi * n
    ensures lo <= a / n <= hi
  {
    var q := a / n;
    assert q * n <= a < (q + 1) * n;
    if q < lo {
      Times(q + 1, lo, n);
    }
    if q > hi {
      Times(hi + 1, q, n);
    }
  }

  lemma {:induction false} Times(a: nat, b: nat, n: nat)
    requires a <= b
    ensures a * n <= b * n
  {
  }

  /** The samples kept in v: as they came while there is room, then as a ring whose oldest one is at the cursor. */
  ghost predicate Ring(v: seq<nat>, index: nat, history: seq<nat>) {
    && index < |v|
    && if |history| < |v| then index == |history| && v[..index] == history
       else v[index..] + v[..index] == Tail(history, |v|)
  }

  lemma {:induction false} RingAdd(v: seq<nat>, index: nat, history: seq<nat>, x: nat)
    requires Ring(v, index, history)
    ensures Ring(v[index := x], if index + 1 < |v| then index + 1 else 0, history + [x])
    ensures |history| >= |v| ==> Tail(history, |v|)[0] == v[index]
  {
    TailSlides(history, |v|, x);
    if |history| < |v| {
      assert v[index := x][..index + 1] == v[..index] + [x];
    } else {
      Rotated(v, index, x);
    }
  }

  /** `struct rt_smooth_data` */
  class SmoothData {
    const window: nat
    const elements: array<nat>
    var index: nat
    var totalNum: nat
    var totalVal: nat
    /** Every sample ever taken. */
    ghost var history: seq<nat>

    ghost predicate Valid()
      reads this, elements
    {
      && 0 < window <= elements.Length
      && totalNum == |Tail(history, window)|
      && totalVal == Sum(Tail(history, window))
      && Ring(elements[..window], index, history)
    }

    constructor (window: nat)
      requires 0 < window <= 100
      ensures Valid() && history == [] && this.window == window && fresh(elements)
    {
      this.window := window;
      elements := new nat[100](_ => 0);
      index := 0;
      totalNum := 0;
      totalVal := 0;
      history := [];
    }

    /** One accepted sample; the result is the average of the last ones, this one included. */
    method Add(x: nat) returns (average: nat)
      requires Valid()
      modifies this, elements
      ensures Valid() && history == old(history) + [x]
      ensures var t := Tail(history, window); t != [] && average == Average(t)
    {
      hide Sum, Tail, Ring, Quotient;
      ghost var v := elements[..window];
      RingIndex(v, index, history);
      RingAdd(v, index, history, x);
      TailSlides(history, window, x);
      TailLength(history, window);
      TailLength(history + [x], window);
      if totalNum >= window {
        totalNum := window;
        totalVal := totalVal - elements[index];
      } else {
        totalNum := totalNum + 1;
      }
      totalVal := totalVal + x;
      elements[index] := x;
      assert elements[..window] == v[index := x];
      index := index + 1;
      if index >= window {
        index := 0;
      }
      history := history + [x];
      average := Quotient(totalVal, totalNum);
    }
  }

  function Quotient(a: nat, n: nat): nat
    requires n > 0
  {
    a / n
  }

  lemma {:induction false} RingIndex(v: seq<nat>, index: nat, history: seq<nat>)
    requires Ring(v, index, history)
    ensures index < |v|
  {
  }

  lemma {:induction false} TailLength(history: seq<nat>, w: nat)
    ensures |Tail(history, w)| == if |history| < w then |history| else w
  {
  }

  /** Reading a ring from its cursor on: writing at the cursor and stepping on drops the first element and appends. */
  lemma {:induction false} Rotated(ring: seq<nat>, i: nat, x: nat)
    requires i < |ring|
    ensures var next := if i + 1 < |ring| then i + 1 else 0;
            var ring' := ring[i := x];
            ring'[next..] + ring'[..next] == (ring[i..] + ring[..i])[1..] + [x]
  {
    var ring' := ring[i := x];
    var next := if i + 1 < |ring| then i + 1 else 0;
    var a, b := ring'[next..] + ring'[..next], (ring[i..] + ring[..i])[1..] + [x];
    assert |a| == |b|;
    forall k | 0 <= k < |a|
      ensures a[k] == b[k]
    {
      if i + 1 < |ring| {
      } else {
        assert next == 0;
      }
    }
  }

  /** The two windows of a device. */
  class Stats {
    const uiRssi: SmoothData
    const uiLinkQuality: SmoothData
    var signalStrength: int
    var signalQuality: nat

    ghost predicate Valid()
      reads this, uiRssi, uiRssi.elements, uiLinkQuality, uiLinkQuality.elements
    {
      && uiRssi != uiLinkQuality && uiRssi.elements != uiLinkQuality.elements
      && uiRssi.Valid() && uiRssi.window == RSSI_WINDOW
      && uiLinkQuality.Valid() && uiLinkQuality.window == LINK_QUALITY_WINDOW
    }

    constructor ()
      ensures Valid() && uiRssi.history == [] && uiLinkQuality.history == []
    {
      uiRssi := new SmoothData(RSSI_WINDOW);
      uiLinkQuality := new SmoothData(LINK_QUALITY_WINDOW);
      signalStrength := 0;
      signalQuality := 0;
    }

    /** `rtl_process_ui_rssi`, as far as the window goes */
    method ProcessUiRssi(toSelf: bool, beacon: bool, signalStrength: nat)
      requires Valid()
      modifies this, uiRssi, uiRssi.elements
      ensures Valid()
      ensures uiRssi.history == if toSelf || beacon then old(uiRssi.history) + [signalStrength] else old(uiRssi.history)
      ensures if toSelf || beacon then
                var t := Tail(uiRssi.history, 100);
                t != [] && this.signalStrength == TranslateToDbm(Average(t))
              else this.signalStrength == old(this.signalStrength)
    {
      if !toSelf && !beacon {
        return;
      }
      var average := uiRssi.Add(signalStrength);
      this.signalStrength := TranslateToDbm(average);
    }

    /** `rtl_process_ui_link_quality`, as far as the window goes */
    method ProcessUiLinkQuality(signalQuality: nat)
      requires Valid()
      modifies this, uiLinkQuality, uiLinkQuality.elements
      ensures Valid()
      ensures uiLinkQuality.history == if signalQuality > 0 then old(uiLinkQuality.history) + [signalQuality] else old(uiLinkQuality.history)
      ensures if signalQuality > 0 then
                var t := Tail(uiLinkQuality.history, 20);
                t != [] && this.signalQuality == Average(t)
              else this.signalQuality == old(this.signalQuality)
    {
      if signalQuality == 0 {
        return;
      }
      this.signalQuality := uiLinkQuality.Add(signalQuality);
    }
  }

  /** Half a dB for each percent, rounded up, from -95 dBm at none to -45 dBm at a hundred. */
  lemma {:induction false} DbmScale(index: nat)
    ensures TranslateToDbm(0) == -95 && TranslateToDbm(100) == -45
    ensures index <= 2 * (TranslateToDbm(index) + 95) <= index + 1
  {
  }

  /** `rtl_translate_todbm` */
  function TranslateToDbm(index: nat): int {
    (index + 1) / 2 - 95
  }
}
