/** The order of 48-bit packet numbers. Its laws are proved from the highest digits down: a comparison of
    wide words is a comparison of their upper halves, or of their lower halves where the upper ones agree. */
module PacketNumbers {

  predicate Less(a: bv48, b: bv48) { a < b }

  /** A number that the replay check refuses. */
  predicate Replayed(pn: bv48, rxSeq: bv48) { pn <= rxSeq }

  function Upper24(a: bv48): bv48 { a >> 24 }
  function Lower24(a: bv48): bv48 { a & 0xff_ffff }
  function Upper12(a: bv48): bv48 { a >> 12 }
  function Lower12(a: bv48): bv48 { a & 0xfff }

  lemma {:induction false} NotReplayed(pn: bv48, rxSeq: bv48)
    ensures Replayed(pn, rxSeq) <==> !Less(rxSeq, pn)
  {
  }

  lemma {:induction false} LessAsymmetric(a: bv48, b: bv48)
    requires Less(a, b)
    ensures !Less(b, a) && a != b
  {
  }

  // ---------------------------------------------------------------------------------------------
  // One digit of twelve bits

  predicate Digit(a: bv48) { a <= 0xfff }
  predicate TwoDigits(a: bv48) { a <= 0xff_ffff }

  lemma {:induction false} DigitOrder(a: bv48, b: bv48)
    requires Digit(a) && Digit(b)
    ensures Less(a, b) || a == b || Less(b, a)
  {
  }

  lemma {:induction false} DigitTransitive(a: bv48, b: bv48, c: bv48)
    requires Digit(a) && Digit(b) && Digit(c) && Less(a, b) && Less(b, c)
    ensures Less(a, c)
  {
  }

  // ---------------------------------------------------------------------------------------------
  // Two digits

  lemma {:induction false} Digits(a: bv48)
    requires TwoDigits(a)
    ensures Digit(Upper12(a)) && Digit(Lower12(a))
  {
  }

  lemma {:induction false} SameUpper12(a: bv48, b: bv48)
    requires Upper12(a) == Upper12(b)
    ensures Less(a, b) <==> Less(Lower12(a), Lower12(b))
    ensures a == b <==> Lower12(a) == Lower12(b)
  {
  }

  lemma {:induction false} LessUpper12(a: bv48, b: bv48)
    requires Less(Upper12(a), Upper12(b))
    ensures Less(a, b)
  {
  }

  lemma {:induction false} TwoDigitsSplit(a: bv48, b: bv48)
    requires TwoDigits(a) && TwoDigits(b)
    ensures Less(a, b) <==>
            Less(Upper12(a), Upper12(b)) || (Upper12(a) == Upper12(b) && Less(Lower12(a), Lower12(b)))
    ensures Less(a, b) || a == b || Less(b, a)
  {
    hide *;
    Digits(a);
    Digits(b);
    DigitOrder(Upper12(a), Upper12(b));
    DigitOrder(Lower12(a), Lower12(b));
    if Less(Upper12(a), Upper12(b)) {
      LessUpper12(a, b);
    } else if Less(Upper12(b), Upper12(a)) {
      LessUpper12(b, a);
      LessAsymmetric(b, a);
    } else {
      SameUpper12(a, b);
      SameUpper12(b, a);
    }
  }

  lemma {:induction false} TwoDigitsTransitive(a: bv48, b: bv48, c: bv48)
    requires TwoDigits(a) && TwoDigits(b) && TwoDigits(c) && Less(a, b) && Less(b, c)
    ensures Less(a, c)
  {
    hide *;
    Digits(a);
    Digits(b);
    Digits(c);
    TwoDigitsSplit(a, b);
    TwoDigitsSplit(b, c);
    TwoDigitsSplit(a, c);
    if Less(Upper12(a), Upper12(b)) && Less(Upper12(b), Upper12(c)) {
      DigitTransitive(Upper12(a), Upper12(b), Upper12(c));
    }
    if Less(Lower12(a), Lower12(b)) && Less(Lower12(b), Lower12(c)) {
      DigitTransitive(Lower12(a), Lower12(b), Lower12(c));
    }
  }

  // ---------------------------------------------------------------------------------------------
  // The whole number

  lemma {:induction false} Halves(a: bv48)
    ensures TwoDigits(Upper24(a)) && TwoDigits(Lower24(a))
  {
  }

  lemma {:induction false} SameUpper24(a: bv48, b: bv48)
    requires Upper24(a) == Upper24(b)
    ensures Less(a, b) <==> Less(Lower24(a), Lower24(b))
    ensures a == b <==> Lower24(a) == Lower24(b)
  {
  }

  lemma {:induction false} LessUpper24(a: bv48, b: bv48)
    requires Less(Upper24(a), Upper24(b))
    ensures Less(a, b)
  {
  }

  /** Any two numbers compare, and they compare by their halves. */
  lemma {:induction false} LessSplit(a: bv48, b: bv48)
    ensures Less(a, b) <==>
            Less(Upper24(a), Upper24(b)) || (Upper24(a) == Upper24(b) && Less(Lower24(a), Lower24(b)))
    ensures Less(a, b) || a == b || Less(b, a)
  {
    hide *;
    Halves(a);
    Halves(b);
    TwoDigitsSplit(Upper24(a), Upper24(b));
    TwoDigitsSplit(Lower24(a), Lower24(b));
    if Less(Upper24(a), Upper24(b)) {
      LessUpper24(a, b);
    } else if Less(Upper24(b), Upper24(a)) {
      LessUpper24(b, a);
      LessAsymmetric(b, a);
    } else {
      SameUpper24(a, b);
      SameUpper24(b, a);
    }
  }

  lemma {:induction false} LessTransitive(a: bv48, b: bv48, c: bv48)
    requires Less(a, b) && Less(b, c)
    ensures Less(a, c)
  {
    hide *;
    Halves(a);
    Halves(b);
    Halves(c);
    LessSplit(a, b);
    LessSplit(b, c);
    LessSplit(a, c);
    if Less(Upper24(a), Upper24(b)) && Less(Upper24(b), Upper24(c)) {
      TwoDigitsTransitive(Upper24(a), Upper24(b), Upper24(c));
    }
    if Less(Lower24(a), Lower24(b)) && Less(Lower24(b), Lower24(c)) {
      TwoDigitsTransitive(Lower24(a), Lower24(b), Lower24(c));
    }
  }

  /** At most, then at most. */
  lemma {:induction false} AtMostTransitive(a: bv48, b: bv48, c: bv48)
    requires (a == b || Less(a, b)) && (b == c || Less(b, c))
    ensures a == c || Less(a, c)
    ensures a != b || b != c ==> Less(a, c)
  {
    hide *;
    if Less(a, b) && Less(b, c) {
      LessTransitive(a, b, c);
    }
  }

  const LAST_PN: bv48 := 0xffff_ffff_ffff

  function Next(pn: bv48): bv48 { pn + 1 }

  lemma {:induction false} NextIsLarger(pn: bv48)
    requires pn != LAST_PN
    ensures Less(pn, Next(pn))
  {
  }

  /** Counting up leaves no number out, and no number is behind the last. */
  lemma {:induction false} NextIsNext(pn: bv48, other: bv48)
    ensures Less(pn, other) ==> pn != LAST_PN && !Less(other, Next(pn))
  {
  }
}
