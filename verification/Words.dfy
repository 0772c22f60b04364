/** Bytes, and machine-word operations by name, with the laws the ciphers and checksums rely on. */
module Words {

  /** A byte by its value, where nothing is done with its bits. */
  type Byte = n: nat | n < 256

  function Xor(a: bv32, b: bv32): bv32 { a ^ b }
  function Plus(a: bv32, b: bv32): bv32 { a + b }
  function Minus(a: bv32, b: bv32): bv32 { a - b }

  lemma {:induction false} XorUndone(a: bv32, b: bv32)
    ensures Xor(Xor(a, b), b) == a
  {
  }

  lemma {:induction false} PlusUndone(a: bv32, b: bv32)
    ensures Minus(Plus(a, b), b) == a
  {
    calc {
      Minus(Plus(a, b), b);
      Minus(a + b, b);
      a + b - b;
      a;
    }
  }

  lemma {:induction false} MinusUndone(a: bv32, b: bv32)
    ensures Plus(Minus(a, b), b) == a
  {
    calc {
      Plus(Minus(a, b), b);
      Plus(a - b, b);
      a - b + b;
      a;
    }
  }

  function Xor16(a: bv16, b: bv16): bv16 { a ^ b }
  function Plus16(a: bv16, b: bv16): bv16 { a + b }
  function Minus16(a: bv16, b: bv16): bv16 { a - b }

  lemma {:induction false} Xor16Commutes(a: bv16, b: bv16)
    ensures Xor16(a, b) == Xor16(b, a)
  {
  }

  lemma {:induction false} Xor16Associates(a: bv16, b: bv16, c: bv16)
    ensures Xor16(Xor16(a, b), c) == Xor16(a, Xor16(b, c))
  {
  }

  lemma {:induction false} Xor16Self(a: bv16)
    ensures Xor16(a, a) == 0
  {
  }

  lemma {:induction false} Xor16Zero(a: bv16)
    ensures Xor16(a, 0) == a
  {
  }

  lemma {:induction false} Xor16Cancels(a: bv16, b: bv16, c: bv16)
    requires Xor16(a, c) == Xor16(b, c)
    ensures a == b
  {
    hide Xor16;
    Xor16Associates(a, c, c);
    Xor16Associates(b, c, c);
    Xor16Self(c);
    Xor16Zero(a);
    Xor16Zero(b);
  }

  /** Two sums of two, regrouped. */
  lemma {:induction false} Xor16Swap(a: bv16, b: bv16, c: bv16, d: bv16)
    ensures Xor16(Xor16(a, b), Xor16(c, d)) == Xor16(Xor16(a, c), Xor16(b, d))
  {
    hide Xor16;
    calc {
      Xor16(Xor16(a, b), Xor16(c, d));
      { Xor16Associates(a, b, Xor16(c, d)); }
      Xor16(a, Xor16(b, Xor16(c, d)));
      { Xor16Associates(b, c, d); }
      Xor16(a, Xor16(Xor16(b, c), d));
      { Xor16Commutes(b, c); }
      Xor16(a, Xor16(Xor16(c, b), d));
      { Xor16Associates(c, b, d); }
      Xor16(a, Xor16(c, Xor16(b, d)));
      { Xor16Associates(a, c, Xor16(b, d)); }
      Xor16(Xor16(a, c), Xor16(b, d));
    }
  }

  lemma {:induction false} Plus16Undone(a: bv16, f: bv16)
    ensures Minus16(Plus16(a, f), f) == a
  {
    calc {
      Minus16(Plus16(a, f), f);
      Minus16(a + f, f);
      a + f - f;
      a;
    }
  }

  lemma {:induction false} Plus16Commutes(a: bv16, b: bv16)
    ensures Plus16(a, b) == Plus16(b, a)
  {
    calc {
      Plus16(a, b);
      a + b;
      b + a;
      Plus16(b, a);
    }
  }

  lemma {:induction false} Plus16Cancels(a: bv16, b: bv16, f: bv16)
    requires Plus16(a, f) == Plus16(b, f)
    ensures a == b
  {
    hide Plus16, Minus16;
    Plus16Undone(a, f);
    Plus16Undone(b, f);
  }
}
