/** formatBytes of sizeOfInterface.go: sizes below 1024 print as "<n> B";
    larger ones pick the largest power 1024^(exp+1) not above the size and
    the unit letter "kMGTPE"[exp]. The one-decimal mantissa (a float
    division) is not modelled; the result carries the divisor instead. */
module ByteUnits {
  import opened Seqs
  import opened GoArith

  const Unit := 1024
  /** Exclusive upper bound of a 64-bit uintptr. */
  const SizeBound := 0x1_0000_0000_0000_0000

  function Pow(b: nat, e: nat): (r: nat)
    ensures b > 0 ==> r > 0
  {
    if e == 0 then 1 else b * Pow(b, e - 1)
  }

  lemma PowMonotone(e1: nat, e2: nat)
    requires e1 < e2
    ensures Pow(Unit, e1) < Pow(Unit, e2)
    decreases e2
  {
    if e1 < e2 - 1 {
      PowMonotone(e1, e2 - 1);
    }
  }

  /** One round of the loop keeps the size between div * n and
      div * (n + 1). */
  lemma ScaleStep(size: nat, div: nat, n: nat)
    requires n >= Unit && div * n <= size < div * (n + 1)
    ensures (div * Unit) * (n / Unit) <= size < (div * Unit) * (n / Unit + 1)
    ensures n / Unit >= 1
  {
    var m := n / Unit;
    MulMonotone(div, Unit * m, n);
    MulMonotone(div, n + 1, Unit * m + Unit);
    assert div * (Unit * m) == (div * Unit) * m;
    assert div * (Unit * m + Unit) == (div * Unit) * (m + 1);
  }

  lemma ScaleDone(size: nat, div: nat, n: nat)
    requires 1 <= n < Unit && div * n <= size < div * (n + 1)
    ensures div <= size < Unit * div
  {
    MulMonotone(div, 1, n);
    MulMonotone(div, n + 1, Unit);
  }

  /** A 64-bit size stays below 1024^7 = 2^70, so exp is at most 5. */
  lemma ExponentBound(size: nat, exp: nat)
    requires size < SizeBound && Pow(Unit, exp + 1) <= size
    ensures exp <= 5
  {
    PowAtLeast(exp + 1);
  }

  lemma {:induction false} PowAtLeast(e: nat)
    ensures e >= 7 ==> Pow(Unit, e) >= 1024 * SizeBound / 16
  {
    if e > 7 {
      PowAtLeast(e - 1);
    } else if e == 7 {
      assert Pow(Unit, 2) == 1024 * 1024;
      assert Pow(Unit, 4) == 1024 * 1024 * 1024 * 1024;
      assert Pow(Unit, 7) == 1024 * 1024 * 1024 * Pow(Unit, 4);
    }
  }

  datatype Formatted =
    | Plain(text: string)
    | Scaled(div: nat, exp: nat, unit: string)

  method FormatBytes(size: nat) returns (r: Formatted)
    requires size < SizeBound
    ensures size < Unit ==> r == Plain(Decimal(size) + " B")
    ensures size >= Unit ==>
      r.Scaled? && r.exp <= 5 && r.div == Pow(Unit, r.exp + 1)
      && r.div <= size < Unit * r.div
      && r.unit == ["kMGTPE"[r.exp], 'B']
  {
    if size < Unit {
      return Plain(Decimal(size) + " B");
    }
    var div, exp := Unit, 0;
    var n := size / Unit;
    while n >= Unit
      invariant div == Pow(Unit, exp + 1) && n >= 1
      invariant div * n <= size < div * (n + 1)
      decreases n
    {
      ScaleStep(size, div, n);
      div := div * Unit;
      exp := exp + 1;
      n := n / Unit;
    }
    ScaleDone(size, div, n);
    ExponentBound(size, exp);
    r := Scaled(div, exp, ["kMGTPE"[exp], 'B']);
  }

  /** The exponent is the only one whose power range holds the size, so the
      loop picks the largest power that fits. */
  lemma ExponentUnique(size: nat, e1: nat, e2: nat)
    requires Pow(Unit, e1 + 1) <= size < Unit * Pow(Unit, e1 + 1)
    requires Pow(Unit, e2 + 1) <= size < Unit * Pow(Unit, e2 + 1)
    ensures e1 == e2
  {
    if e1 < e2 {
      PowMonotone(e1 + 1, e2 + 1);
      assert Unit * Pow(Unit, e1 + 1) == Pow(Unit, e1 + 2);
      if e1 + 2 < e2 + 1 {
        PowMonotone(e1 + 2, e2 + 1);
      }
    } else if e2 < e1 {
      PowMonotone(e2 + 1, e1 + 1);
      assert Unit * Pow(Unit, e2 + 1) == Pow(Unit, e2 + 2);
      if e2 + 2 < e1 + 1 {
        PowMonotone(e2 + 2, e1 + 1);
      }
    }
  }
}
