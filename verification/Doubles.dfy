/** The real number that the bit pattern of a double stands for. */
module Doubles {
  import opened Values

  // 2^n, for negative n too.
  function Exp2(n: int): (r: real)
    ensures r > 0.0
    decreases if n < 0 then -n else n
  {
    if n == 0 then 1.0 else if n > 0 then 2.0 * Exp2(n - 1) else Exp2(n + 1) / 2.0
  }

  const FRACTIONS: nat := 0x10_0000_0000_0000

  // A fraction of 52 bits and, for a pattern of 64 bits, an exponent of 11.
  function ExponentBits(magnitude: nat): nat { magnitude / FRACTIONS }
  function FractionBits(magnitude: nat): nat { magnitude % FRACTIONS }

  function Part(f: nat): real { f as real / FRACTIONS as real }

  function Times(x: real, y: real): real { x * y }

  // 0.f * 2^-1022 where the exponent bits are zero, else 1.f * 2^(e - 1023).
  function Scaled(e: nat, f: nat): real {
    if e == 0 then Times(Part(f), Exp2(-1022)) else Times(1.0 + Part(f), Exp2(e - 1023))
  }

  // The value of a double that is not a NaN; an infinity stands where 2^1024 would.
  function RealOf(bits: nat): real {
    var negative := bits >= 0x8000_0000_0000_0000;
    var magnitude := if negative then bits - 0x8000_0000_0000_0000 else bits;
    var r := Scaled(ExponentBits(magnitude), FractionBits(magnitude));
    if negative then -r else r
  }

  // ---- Greater patterns are greater magnitudes ----

  lemma {:induction false} Exp2Step(n: int)
    ensures Exp2(n + 1) == 2.0 * Exp2(n)
  {
  }

  lemma {:induction false} Exp2Grows(a: int, b: int)
    requires a <= b
    ensures Exp2(a) <= Exp2(b)
    decreases b - a
  {
    hide Exp2;
    if a < b {
      Exp2Step(b - 1);
      Exp2Grows(a, b - 1);
    }
  }

  lemma TimesGrows(x: real, y: real, z: real)
    requires z > 0.0
    ensures (x < y ==> Times(x, z) < Times(y, z)) && (x <= y ==> Times(x, z) <= Times(y, z))
  {
  }

  lemma PartGrows(f: nat, g: nat)
    ensures (f < g ==> Part(f) < Part(g)) && 0.0 <= Part(f) && (f < FRACTIONS ==> Part(f) < 1.0)
  {
  }

  lemma Between(part: real, unit: real)
    requires 0.0 <= part < 1.0 && unit > 0.0
    ensures 0.0 <= Times(part, unit) < unit && unit <= Times(1.0 + part, unit) < 2.0 * unit
  {
    hide Times;
    TimesGrows(0.0, part, unit);
    TimesGrows(part, 1.0, unit);
    TimesGrows(1.0, 1.0 + part, unit);
    TimesGrows(1.0 + part, 2.0, unit);
    Multiples(unit);
  }

  lemma Multiples(unit: real)
    ensures Times(0.0, unit) == 0.0 && Times(1.0, unit) == unit && Times(2.0, unit) == 2.0 * unit
  {
  }

  // All values of one exponent lie below all values of the next.
  lemma ScaledRange(e: nat, f: nat)
    requires f < FRACTIONS
    ensures 0.0 <= Scaled(e, f)
    ensures e == 0 ==> Scaled(e, f) < Exp2(-1022)
    ensures e > 0 ==> Exp2(e - 1023) <= Scaled(e, f) < Exp2(e - 1022)
  {
    hide Exp2, Part, Times;
    PartGrows(f, f);
    Between(Part(f), Exp2(if e == 0 then -1022 else e - 1023));
    Exp2Step(e - 1023);
    assert e - 1023 + 1 == e - 1022;
  }

  lemma ScaledGrows(e: nat, f: nat, e': nat, f': nat)
    requires f < FRACTIONS && f' < FRACTIONS && (e < e' || (e == e' && f < f'))
    ensures Scaled(e, f) < Scaled(e', f')
  {
    hide Exp2, Part, Times;
    if e < e' {
      hide Scaled;
      ScaledRange(e, f);
      ScaledRange(e', f');
      Exp2Grows(if e == 0 then -1022 else e - 1022, e' - 1023);
    } else {
      PartGrows(f, f');
      if e == 0 {
        TimesGrows(Part(f), Part(f'), Exp2(-1022));
      } else {
        TimesGrows(1.0 + Part(f), 1.0 + Part(f'), Exp2(e - 1023));
      }
    }
  }

  lemma FieldsGrow(a: nat, b: nat)
    requires a < b
    ensures ExponentBits(a) < ExponentBits(b)
            || (ExponentBits(a) == ExponentBits(b) && FractionBits(a) < FractionBits(b))
  {
    assert a == FRACTIONS * ExponentBits(a) + FractionBits(a) && b == FRACTIONS * ExponentBits(b) + FractionBits(b);
  }

  lemma MagnitudeGrows(a: nat, b: nat)
    requires a < b
    ensures 0.0 <= Scaled(ExponentBits(a), FractionBits(a)) < Scaled(ExponentBits(b), FractionBits(b))
  {
    hide Scaled;
    FieldsGrow(a, b);
    ScaledRange(ExponentBits(a), FractionBits(a));
    ScaledGrows(ExponentBits(a), FractionBits(a), ExponentBits(b), FractionBits(b));
  }

  lemma NoMagnitude()
    ensures Scaled(ExponentBits(0), FractionBits(0)) == 0.0
  {
    hide Exp2;
  }

  lemma RankGrows(a: nat, b: nat)
    requires Rank(a) < Rank(b)
    ensures RealOf(a) < RealOf(b)
  {
    hide Scaled, ExponentBits, FractionBits;
    NoMagnitude();
    var x := if a < SIGN then a else a - SIGN;
    var y := if b < SIGN then b else b - SIGN;
    if x < y { MagnitudeGrows(x, y); }
    if y < x { MagnitudeGrows(y, x); }
    if 0 < x { MagnitudeGrows(0, x); }
    if 0 < y { MagnitudeGrows(0, y); }
  }

  lemma RankSame(a: nat, b: nat)
    requires Rank(a) == Rank(b)
    ensures RealOf(a) == RealOf(b)
  {
    hide Scaled, ExponentBits, FractionBits;
    NoMagnitude();
  }

  // Comparing ranks is comparing numbers; in particular the two zeros are equal.
  lemma RankIsReal(a: nat, b: nat)
    ensures Rank(a) < Rank(b) <==> RealOf(a) < RealOf(b)
    ensures Rank(a) == Rank(b) <==> RealOf(a) == RealOf(b)
  {
    hide RealOf, Rank;
    if Rank(a) < Rank(b) {
      RankGrows(a, b);
    } else if Rank(b) < Rank(a) {
      RankGrows(b, a);
    } else {
      RankSame(a, b);
    }
  }
}
