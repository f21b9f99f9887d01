/** Positional numerals, most significant digit first. */
module Numerals {
  function Pow(base: nat, e: nat): nat {
    if e == 0 then 1 else base * Pow(base, e - 1)
  }

  predicate AreDigits(ds: seq<nat>, base: nat) { forall i :: 0 <= i < |ds| ==> ds[i] < base }

  function Value(ds: seq<nat>, base: nat): nat {
    if ds == [] then 0 else Value(ds[..|ds| - 1], base) * base + ds[|ds| - 1]
  }

  /** The shortest numeral of `n`; zero is written with one digit. */
  function Shortest(n: nat, base: nat): seq<nat>
    requires 2 <= base
  {
    Quotient(n, base);
    if n < base then [n] else Shortest(n / base, base) + [n % base]
  }

  /** The numeral of `n` on exactly `width` digits (of `n` modulo base^width). */
  function Fixed(n: nat, base: nat, width: nat): seq<nat>
    requires 2 <= base
  {
    if width == 0 then [] else Fixed(n / base, base, width - 1) + [n % base]
  }

  function Zeros(n: nat): seq<nat> { seq(n, _ => 0) }

  lemma MulMonotone(a: nat, b: nat, c: nat)
    requires a <= b
    ensures a * c <= b * c
  {}

  lemma DivMod(q: nat, r: nat, base: nat)
    requires r < base
    ensures (q * base + r) / base == q && (q * base + r) % base == r
  {
    var n := q * base + r;
    var q' := n / base;
    if q < q' { MulMonotone(q + 1, q', base); assert false; }
    if q' < q { MulMonotone(q' + 1, q, base); assert false; }
  }

  lemma Quotient(n: nat, base: nat)
    requires 2 <= base
    ensures 0 <= n / base && n == (n / base) * base + n % base && 0 <= n % base < base
    ensures base <= n ==> n / base < n
  {}

  lemma PowPositive(base: nat, e: nat)
    requires 1 <= base
    ensures Pow(base, e) >= 1
  {}

  lemma {:induction false} PowAdd(base: nat, a: nat, b: nat)
    ensures Pow(base, a + b) == Pow(base, a) * Pow(base, b)
  {
    if a > 0 {
      PowAdd(base, a - 1, b);
      MulAssociates(base, Pow(base, a - 1), Pow(base, b));
      assert Pow(base, a + b) == base * Pow(base, a - 1 + b);
    } else {
      assert Pow(base, 0) == 1;
    }
  }

  lemma MulAssociates(x: nat, y: nat, z: nat)
    ensures x * (y * z) == (x * y) * z
  {}

  lemma {:induction false} ValueBelow(ds: seq<nat>, base: nat)
    requires 2 <= base && AreDigits(ds, base)
    ensures Value(ds, base) < Pow(base, |ds|)
  {
    if ds != [] {
      var init := ds[..|ds| - 1];
      ValueBelow(init, base);
      assert Value(init, base) * base <= (Pow(base, |init|) - 1) * base;
    }
  }

  lemma {:induction false} FixedShape(n: nat, base: nat, width: nat)
    requires 2 <= base
    ensures |Fixed(n, base, width)| == width && AreDigits(Fixed(n, base, width), base)
  {
    if width > 0 { FixedShape(n / base, base, width - 1); }
  }

  lemma QuotientBelow(n: nat, base: nat, p: nat)
    requires 2 <= base
    ensures n < base * p <==> n / base < p
  {
    var q := n / base;
    if q < p {
      MulMonotone(q + 1, p, base);
    } else {
      MulMonotone(p, q, base);
    }
  }

  /** Writing a number on `width` digits and reading it back. */
  lemma {:induction false} ValueOfFixed(n: nat, base: nat, width: nat)
    requires 2 <= base && n < Pow(base, width)
    ensures Value(Fixed(n, base, width), base) == n
  {
    if width > 0 {
      QuotientBelow(n, base, Pow(base, width - 1));
      Quotient(n, base);
      var q := n / base;
      ValueOfFixed(q, base, width - 1);
      var ds := Fixed(n, base, width);
      assert ds[..|ds| - 1] == Fixed(q, base, width - 1);
    }
  }

  /** Reading a numeral and writing its value back on as many digits. */
  lemma {:induction false} FixedOfValue(ds: seq<nat>, base: nat)
    requires 2 <= base && AreDigits(ds, base)
    ensures Fixed(Value(ds, base), base, |ds|) == ds
  {
    if ds != [] {
      var init, last := ds[..|ds| - 1], ds[|ds| - 1];
      DivMod(Value(init, base), last, base);
      FixedOfValue(init, base);
    }
  }

  /** The shortest numeral fits `width` digits exactly when the number is below base^width. */
  lemma {:induction false} ShortestFits(n: nat, base: nat, width: nat)
    requires 2 <= base && width >= 1
    ensures |Shortest(n, base)| <= width <==> n < Pow(base, width)
  {
    Quotient(n, base);
    var p := Pow(base, width - 1);
    PowPositive(base, width - 1);
    QuotientBelow(n, base, p);
    if n < base {
      MulMonotone(1, p, base);
    } else if width > 1 {
      ShortestFits(n / base, base, width - 1);
    }
  }

  lemma {:induction false} FixedOfZero(base: nat, width: nat)
    requires 2 <= base
    ensures Fixed(0, base, width) == Zeros(width)
  {
    if width > 0 { FixedOfZero(base, width - 1); }
  }

  /** Padding the shortest numeral on the left gives the fixed-width one. */
  lemma {:induction false} PaddedIsFixed(n: nat, base: nat, width: nat)
    requires 2 <= base && |Shortest(n, base)| <= width
    ensures Zeros(width - |Shortest(n, base)|) + Shortest(n, base) == Fixed(n, base, width)
  {
    Quotient(n, base);
    if n < base {
      assert Fixed(n, base, width) == Fixed(0, base, width - 1) + [n] by { DivMod(0, n, base); }
      FixedOfZero(base, width - 1);
    } else {
      PaddedIsFixed(n / base, base, width - 1);
      assert Shortest(n, base) == Shortest(n / base, base) + [n % base];
    }
  }

  /** The leading digit brackets the value. */
  lemma {:induction false} LeadingDigit(ds: seq<nat>, base: nat)
    requires 2 <= base && AreDigits(ds, base) && ds != []
    ensures ds[0] * Pow(base, |ds| - 1) <= Value(ds, base) < (ds[0] + 1) * Pow(base, |ds| - 1)
  {
    var init, last := ds[..|ds| - 1], ds[|ds| - 1];
    if |ds| > 1 {
      LeadingDigit(init, base);
      Shift(ds[0], Value(init, base), last, base, Pow(base, |ds| - 2));
    }
  }

  lemma Shift(d: nat, v: nat, last: nat, base: nat, p: nat)
    requires last < base && d * p <= v < (d + 1) * p
    ensures d * (base * p) <= v * base + last < (d + 1) * (base * p)
  {
    MulMonotone(v + 1, (d + 1) * p, base);
  }
}
