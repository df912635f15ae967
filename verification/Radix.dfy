/**
 Base-a positional arithmetic, as used to address an entry of an indirect block.
 Offsets are defined by repeated addition, the way the kernel's loops step over
 the entries; IsProduct, IsPower and IsDivMod tie them to *, / and %.
 */
module Radix {

  function Max(x: nat, y: nat): nat
  {
    if x < y then y else x
  }

  /** The first offset of entry i when every entry covers inc offsets. */
  function Offset(i: nat, inc: nat): nat
  {
    if i == 0 then 0 else Offset(i - 1, inc) + inc
  }

  /** The number of offsets under a pointer of level n. */
  function Pow(a: nat, n: nat): nat
  {
    if n == 0 then 1 else Offset(a, Pow(a, n - 1))
  }

  function Digit(off: nat, inc: nat): nat
    requires inc > 0
  {
    if off < inc then 0 else 1 + Digit(off - inc, inc)
  }

  function Rest(off: nat, inc: nat): nat
    requires inc > 0
  {
    if off < inc then off else Rest(off - inc, inc)
  }

  lemma {:induction false} IsProduct(i: nat, inc: nat)
    ensures Offset(i, inc) == i * inc
  {
    if i > 0 {
      IsProduct(i - 1, inc);
      assert i * inc == (i - 1) * inc + inc;
    }
  }

  lemma IsPower(a: nat)
    ensures Pow(a, 0) == 1 && Pow(a, 1) == a && Pow(a, 2) == a * a && Pow(a, 3) == a * a * a
  {
    IsProduct(a, 1);
    IsProduct(a, a);
    IsProduct(a, a * a);
    assert Pow(a, 3) == Offset(a, Pow(a, 2));
  }

  lemma {:induction false} OffsetGrows(i: nat, j: nat, inc: nat)
    requires i < j
    ensures Offset(i, inc) + inc <= Offset(j, inc)
  {
    if i + 1 < j {
      OffsetGrows(i, j - 1, inc);
    }
  }

  lemma {:induction false} PowPositive(a: nat, n: nat)
    requires a > 0
    ensures Pow(a, n) > 0
  {
    if n > 0 {
      PowPositive(a, n - 1);
      OffsetGrows(0, a, Pow(a, n - 1));
    }
  }

  /** Every offset below a entries lies in exactly one of them. */
  lemma {:induction false} Split(off: nat, a: nat, inc: nat)
    requires inc > 0 && off < Offset(a, inc)
    ensures Digit(off, inc) < a && Rest(off, inc) < inc
    ensures off == Offset(Digit(off, inc), inc) + Rest(off, inc)
  {
    if off >= inc {
      Split(off - inc, a - 1, inc);
    }
  }

  lemma {:induction false} Join(i: nat, r: nat, inc: nat)
    requires r < inc
    ensures Digit(Offset(i, inc) + r, inc) == i && Rest(Offset(i, inc) + r, inc) == r
  {
    if i > 0 {
      Join(i - 1, r, inc);
    }
  }

  lemma DivModStep(off: nat, inc: nat)
    requires off >= inc > 0
    ensures off / inc == (off - inc) / inc + 1 && off % inc == (off - inc) % inc
  {
    var q, r := (off - inc) / inc, (off - inc) % inc;
    assert off == (q + 1) * inc + r;
    var d := off / inc - (q + 1);
    assert d * inc == r - off % inc;
    if d >= 1 {
      assert false;
    } else if d <= -1 {
      assert false;
    }
  }

  lemma {:induction false} IsDivMod(off: nat, inc: nat)
    requires inc > 0
    ensures Digit(off, inc) == off / inc && Rest(off, inc) == off % inc
  {
    if off >= inc {
      IsDivMod(off - inc, inc);
      DivModStep(off, inc);
    }
  }

  /** Peeling the last digit of a number off first, or its first digit first, gives the same digits. */
  lemma LastDigit(q: nat, a: nat, m: nat)
    requires a > 0 && m > 0
    ensures m * a > 0
    ensures q / (m * a) == (q / a) / m
    ensures q % (m * a) / a == (q / a) % m
    ensures q % (m * a) % a == q % a
  {
    var u, w := q / a, q % a;
    var d, r := u / m, u % m;
    var low := r * a + w;
    Below(r, w, m, a);
    assert q == u * a + w == d * (m * a) + low by {
      assert u * a == (d * m + r) * a == d * m * a + r * a;
      assert d * m * a == d * (m * a);
    }
    Digits(d, low, m * a);
    Digits(r, w, a);
  }

  lemma Below(r: nat, w: nat, m: nat, a: nat)
    requires r < m && w < a
    ensures r * a + w < m * a
  {
    assert (r + 1) * a <= m * a;
  }

  lemma Digits(d: nat, r: nat, m: nat)
    requires r < m
    ensures (d * m + r) / m == d && (d * m + r) % m == r
  {
    Join(d, r, m);
    IsProduct(d, m);
    IsDivMod(d * m + r, m);
  }
}
