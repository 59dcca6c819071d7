/** The binary field GF(2^128) of section 6.3 of NIST SP 800-38D, on bit strings: index 0 is the
    leftmost bit, the coefficient of 1. */
module Field {

  function Falses(n: nat): (r: seq<bool>)
    ensures |r| == n
  {
    seq(n, i => false)
  }

  type Element = s: seq<bool> | |s| == 128 witness Falses(128)

  const ZERO: Element := Falses(128)
  const ONE: Element := seq(128, i => i == 0)

  /** Addition: bitwise exclusive or, of strings of any one length. */
  function Add(a: seq<bool>, b: seq<bool>): (r: seq<bool>)
    requires |a| == |b|
    ensures |r| == |a|
  {
    seq(|a|, i requires 0 <= i < |a| => a[i] != b[i])
  }

  /** The set bits of R = 11100001 || 0^120. */
  predicate InR(i: int) {
    i == 0 || i == 1 || i == 2 || i == 7
  }

  /** One step of the V sequence: a right shift, plus R when the bit shifted out is set. */
  function Mulx(v: Element): Element {
    seq(128, i requires 0 <= i < 128 => (i > 0 && v[i - 1]) != (InR(i) && v[127]))
  }

  function Times(c: bool, v: Element): Element {
    if c then v else ZERO
  }

  /** Algorithm 1 of SP 800-38D for an `x` of any length: the V of every set bit of `x`, summed. */
  function Mul(x: seq<bool>, v: Element): Element {
    if x == [] then ZERO else Add(Times(x[0], v), Mul(x[1..], Mulx(v)))
  }

  /** The step V := V * x, taken `n` times. */
  function MulxN(v: Element, n: nat): Element {
    if n == 0 then v else Mulx(MulxN(v, n - 1))
  }

  lemma AddZero(a: Element)
    ensures Add(a, ZERO) == a == Add(ZERO, a)
  {
  }

  lemma AddExchanges(a: Element, b: Element, c: Element, d: Element)
    ensures Add(Add(a, b), Add(c, d)) == Add(Add(a, c), Add(b, d))
  {
  }

  lemma MulxLinear(a: Element, b: Element)
    ensures Mulx(Add(a, b)) == Add(Mulx(a), Mulx(b))
    ensures Mulx(ZERO) == ZERO
  {
  }

  lemma {:induction false} MulxNLinear(a: Element, b: Element, n: nat)
    ensures MulxN(Add(a, b), n) == Add(MulxN(a, n), MulxN(b, n))
    ensures MulxN(ZERO, n) == ZERO
  {
    if n > 0 {
      MulxNLinear(a, b, n - 1);
      MulxLinear(MulxN(a, n - 1), MulxN(b, n - 1));
    }
  }

  lemma {:induction false} MulxNShift(v: Element, n: nat)
    ensures MulxN(Mulx(v), n) == Mulx(MulxN(v, n))
  {
    if n > 0 {
      MulxNShift(v, n - 1);
    }
  }

  /** The product is linear in its second factor. */
  lemma {:induction false} MulLinear(x: seq<bool>, a: Element, b: Element)
    ensures Mul(x, Add(a, b)) == Add(Mul(x, a), Mul(x, b))
    ensures Mul(x, ZERO) == ZERO
  {
    AddZero(ZERO);
    MulxLinear(a, b);
    if x == [] {
    } else {
      MulLinear(x[1..], Mulx(a), Mulx(b));
      AddExchanges(Times(x[0], a), Times(x[0], b), Mul(x[1..], Mulx(a)), Mul(x[1..], Mulx(b)));
    }
  }

  /** The product is linear in its first factor. */
  lemma {:induction false} MulAdds(x: seq<bool>, y: seq<bool>, v: Element)
    requires |x| == |y|
    ensures Mul(Add(x, y), v) == Add(Mul(x, v), Mul(y, v))
  {
    AddZero(ZERO);
    if x == [] {
    } else {
      var s := Add(x, y);
      assert s[1..] == Add(x[1..], y[1..]);
      MulAdds(x[1..], y[1..], Mulx(v));
      AddExchanges(Times(x[0], v), Mul(x[1..], Mulx(v)), Times(y[0], v), Mul(y[1..], Mulx(v)));
      assert Times(s[0], v) == Add(Times(x[0], v), Times(y[0], v));
    }
  }

  lemma {:induction false} MulMulx(x: seq<bool>, v: Element)
    ensures Mul(x, Mulx(v)) == Mulx(Mul(x, v))
  {
    MulxLinear(ZERO, ZERO);
    if x == [] {
    } else {
      MulMulx(x[1..], Mulx(v));
      MulxLinear(Times(x[0], v), Mul(x[1..], Mulx(v)));
    }
  }

  /** Horner's rule: the product by a concatenation needs the second part only once, shifted. */
  lemma {:induction false} MulConcat(x: seq<bool>, y: seq<bool>, v: Element)
    ensures Mul(x + y, v) == Add(Mul(x, v), MulxN(Mul(y, v), |x|))
  {
    if x == [] {
      assert x + y == y;
      AddZero(Mul(y, v));
    } else {
      assert (x + y)[1..] == x[1..] + y;
      MulConcat(x[1..], y, Mulx(v));
      MulMulx(y, v);
      MulxNShift(Mul(y, v), |x| - 1);
      var t, p, q := Times(x[0], v), Mul(x[1..], Mulx(v)), MulxN(Mul(y, v), |x|);
      assert Add(t, Add(p, q)) == Add(Add(t, p), q);
    }
  }

  lemma {:induction false} MulCommutesAtOne(b: seq<bool>, c: seq<bool>)
    ensures Mul(b, Mul(c, ONE)) == Mul(c, Mul(b, ONE))
  {
    MulLinear(c, ZERO, ZERO);
    if b == [] {
    } else {
      MulCommutesAtOne(b[1..], c);
      MulMulx(b[1..], Mul(c, ONE));
      MulMulx(b[1..], ONE);
      MulMulx(c, Mul(b[1..], ONE));
      MulLinear(c, Times(b[0], ONE), Mulx(Mul(b[1..], ONE)));
    }
  }

  /** The single bit `i`: what ONE becomes after `i` steps, none of which shifts a bit out. */
  lemma {:induction false} MulxNOne(n: nat, i: nat)
    requires n < 128 && i < 128
    ensures MulxN(ONE, n)[i] == (i == n)
  {
    if n > 0 {
      MulxNOne(n - 1, 127);
      if i > 0 {
        MulxNOne(n - 1, i - 1);
      }
    }
  }

  /** ONE is a right unit, one suffix of the factor at a time. */
  lemma {:induction false} MulSuffixOne(x: seq<bool>, n: nat)
    requires |x| + n == 128
    ensures Mul(x, MulxN(ONE, n)) == Falses(n) + x
  {
    if x == [] {
      assert Falses(128) + x == ZERO;
    } else {
      MulSuffixOne(x[1..], n + 1);
      forall i | 0 <= i < 128 ensures Times(x[0], MulxN(ONE, n))[i] == (x[0] && i == n) {
        MulxNOne(n, i);
      }
      assert Add(Times(x[0], MulxN(ONE, n)), Falses(n + 1) + x[1..]) == Falses(n) + x;
    }
  }

  lemma MulOne(x: Element)
    ensures Mul(x, ONE) == x
  {
    MulSuffixOne(x, 0);
    assert Falses(0) + x == x;
  }

  /** The product of the field is commutative. */
  lemma MulCommutes(x: Element, y: Element)
    ensures Mul(x, y) == Mul(y, x)
  {
    MulCommutesAtOne(x, y);
    MulOne(x);
    MulOne(y);
  }

  /** Bit `i` of what the bits of `t` leave behind when they are shifted out one by one, the last bit
      of `t` first: a copy of R for every set bit, moved by the steps that follow. */
  predicate Spill(t: seq<bool>, i: int) {
    t != [] && (t[0] && InR(i)) != Spill(t[1..], i - 1)
  }

  lemma {:induction false} SpillRange(t: seq<bool>, i: int)
    requires i < 0 || i > |t| + 7
    ensures !Spill(t, i)
  {
    if t != [] && 0 <= i {
      SpillRange(t[1..], i - 1);
    } else if t != [] {
      SpillRange(t[1..], i - 1);
    }
  }

  /** Up to eight steps at once: a shift by `n` places, plus what the last `n` bits leave behind. */
  lemma {:induction false} MulxNAt(v: Element, n: nat, i: nat)
    requires n <= 8 && i < 128
    ensures MulxN(v, n)[i] == ((i >= n && v[i - n]) != Spill(v[128 - n..], i))
  {
    if n > 0 {
      var t := v[128 - n..];
      assert t[1..] == v[128 - (n - 1)..];
      MulxNAt(v, n - 1, 127);
      SpillRange(t[1..], 127);
      if i > 0 {
        MulxNAt(v, n - 1, i - 1);
      } else {
        SpillRange(t[1..], -1);
      }
    }
  }
}
