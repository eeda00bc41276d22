/** Bit vectors as sequences of Booleans, most significant bit first: the
    unsigned value they denote, the inverse encoding, and the bitwise and
    rotation operations the cipher uses. */
module Bits {

  function Pow2(n: nat): (r: nat)
    ensures r > 0
  {
    if n == 0 then 1 else 2 * Pow2(n - 1)
  }

  /** Unsigned value of an MSB-first bit vector. */
  function Val(b: seq<bool>): (v: nat)
    ensures v < Pow2(|b|)
  {
    if |b| == 0 then 0 else (if b[0] then Pow2(|b| - 1) else 0) + Val(b[1..])
  }

  /** Binary digit `j` of `v`, by repeated halving (see `DigitDiv`). */
  function Digit(v: nat, j: nat): bool
    decreases j
  {
    if j == 0 then v % 2 == 1 else Digit(v / 2, j - 1)
  }

  /** The `n`-bit MSB-first encoding of `v mod 2^n`: bit `i` is binary
      digit `n - 1 - i` of `v`. */
  function ToBits(n: nat, v: nat): (b: seq<bool>)
    ensures |b| == n
  {
    seq(n, i requires 0 <= i < n => Digit(v, n - 1 - i))
  }

  function Xor(x: seq<bool>, y: seq<bool>): (r: seq<bool>)
    requires |x| == |y|
    ensures |r| == |x|
  {
    seq(|x|, i requires 0 <= i < |x| => x[i] != y[i])
  }

  /** Every binary digit of zero is 0. */
  lemma {:induction false} DigitZero(j: nat)
    ensures !Digit(0, j)
    decreases j
  {
    if j > 0 {
      DigitZero(j - 1);
    }
  }

  /** Xor with the all-zero word is the identity. */
  lemma {:induction false} XorZero(w: seq<bool>)
    ensures Xor(w, ToBits(|w|, 0)) == w
  {
    forall i | 0 <= i < |w| ensures Xor(w, ToBits(|w|, 0))[i] == w[i] {
      DigitZero(|w| - 1 - i);
    }
  }

  /** Xor of a word with two words side by side, half by half. */
  lemma {:induction false} XorSplit(w: seq<bool>, u: seq<bool>, v: seq<bool>)
    requires |w| == |u| + |v|
    ensures Xor(w, u + v) == Xor(w[..|u|], u) + Xor(w[|u|..], v)
  {
    forall i | 0 <= i < |w| ensures Xor(w, u + v)[i] == (Xor(w[..|u|], u) + Xor(w[|u|..], v))[i] {
      if i < |u| {
        assert (u + v)[i] == u[i];
      } else {
        assert (u + v)[i] == v[i - |u|];
      }
    }
  }

  /** Output bit `i` is input bit `(i + k) mod n`. */
  function RotL(b: seq<bool>, k: int): seq<bool>
  {
    seq(|b|, i requires 0 <= i < |b| => b[(i + k) % |b|])
  }

  /** Output bit `i` is input bit `(i - k) mod n`. */
  function RotR(b: seq<bool>, k: int): seq<bool>
  {
    seq(|b|, i requires 0 <= i < |b| => b[(i - k) % |b|])
  }

  // ---------------------------------------------------------------------
  // Division facts

  lemma {:induction false} MulAtLeast(d: int, q: int)
    requires d > 0 && q >= 1
    ensures d * q >= d
  {
  }

  /** A multiple of `d` strictly between `-d` and `d` is zero. */
  lemma {:induction false} SmallMultiple(x: int, d: int)
    requires d > 0 && -d < x * d < d
    ensures x == 0
  {
    if x >= 1 {
      MulAtLeast(d, x);
      assert false;
    } else if x <= -1 {
      MulAtLeast(d, -x);
      assert false;
    }
  }

  /** Quotient and remainder are determined by any decomposition with a
      remainder in range. */
  lemma {:induction false} DivModUnique(m: int, d: int, q: int, r: int)
    requires d > 0 && 0 <= r < d && m == q * d + r
    ensures m / d == q && m % d == r
  {
    var q', r' := m / d, m % d;
    assert m == q' * d + r';
    assert (q' - q) * d == r - r';
    SmallMultiple(q' - q, d);
  }

  /** Adding a multiple of the modulus does not change a residue. */
  lemma {:induction false} ModShift(m: int, d: int, q: int)
    requires d > 0
    ensures (m + q * d) % d == m % d
  {
    DivModUnique(m + q * d, d, m / d + q, m % d);
  }

  /** Reducing a summand first does not change the residue of a sum. */
  lemma {:induction false} ModAddMod(m: nat, c: nat, d: nat)
    requires d > 0
    ensures (m % d + c) % d == (m + c) % d
  {
    assert m % d + c + (m / d) * d == m + c;
    ModShift(m % d + c, d, m / d);
  }

  /** A residue `r` of `m` plus `k` has the residue of `m + k`. */
  lemma {:induction false} ResidueAdd(m: nat, r: nat, c: nat, k: nat, d: nat)
    requires d > 0 && r == m % d && c == k
    ensures (r + c) % d == (m + k) % d
  {
    ModAddMod(m, k, d);
  }

  // ---------------------------------------------------------------------
  // Encoding round trips

  lemma {:induction false} Pow2Add(m: nat, n: nat)
    ensures Pow2(m + n) == Pow2(m) * Pow2(n)
    decreases m
  {
    if m > 0 {
      Pow2Add(m - 1, n);
    }
  }

  /** A digit in base `p` keeps its parity under reduction modulo an even
      multiple `2 p m` of the base. */
  lemma {:induction false} DigitOfModAux(v: int, p: int, m: int, d: int)
    requires v >= 0 && p > 0 && m > 0 && d == (2 * p) * m
    ensures v / p % 2 == v % d / p % 2
  {
    MulAtLeast(p, 2 * m);
    var q, r := v / d, v % d;
    var t, u := r / p, r % p;
    assert v == q * d + r;
    assert r == t * p + u;
    assert q * d == (q * 2 * m) * p;
    assert v == (q * 2 * m + t) * p + u;
    DivModUnique(v, p, q * 2 * m + t, u);
    assert t + (q * m) * 2 == q * 2 * m + t;
    ModShift(t, 2, q * m);
  }

  /** Halving and then dividing by `p` is dividing by `2 p`. */
  lemma {:induction false} DivDiv(v: nat, p: nat)
    requires p > 0
    ensures v / 2 / p == v / (2 * p)
  {
    var h := v / 2;
    var q, r := h / p, h % p;
    assert v == (q * p + r) * 2 + v % 2;
    assert v == q * (2 * p) + (2 * r + v % 2);
    DivModUnique(v, 2 * p, q, 2 * r + v % 2);
  }

  /** Digit `j` by halving is the textbook `(v / 2^j) mod 2`. */
  lemma {:induction false} DigitDiv(v: nat, j: nat)
    ensures Digit(v, j) == (v / Pow2(j) % 2 == 1)
    decreases j
  {
    if j > 0 {
      DigitDiv(v / 2, j - 1);
      DivDiv(v, Pow2(j - 1));
    }
  }

  /** Binary digit `j` of `v` survives reduction modulo `2^k` for `j < k`. */
  lemma {:induction false} DigitOfMod(v: nat, j: nat, k: nat)
    requires j < k
    ensures Digit(v, j) == Digit(v % Pow2(k), j)
  {
    var p, m := Pow2(j), Pow2(k - j - 1);
    Pow2Add(j + 1, k - j - 1);
    assert Pow2(j + 1) == 2 * p;
    DigitOfModAux(v, p, m, Pow2(k));
    DigitDiv(v, j);
    DigitDiv(v % Pow2(k), j);
  }

  /** The leading bit of an encoding and the encoding of the rest. */
  lemma {:induction false} ToBitsCons(n: nat, v: nat)
    requires n > 0
    ensures ToBits(n, v) == [Digit(v, n - 1)] + ToBits(n - 1, v % Pow2(n - 1))
  {
    var b, c := ToBits(n, v), ToBits(n - 1, v % Pow2(n - 1));
    forall i | 1 <= i < n ensures b[i] == c[i - 1] {
      DigitOfMod(v, n - 1 - i, n - 1);
    }
  }

  lemma {:induction false} ValToBits(n: nat, v: nat)
    requires v < Pow2(n)
    ensures Val(ToBits(n, v)) == v
    decreases n
  {
    if n > 0 {
      var p := Pow2(n - 1);
      var b := ToBits(n, v);
      ToBitsCons(n, v);
      DigitDiv(v, n - 1);
      assert b[1..] == ToBits(n - 1, v % p);
      ValToBits(n - 1, v % p);
      if v < p {
        DivModUnique(v, p, 0, v);
      } else {
        DivModUnique(v, p, 1, v - p);
      }
    }
  }

  lemma {:induction false} ToBitsVal(b: seq<bool>)
    ensures ToBits(|b|, Val(b)) == b
    decreases |b|
  {
    if |b| > 0 {
      var p, v, rest := Pow2(|b| - 1), Val(b), Val(b[1..]);
      if b[0] {
        DivModUnique(v, p, 1, rest);
        assert (v / p % 2 == 1) == b[0];
      } else {
        DivModUnique(v, p, 0, rest);
        assert (v / p % 2 == 1) == b[0];
      }
      DigitDiv(v, |b| - 1);
      ToBitsCons(|b|, v);
      ToBitsVal(b[1..]);
      assert ToBits(|b|, v) == [b[0]] + b[1..];
    }
  }

  /** Two vectors of the same width with the same value are equal. */
  lemma {:induction false} ValInjective(x: seq<bool>, y: seq<bool>)
    requires |x| == |y| && Val(x) == Val(y)
    ensures x == y
  {
    ToBitsVal(x);
    ToBitsVal(y);
  }

  // ---------------------------------------------------------------------
  // Rotations

  lemma {:induction false} ModBack(i: int, k: int, n: int)
    requires 0 <= i < n
    ensures ((i - k) % n + k) % n == i
  {
    var q, t := (i - k) / n, (i - k) % n;
    assert i - k == q * n + t;
    assert t + k == i + (-q) * n;
    ModShift(i, n, -q);
    DivModUnique(i, n, 0, i);
  }

  lemma {:induction false} ModForth(i: int, k: int, n: int)
    requires 0 <= i < n
    ensures ((i + k) % n - k) % n == i
  {
    var q, t := (i + k) / n, (i + k) % n;
    assert i + k == q * n + t;
    assert t - k == i + (-q) * n;
    ModShift(i, n, -q);
    DivModUnique(i, n, 0, i);
  }

  /** Rotating right by `k` undoes rotating left by `k`, for every `k`. */
  lemma {:induction false} RotRAfterRotL(b: seq<bool>, k: int)
    ensures RotR(RotL(b, k), k) == b
  {
    var n, l := |b|, RotL(b, k);
    var r := RotR(l, k);
    forall i | 0 <= i < n ensures r[i] == b[i] {
      var j := (i - k) % n;
      assert r[i] == l[j];
      assert l[j] == b[(j + k) % n];
      ModBack(i, k, n);
    }
  }

  /** Rotating left by `k` undoes rotating right by `k`, for every `k`. */
  lemma {:induction false} RotLAfterRotR(b: seq<bool>, k: int)
    ensures RotL(RotR(b, k), k) == b
  {
    var n, l := |b|, RotR(b, k);
    var r := RotL(l, k);
    forall i | 0 <= i < n ensures r[i] == b[i] {
      var j := (i + k) % n;
      assert r[i] == l[j];
      assert l[j] == b[(j - k) % n];
      ModForth(i, k, n);
    }
  }

  // ---------------------------------------------------------------------
  // Addition

  /** Textbook ripple-carry addition of two MSB-first words of equal
      width: the sum bits and the carry out of the top column. */
  function Add(x: seq<bool>, y: seq<bool>): (r: (seq<bool>, bool))
    requires |x| == |y|
    ensures |r.0| == |x|
  {
    if |x| == 0 then ([], false)
    else
      var low := Add(x[1..], y[1..]);
      ([(x[0] != y[0]) != low.1] + low.0, (x[0] && y[0]) || (low.1 && x[0] != y[0]))
  }

  /** The leading bit of a non-empty word carries weight `2^(|b|-1)`. */
  lemma {:induction false} ValHead(b: seq<bool>)
    requires |b| > 0
    ensures Val(b) == (if b[0] then Pow2(|b| - 1) else 0) + Val(b[1..])
  {
  }

  /** One column of binary addition with column weight `w`, added onto
      the columns below it. */
  lemma {:induction false} Column(w: int, x: bool, y: bool, cIn: bool, s: bool, c: bool, low: int, lowX: int, lowY: int)
    requires s == ((x != y) != cIn) && c == ((x && y) || (cIn && x != y))
    requires low + (if cIn then w else 0) == lowX + lowY
    ensures (if s then w else 0) + low + (if c then 2 * w else 0)
      == (if x then w else 0) + lowX + ((if y then w else 0) + lowY)
  {
  }

  /** Sum bits and carry of `Add` denote the sum of the two words. */
  lemma {:induction false} AddVal(x: seq<bool>, y: seq<bool>)
    requires |x| == |y|
    ensures Val(Add(x, y).0) + (if Add(x, y).1 then Pow2(|x|) else 0) == Val(x) + Val(y)
    decreases |x|
  {
    if |x| > 0 {
      var r, low := Add(x, y), Add(x[1..], y[1..]);
      AddVal(x[1..], y[1..]);
      var w := Pow2(|x| - 1);
      assert r.0[1..] == low.0;
      ValHead(r.0);
      ValHead(x);
      ValHead(y);
      Column(w, x[0], y[0], low.1, r.0[0], r.1, Val(low.0), Val(x[1..]), Val(y[1..]));
    }
  }

  /** A sum that overflows by at most one multiple of the modulus reduces
      to what is left of it. */
  lemma {:induction false} DropCarry(m: int, d: int, v: int, c: bool)
    requires 0 <= v < d && m == v + (if c then d else 0)
    ensures m % d == v
  {
    if c {
      DivModUnique(m, d, 1, v);
    } else {
      DivModUnique(m, d, 0, v);
    }
  }

  /** Dropping the carry out of `Add` leaves the sum modulo `2^n`. */
  lemma {:induction false} AddMod(x: seq<bool>, y: seq<bool>)
    requires |x| == |y|
    ensures Val(Add(x, y).0) == (Val(x) + Val(y)) % Pow2(|x|)
  {
    AddVal(x, y);
    DropCarry(Val(x) + Val(y), Pow2(|x|), Val(Add(x, y).0), Add(x, y).1);
  }

  /** An encoding only sees the residue modulo `2^n`. */
  lemma {:induction false} ToBitsMod(n: nat, v: nat)
    ensures ToBits(n, v % Pow2(n)) == ToBits(n, v)
  {
    forall i | 0 <= i < n ensures ToBits(n, v % Pow2(n))[i] == ToBits(n, v)[i] {
      DigitOfMod(v, n - 1 - i, n);
    }
  }

  /** The sum bits of `Add` are the `n`-bit encoding of the sum. */
  lemma {:induction false} AddBits(x: seq<bool>, y: seq<bool>)
    requires |x| == |y|
    ensures Add(x, y).0 == ToBits(|x|, Val(x) + Val(y))
  {
    AddMod(x, y);
    ToBitsVal(Add(x, y).0);
    ToBitsMod(|x|, Val(x) + Val(y));
  }

  /** Two values with the same residue modulo `2^n` encode alike. */
  lemma {:induction false} ToBitsEq(n: nat, v: nat, w: nat)
    requires v % Pow2(n) == w % Pow2(n)
    ensures ToBits(n, v) == ToBits(n, w)
  {
    ToBitsMod(n, v);
    ToBitsMod(n, w);
  }

  /** Adding a constant `c` of value `k` to the sum bits of `Add` encodes
      the sum plus `k`. */
  lemma {:induction false} AddConst(x: seq<bool>, y: seq<bool>, c: seq<bool>, k: nat)
    requires |x| == |y| == |c| && Val(c) == k
    ensures Add(Add(x, y).0, c).0 == ToBits(|x|, Val(x) + Val(y) + k)
  {
    var s := Add(x, y).0;
    AddMod(x, y);
    AddBits(s, c);
    ResidueAdd(Val(x) + Val(y), Val(s), Val(c), k, Pow2(|x|));
    ToBitsEq(|x|, Val(s) + Val(c), Val(x) + Val(y) + k);
  }
}
