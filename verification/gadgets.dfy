/** The Tseitin gadget library (cnf_base.py). Every gadget is a pure
    function from the next free variable and its input variables to the
    advanced counter and a `Result`. For each gadget the model proves what
    its clauses mean (every satisfying assignment computes the gate, the
    word operation or the sum) and how it allocates (`Allocates`: fresh
    outputs, every fresh variable used, every input assignment extends to a
    satisfying one). */
module Gadgets {
  import opened Cnf
  import opened Bits

  // =====================================================================
  // Bit level

  /** y = x */
  function BitEq(nfv: nat, x: int): (r: (nat, Result))
    ensures r.0 == nfv + 1 && r.1.outVars == [nfv] && r.1.inVars == [x] && |r.1.cnf| == 2
  {
    var y: int := nfv;
    (y + 1, Result([x], [y], [[x, -y], [-x, y]]))
  }

  /** z = x xor y: one clause per falsifying row of the truth table. */
  function BitXor(nfv: nat, x: int, y: int): (r: (nat, Result))
    ensures r.0 == nfv + 1 && r.1.outVars == [nfv] && r.1.inVars == [x, y] && |r.1.cnf| == 4
  {
    var z: int := nfv;
    (z + 1, Result([x, y], [z], [[-x, -y, -z], [-x, y, z], [x, -y, z], [x, y, -z]]))
  }

  /** z = x and y */
  function BitAnd(nfv: nat, x: int, y: int): (r: (nat, Result))
    ensures r.0 == nfv + 1 && r.1.outVars == [nfv] && r.1.inVars == [x, y] && |r.1.cnf| == 4
  {
    var z: int := nfv;
    (z + 1, Result([x, y], [z], [[-x, -y, z], [-x, y, -z], [x, -y, -z], [x, y, -z]]))
  }

  /** z = x or y */
  function BitOr(nfv: nat, x: int, y: int): (r: (nat, Result))
    ensures r.0 == nfv + 1 && r.1.outVars == [nfv] && r.1.inVars == [x, y] && |r.1.cnf| == 4
  {
    var z: int := nfv;
    (z + 1, Result([x, y], [z], [[-x, -y, z], [-x, y, z], [x, -y, z], [x, y, -z]]))
  }

  /** The two clauses of bit_eq hold exactly when the output equals the
      input. */
  lemma {:induction false} BitEqMeaning(nfv: nat, x: int, a: Assignment)
    requires x != 0 && nfv > 0
    ensures Sat(a, BitEq(nfv, x).1.cnf) <==> LitTrue(a, nfv) == LitTrue(a, x)
  {
    var y: int := nfv;
    NegLit(a, x);
    NegLit(a, y);
    Clause2(a, x, -y);
    Clause2(a, -x, y);
    Sat2(a, [x, -y], [-x, y]);
  }

  /** The four clauses of bit_xor hold exactly when z = x xor y. */
  lemma {:induction false} BitXorMeaning(nfv: nat, x: int, y: int, a: Assignment)
    requires x != 0 && y != 0 && nfv > 0
    ensures Sat(a, BitXor(nfv, x, y).1.cnf) <==> LitTrue(a, nfv) == (LitTrue(a, x) != LitTrue(a, y))
  {
    var z: int := nfv;
    NegLit(a, x);
    NegLit(a, y);
    NegLit(a, z);
    Clause3(a, -x, -y, -z);
    Clause3(a, -x, y, z);
    Clause3(a, x, -y, z);
    Clause3(a, x, y, -z);
    Sat4(a, [-x, -y, -z], [-x, y, z], [x, -y, z], [x, y, -z]);
  }

  /** The four clauses of bit_and hold exactly when z = x and y. */
  lemma {:induction false} BitAndMeaning(nfv: nat, x: int, y: int, a: Assignment)
    requires x != 0 && y != 0 && nfv > 0
    ensures Sat(a, BitAnd(nfv, x, y).1.cnf) <==> LitTrue(a, nfv) == (LitTrue(a, x) && LitTrue(a, y))
  {
    var z: int := nfv;
    NegLit(a, x);
    NegLit(a, y);
    NegLit(a, z);
    Clause3(a, -x, -y, z);
    Clause3(a, -x, y, -z);
    Clause3(a, x, -y, -z);
    Clause3(a, x, y, -z);
    Sat4(a, [-x, -y, z], [-x, y, -z], [x, -y, -z], [x, y, -z]);
  }

  /** The four clauses of bit_or hold exactly when z = x or y. */
  lemma {:induction false} BitOrMeaning(nfv: nat, x: int, y: int, a: Assignment)
    requires x != 0 && y != 0 && nfv > 0
    ensures Sat(a, BitOr(nfv, x, y).1.cnf) <==> LitTrue(a, nfv) == (LitTrue(a, x) || LitTrue(a, y))
  {
    var z: int := nfv;
    NegLit(a, x);
    NegLit(a, y);
    NegLit(a, z);
    Clause3(a, -x, -y, z);
    Clause3(a, -x, y, z);
    Clause3(a, x, -y, z);
    Clause3(a, x, y, -z);
    Sat4(a, [-x, -y, z], [-x, y, z], [x, -y, z], [x, y, -z]);
  }

  /** The shape facts shared by the single-output gates: every literal is
      an input or the output `nfv`, and the output occurs at `f[0][pos]`. */
  lemma {:induction false} GateShape(f: Formula, ins: seq<int>, nfv: nat, pos: nat)
    requires 0 < nfv && Below(ins, nfv)
    requires |f| > 0 && pos < |f[0]| && Abs(f[0][pos]) == nfv
    requires forall i, j :: 0 <= i < |f| && 0 <= j < |f[i]| ==> f[i][j] != 0 && (Abs(f[i][j]) in ins || Abs(f[i][j]) == nfv)
    ensures Bounded(f, nfv + 1) && Closed(f, ins, nfv, nfv + 1) && Covers(f, nfv, nfv + 1)
  {
    forall i, j | 0 <= i < |f| && 0 <= j < |f[i]| ensures Abs(f[i][j]) < nfv + 1 {
      if Abs(f[i][j]) in ins {
        var k :| 0 <= k < |ins| && ins[k] == Abs(f[i][j]);
      }
    }
    assert Mentions(f, nfv);
  }

  lemma {:induction false} BitEqAllocates(nfv: nat, x: int)
    requires 0 < x < nfv
    ensures Allocates(nfv, BitEq(nfv, x))
  {
    var f := BitEq(nfv, x).1.cnf;
    GateShape(f, BitEq(nfv, x).1.inVars, nfv, 1);
    var hi := nfv + 1;
    forall a: Assignment ensures ExtendsFrom(f, nfv, hi, a) {
      var b := With(a, nfv, LitTrue(a, x));
      assert LitTrue(b, x) == LitTrue(a, x);
      BitEqMeaning(nfv, x, b);
      assert Agree(a, b, nfv, hi);
    }
  }


  lemma {:induction false} BitXorAllocates(nfv: nat, x: int, y: int)
    requires 0 < x < nfv && 0 < y < nfv
    ensures Allocates(nfv, BitXor(nfv, x, y))
  {
    var f := BitXor(nfv, x, y).1.cnf;
    GateShape(f, BitXor(nfv, x, y).1.inVars, nfv, 2);
    var hi := nfv + 1;
    forall a: Assignment ensures ExtendsFrom(f, nfv, hi, a) {
      var b := With(a, nfv, LitTrue(a, x) != LitTrue(a, y));
      assert LitTrue(b, x) == LitTrue(a, x) && LitTrue(b, y) == LitTrue(a, y);
      BitXorMeaning(nfv, x, y, b);
      assert Agree(a, b, nfv, hi);
    }
  }


  lemma {:induction false} BitAndAllocates(nfv: nat, x: int, y: int)
    requires 0 < x < nfv && 0 < y < nfv
    ensures Allocates(nfv, BitAnd(nfv, x, y))
  {
    var f := BitAnd(nfv, x, y).1.cnf;
    GateShape(f, BitAnd(nfv, x, y).1.inVars, nfv, 2);
    var hi := nfv + 1;
    forall a: Assignment ensures ExtendsFrom(f, nfv, hi, a) {
      var b := With(a, nfv, LitTrue(a, x) && LitTrue(a, y));
      assert LitTrue(b, x) == LitTrue(a, x) && LitTrue(b, y) == LitTrue(a, y);
      BitAndMeaning(nfv, x, y, b);
      assert Agree(a, b, nfv, hi);
    }
  }


  lemma {:induction false} BitOrAllocates(nfv: nat, x: int, y: int)
    requires 0 < x < nfv && 0 < y < nfv
    ensures Allocates(nfv, BitOr(nfv, x, y))
  {
    var f := BitOr(nfv, x, y).1.cnf;
    GateShape(f, BitOr(nfv, x, y).1.inVars, nfv, 2);
    var hi := nfv + 1;
    forall a: Assignment ensures ExtendsFrom(f, nfv, hi, a) {
      var b := With(a, nfv, LitTrue(a, x) || LitTrue(a, y));
      assert LitTrue(b, x) == LitTrue(a, x) && LitTrue(b, y) == LitTrue(a, y);
      BitOrMeaning(nfv, x, y, b);
      assert Agree(a, b, nfv, hi);
    }
  }


  // =====================================================================
  // Word level

  /** The word_xor loop after its first `i` iterations: the counter, the
      outputs so far and the clauses so far. */
  function XorLoop(nfv: nat, x: seq<int>, y: seq<int>, i: nat): (r: (nat, seq<int>, Formula))
    requires |x| == |y| && i <= |x|
    ensures r.0 == nfv + i && |r.1| == i && Consecutive(r.1, nfv)
    decreases i
  {
    if i == 0 then (nfv, [], [])
    else
      var (n1, outs, cnf) := XorLoop(nfv, x, y, i - 1);
      var (n2, res) := BitXor(n1, x[i - 1], y[i - 1]);
      (n2, outs + res.outVars, cnf + res.cnf)
  }

  /** Bitwise xor of two words of equal width (the source asserts it). */
  function WordXor(nfv: nat, x: seq<int>, y: seq<int>): (r: (nat, Result))
    requires |x| == |y|
    ensures r.0 == nfv + |x| && |r.1.outVars| == |x| && Consecutive(r.1.outVars, nfv)
    ensures r.1.inVars == x + y
  {
    var (n, outs, cnf) := XorLoop(nfv, x, y, |x|);
    (n, Result(x + y, outs, cnf))
  }

  lemma {:induction false} XorLoopSound(nfv: nat, x: seq<int>, y: seq<int>, i: nat, a: Assignment)
    requires |x| == |y| && i <= |x| && AreVars(x) && AreVars(y) && nfv > 0
    requires Sat(a, XorLoop(nfv, x, y, i).2)
    ensures forall k :: 0 <= k < i ==>
      LitTrue(a, XorLoop(nfv, x, y, i).1[k]) == (LitTrue(a, x[k]) != LitTrue(a, y[k]))
    decreases i
  {
    if i > 0 {
      var (n1, outs, cnf) := XorLoop(nfv, x, y, i - 1);
      var (n2, res) := BitXor(n1, x[i - 1], y[i - 1]);
      SatConcat(a, cnf, res.cnf);
      XorLoopSound(nfv, x, y, i - 1, a);
      BitXorMeaning(n1, x[i - 1], y[i - 1], a);
    }
  }

  /** Under every satisfying assignment output `i` is `x[i] xor y[i]`, for
      every index `i`. */
  lemma {:induction false} WordXorSound(nfv: nat, x: seq<int>, y: seq<int>, a: Assignment)
    requires |x| == |y| && AreVars(x) && AreVars(y) && nfv > 0
    requires Sat(a, WordXor(nfv, x, y).1.cnf)
    ensures Vals(a, WordXor(nfv, x, y).1.outVars) == Xor(Vals(a, x), Vals(a, y))
  {
    XorLoopSound(nfv, x, y, |x|, a);
  }

  lemma {:induction false} XorLoopAllocates(nfv: nat, x: seq<int>, y: seq<int>, i: nat)
    requires |x| == |y| && i <= |x| && 0 < nfv && Below(x, nfv) && Below(y, nfv)
    ensures Wired(XorLoop(nfv, x, y, i).2, nfv, nfv + i)
    ensures Closed(XorLoop(nfv, x, y, i).2, x + y, nfv, nfv + i)
    decreases i
  {
    if i == 0 {
      WiredEmpty(nfv);
    } else {
      var (n1, outs, cnf) := XorLoop(nfv, x, y, i - 1);
      var (n2, res) := BitXor(n1, x[i - 1], y[i - 1]);
      XorLoopAllocates(nfv, x, y, i - 1);
      BitXorAllocates(n1, x[i - 1], y[i - 1]);
      Chain(cnf, res.cnf, nfv, n1, n2);
      assert x[i - 1] in x + y && y[i - 1] in x + y;
      ClosedWiden(res.cnf, [x[i - 1], y[i - 1]], n1, n2, x + y, nfv, n2);
      ClosedWiden(cnf, x + y, nfv, n1, x + y, nfv, n2);
      ClosedConcat(cnf, res.cnf, x + y, nfv, n2);
    }
  }

  lemma {:induction false} WordXorAllocates(nfv: nat, x: seq<int>, y: seq<int>)
    requires |x| == |y| && 0 < nfv && Below(x, nfv) && Below(y, nfv)
    ensures Allocates(nfv, WordXor(nfv, x, y))
  {
    XorLoopAllocates(nfv, x, y, |x|);
  }

  /** The loop shared by both rotations after its first `i` iterations:
      output `k` is bound by bit_eq to `src[k]`. */
  function EqLoop(nfv: nat, src: seq<int>, i: nat): (r: (nat, seq<int>, Formula))
    requires i <= |src|
    ensures r.0 == nfv + i && |r.1| == i && Consecutive(r.1, nfv)
    decreases i
  {
    if i == 0 then (nfv, [], [])
    else
      var (n1, outs, cnf) := EqLoop(nfv, src, i - 1);
      var (n2, res) := BitEq(n1, src[i - 1]);
      (n2, outs + res.outVars, cnf + res.cnf)
  }

  lemma {:induction false} EqLoopSound(nfv: nat, src: seq<int>, i: nat, a: Assignment)
    requires i <= |src| && AreVars(src) && nfv > 0
    requires Sat(a, EqLoop(nfv, src, i).2)
    ensures forall k :: 0 <= k < i ==> LitTrue(a, EqLoop(nfv, src, i).1[k]) == LitTrue(a, src[k])
    decreases i
  {
    if i > 0 {
      var (n1, outs, cnf) := EqLoop(nfv, src, i - 1);
      var (n2, res) := BitEq(n1, src[i - 1]);
      SatConcat(a, cnf, res.cnf);
      EqLoopSound(nfv, src, i - 1, a);
      BitEqMeaning(n1, src[i - 1], a);
    }
  }

  lemma {:induction false} EqLoopAllocates(nfv: nat, src: seq<int>, i: nat)
    requires i <= |src| && 0 < nfv && Below(src, nfv)
    ensures Wired(EqLoop(nfv, src, i).2, nfv, nfv + i)
    ensures Closed(EqLoop(nfv, src, i).2, src, nfv, nfv + i)
    decreases i
  {
    if i == 0 {
      WiredEmpty(nfv);
    } else {
      var (n1, outs, cnf) := EqLoop(nfv, src, i - 1);
      var (n2, res) := BitEq(n1, src[i - 1]);
      EqLoopAllocates(nfv, src, i - 1);
      BitEqAllocates(n1, src[i - 1]);
      Chain(cnf, res.cnf, nfv, n1, n2);
      ClosedWiden(res.cnf, [src[i - 1]], n1, n2, src, nfv, n2);
      ClosedWiden(cnf, src, nfv, n1, src, nfv, n2);
      ClosedConcat(cnf, res.cnf, src, nfv, n2);
    }
  }

  /** The input variables rotate_left_by_k reads, in output order. */
  function LeftSources(x: seq<int>, k: int): seq<int>
  {
    seq(|x|, i requires 0 <= i < |x| => x[(i + k) % |x|])
  }

  /** The input variables rotate_right_by_k reads, in output order. */
  function RightSources(x: seq<int>, k: int): seq<int>
  {
    seq(|x|, i requires 0 <= i < |x| => x[(i - k) % |x|])
  }

  function RotateLeftByK(nfv: nat, numBits: nat, x: seq<int>, k: int): (r: (nat, Result))
    requires |x| == numBits
    ensures r.0 == nfv + numBits && |r.1.outVars| == numBits && Consecutive(r.1.outVars, nfv)
    ensures r.1.inVars == x
  {
    var (n, outs, cnf) := EqLoop(nfv, LeftSources(x, k), numBits);
    (n, Result(x, outs, cnf))
  }

  function RotateRightByK(nfv: nat, numBits: nat, x: seq<int>, k: int): (r: (nat, Result))
    requires |x| == numBits
    ensures r.0 == nfv + numBits && |r.1.outVars| == numBits && Consecutive(r.1.outVars, nfv)
    ensures r.1.inVars == x
  {
    var (n, outs, cnf) := EqLoop(nfv, RightSources(x, k), numBits);
    (n, Result(x, outs, cnf))
  }

  /** Under every satisfying assignment output `i` equals input
      `(i + k) mod n`, for every `i` and every `k`. */
  lemma {:induction false} RotateLeftSound(nfv: nat, numBits: nat, x: seq<int>, k: int, a: Assignment)
    requires |x| == numBits && AreVars(x) && nfv > 0
    requires Sat(a, RotateLeftByK(nfv, numBits, x, k).1.cnf)
    ensures Vals(a, RotateLeftByK(nfv, numBits, x, k).1.outVars) == RotL(Vals(a, x), k)
  {
    EqLoopSound(nfv, LeftSources(x, k), numBits, a);
  }

  /** Under every satisfying assignment output `i` equals input
      `(i - k) mod n`, for every `i` and every `k`. */
  lemma {:induction false} RotateRightSound(nfv: nat, numBits: nat, x: seq<int>, k: int, a: Assignment)
    requires |x| == numBits && AreVars(x) && nfv > 0
    requires Sat(a, RotateRightByK(nfv, numBits, x, k).1.cnf)
    ensures Vals(a, RotateRightByK(nfv, numBits, x, k).1.outVars) == RotR(Vals(a, x), k)
  {
    EqLoopSound(nfv, RightSources(x, k), numBits, a);
  }

  lemma {:induction false} RotateLeftAllocates(nfv: nat, numBits: nat, x: seq<int>, k: int)
    requires |x| == numBits && 0 < nfv && Below(x, nfv)
    ensures Allocates(nfv, RotateLeftByK(nfv, numBits, x, k))
  {
    var src := LeftSources(x, k);
    EqLoopAllocates(nfv, src, numBits);
    var (n, outs, cnf) := EqLoop(nfv, src, numBits);
    forall v | v in src ensures v in x {
      var i :| 0 <= i < |src| && src[i] == v;
    }
    ClosedWiden(cnf, src, nfv, n, x, nfv, n);
  }

  lemma {:induction false} RotateRightAllocates(nfv: nat, numBits: nat, x: seq<int>, k: int)
    requires |x| == numBits && 0 < nfv && Below(x, nfv)
    ensures Allocates(nfv, RotateRightByK(nfv, numBits, x, k))
  {
    var src := RightSources(x, k);
    EqLoopAllocates(nfv, src, numBits);
    var (n, outs, cnf) := EqLoop(nfv, src, numBits);
    forall v | v in src ensures v in x {
      var i :| 0 <= i < |src| && src[i] == v;
    }
    ClosedWiden(cnf, src, nfv, n, x, nfv, n);
  }

  /** Rotating left by `k` and then right by `k` gives back the original
      bit values, whatever `k` is. */
  lemma {:induction false} RotateRoundTrip(nfv: nat, numBits: nat, x: seq<int>, k: int, a: Assignment)
    requires |x| == numBits && AreVars(x) && nfv > 0
    requires var (n1, left) := RotateLeftByK(nfv, numBits, x, k);
      Sat(a, left.cnf + RotateRightByK(n1, numBits, left.outVars, k).1.cnf)
    ensures var (n1, left) := RotateLeftByK(nfv, numBits, x, k);
      Vals(a, RotateRightByK(n1, numBits, left.outVars, k).1.outVars) == Vals(a, x)
  {
    var (n1, left) := RotateLeftByK(nfv, numBits, x, k);
    var (n2, right) := RotateRightByK(n1, numBits, left.outVars, k);
    SatConcat(a, left.cnf, right.cnf);
    RotateLeftSound(nfv, numBits, x, k, a);
    RotateRightSound(n1, numBits, left.outVars, k, a);
    RotRAfterRotL(Vals(a, x), k);
  }

  // =====================================================================
  // Adders

  /** Half adder: the sum is allocated first, the carry second, and the
      outputs are listed carry first. */
  function HalfAdder(nfv: nat, x: int, y: int): (r: (nat, Result))
    ensures r.0 == nfv + 2 && r.1.inVars == [x, y] && r.1.outVars == [nfv + 1, nfv]
  {
    var (n1, s) := BitXor(nfv, x, y);
    var (n2, c) := BitAnd(n1, x, y);
    (n2, Result([x, y], c.outVars + s.outVars, c.cnf + s.cnf))
  }

  /** Full adder. With `ignoreCout` only the sum is produced (two gates);
      otherwise five gates, with the outputs listed carry first. */
  function FullAdder(nfv: nat, x: int, y: int, cIn: int, ignoreCout: bool): (r: (nat, Result))
    ensures r.1.inVars == [x, y, cIn]
    ensures ignoreCout ==> r.0 == nfv + 2 && r.1.outVars == [nfv + 1]
    ensures !ignoreCout ==> r.0 == nfv + 5 && r.1.outVars == [nfv + 4, nfv + 1]
  {
    var (n1, xy) := BitXor(nfv, x, y);
    var (n2, s) := BitXor(n1, xy.outVars[0], cIn);
    if ignoreCout then
      (n2, Result([x, y, cIn], s.outVars, xy.cnf + s.cnf))
    else
      var (n3, xAndY) := BitAnd(n2, x, y);
      var (n4, cRight) := BitAnd(n3, cIn, xy.outVars[0]);
      var (n5, c) := BitOr(n4, xAndY.outVars[0], cRight.outVars[0]);
      (n5, Result([x, y, cIn], c.outVars + s.outVars,
                  xy.cnf + xAndY.cnf + cRight.cnf + c.cnf + s.cnf))
  }

  /** Under every satisfying assignment the outputs are the carry and the
      sum bit of `x + y`. */
  lemma {:induction false} HalfAdderSound(nfv: nat, x: int, y: int, a: Assignment)
    requires x != 0 && y != 0 && nfv > 0
    requires Sat(a, HalfAdder(nfv, x, y).1.cnf)
    ensures var o := HalfAdder(nfv, x, y).1.outVars;
      LitTrue(a, o[0]) == (LitTrue(a, x) && LitTrue(a, y)) &&
      LitTrue(a, o[1]) == (LitTrue(a, x) != LitTrue(a, y))
  {
    var (n1, s) := BitXor(nfv, x, y);
    var (n2, c) := BitAnd(n1, x, y);
    SatConcat(a, c.cnf, s.cnf);
    BitXorMeaning(nfv, x, y, a);
    BitAndMeaning(n1, x, y, a);
  }

  /** Under every satisfying assignment the sum output is the parity of
      the three inputs and the carry output (when produced) is their
      majority. */
  lemma {:induction false} FullAdderSound(nfv: nat, x: int, y: int, cIn: int, ignoreCout: bool, a: Assignment)
    requires x != 0 && y != 0 && cIn != 0 && nfv > 0
    requires Sat(a, FullAdder(nfv, x, y, cIn, ignoreCout).1.cnf)
    ensures var o := FullAdder(nfv, x, y, cIn, ignoreCout).1.outVars;
      var X, Y, C := LitTrue(a, x), LitTrue(a, y), LitTrue(a, cIn);
      LitTrue(a, o[|o| - 1]) == ((X != Y) != C) &&
      (!ignoreCout ==> LitTrue(a, o[0]) == ((X && Y) || (C && X != Y)))
  {
    var (n1, xy) := BitXor(nfv, x, y);
    var (n2, s) := BitXor(n1, xy.outVars[0], cIn);
    BitXorMeaning(nfv, x, y, a);
    BitXorMeaning(n1, nfv, cIn, a);
    if ignoreCout {
      SatConcat(a, xy.cnf, s.cnf);
    } else {
      var (n3, xAndY) := BitAnd(n2, x, y);
      var (n4, cRight) := BitAnd(n3, cIn, xy.outVars[0]);
      var (n5, c) := BitOr(n4, xAndY.outVars[0], cRight.outVars[0]);
      SatConcat(a, xy.cnf + xAndY.cnf + cRight.cnf + c.cnf, s.cnf);
      SatConcat(a, xy.cnf + xAndY.cnf + cRight.cnf, c.cnf);
      SatConcat(a, xy.cnf + xAndY.cnf, cRight.cnf);
      SatConcat(a, xy.cnf, xAndY.cnf);
      BitAndMeaning(n2, x, y, a);
      BitAndMeaning(n3, cIn, nfv, a);
      BitOrMeaning(n4, n2, n3, a);
    }
  }

  lemma {:induction false} HalfAdderAllocates(nfv: nat, x: int, y: int)
    requires 0 < x < nfv && 0 < y < nfv
    ensures Allocates(nfv, HalfAdder(nfv, x, y))
  {
    var (n1, s) := BitXor(nfv, x, y);
    var (n2, c) := BitAnd(n1, x, y);
    BitXorAllocates(nfv, x, y);
    BitAndAllocates(n1, x, y);
    Chain(s.cnf, c.cnf, nfv, n1, n2);
    ClosedWiden(s.cnf, [x, y], nfv, n1, [x, y], nfv, n2);
    ClosedWiden(c.cnf, [x, y], n1, n2, [x, y], nfv, n2);
    ClosedConcat(c.cnf, s.cnf, [x, y], nfv, n2);
  }

  lemma {:induction false} FullAdderAllocates(nfv: nat, x: int, y: int, cIn: int, ignoreCout: bool)
    requires 0 < x < nfv && 0 < y < nfv && 0 < cIn < nfv
    ensures Allocates(nfv, FullAdder(nfv, x, y, cIn, ignoreCout))
  {
    var ins := [x, y, cIn];
    var (n1, xy) := BitXor(nfv, x, y);
    var (n2, s) := BitXor(n1, xy.outVars[0], cIn);
    var hi := FullAdder(nfv, x, y, cIn, ignoreCout).0;
    BitXorAllocates(nfv, x, y);
    BitXorAllocates(n1, nfv, cIn);
    ClosedWiden(xy.cnf, [x, y], nfv, n1, ins, nfv, hi);
    ClosedWiden(s.cnf, [nfv, cIn], n1, n2, ins, nfv, hi);
    if ignoreCout {
      Chain(xy.cnf, s.cnf, nfv, n1, n2);
      ClosedConcat(xy.cnf, s.cnf, ins, nfv, hi);
    } else {
      var (n3, xAndY) := BitAnd(n2, x, y);
      var (n4, cRight) := BitAnd(n3, cIn, xy.outVars[0]);
      var (n5, c) := BitOr(n4, xAndY.outVars[0], cRight.outVars[0]);
      BitAndAllocates(n2, x, y);
      BitAndAllocates(n3, cIn, nfv);
      BitOrAllocates(n4, n2, n3);
      var carry := xAndY.cnf + cRight.cnf + c.cnf;
      Chain(xAndY.cnf, cRight.cnf, n2, n3, n4);
      Chain(xAndY.cnf + cRight.cnf, c.cnf, n2, n4, n5);
      Chain(s.cnf, carry, n1, n2, n5);
      Chain(xy.cnf, carry + s.cnf, nfv, n1, n5);
      assert xy.cnf + xAndY.cnf + cRight.cnf + c.cnf + s.cnf == xy.cnf + (carry + s.cnf);
      ClosedWiden(xAndY.cnf, [x, y], n2, n3, ins, nfv, hi);
      ClosedWiden(cRight.cnf, [cIn, nfv], n3, n4, ins, nfv, hi);
      ClosedWiden(c.cnf, [n2, n3], n4, n5, ins, nfv, hi);
      ClosedConcat(xy.cnf, xAndY.cnf, ins, nfv, hi);
      ClosedConcat(xy.cnf + xAndY.cnf, cRight.cnf, ins, nfv, hi);
      ClosedConcat(xy.cnf + xAndY.cnf + cRight.cnf, c.cnf, ins, nfv, hi);
      ClosedConcat(xy.cnf + xAndY.cnf + cRight.cnf + c.cnf, s.cnf, ins, nfv, hi);
    }
  }

  /** The low part of a ripple-carry adder: the counter, the carry out of
      the low `k` bit positions, their sum outputs (most significant
      first) and the clauses so far. */
  datatype Ripple = Ripple(nfv: nat, carry: int, sums: seq<int>, cnf: Formula)

  /** The modular_addition loop after its first `k` iterations, which add
      bit positions `n - 1` down to `n - k` (position `n - 1` by a half
      adder, the others by full adders fed the previous carry). The source
      appends each sum and reverses the list at the end; prepending here
      gives the same order. */
  function RippleLow(nfv: nat, x: seq<int>, y: seq<int>, k: nat): (r: Ripple)
    requires |x| == |y| && 1 <= k < |x|
    ensures r.nfv == nfv + 5 * k - 3 && r.carry == r.nfv - 1
    ensures |r.sums| == k && Within(r.sums, nfv, r.nfv)
    decreases k
  {
    var n := |x|;
    if k == 1 then
      var h := HalfAdder(nfv, x[n - 1], y[n - 1]);
      Ripple(h.0, h.1.outVars[0], [h.1.outVars[1]], h.1.cnf)
    else
      var p := RippleLow(nfv, x, y, k - 1);
      var fa := FullAdder(p.nfv, x[n - k], y[n - k], p.carry, false);
      Ripple(fa.0, fa.1.outVars[0], [fa.1.outVars[1]] + p.sums, p.cnf + fa.1.cnf)
  }

  /** Addition modulo `2^numBits` of two MSB-first words. The top position
      uses a full adder without carry out; a one-bit word is rejected by
      the source (the missing carry cannot be negated). */
  function ModularAddition(nfv: nat, numBits: nat, x: seq<int>, y: seq<int>): (r: (nat, Result))
    requires |x| == numBits && |y| == numBits && numBits >= 2
    ensures r.0 == nfv + 5 * numBits - 6
    ensures |r.1.outVars| == numBits && Within(r.1.outVars, nfv, r.0)
    ensures r.1.inVars == x + y
  {
    var p := RippleLow(nfv, x, y, numBits - 1);
    var fa := FullAdder(p.nfv, x[0], y[0], p.carry, true);
    (fa.0, Result(x + y, fa.1.outVars + p.sums, p.cnf + fa.1.cnf))
  }

  /** The words `Vals(a, x)` and `Vals(a, y)` cut down to their low `k`
      bits. */
  function LowBits(a: Assignment, x: seq<int>, k: nat): seq<bool>
    requires k <= |x|
  {
    Vals(a, x)[|x| - k..]
  }

  /** Cutting one bit less off: the low `k` bits are bit `n - k` followed
      by the low `k - 1` bits. */
  lemma {:induction false} LowBitsStep(a: Assignment, x: seq<int>, k: nat)
    requires 1 <= k <= |x|
    ensures LowBits(a, x, k) == [LitTrue(a, x[|x| - k])] + LowBits(a, x, k - 1)
  {
    assert LowBits(a, x, k)[0] == LitTrue(a, x[|x| - k]);
  }

  /** Under `a`, `sums` and `carry` hold the sum bits and the carry out of
      the reference addition of the low `k` bits of `x` and `y`. */
  ghost predicate LowSum(a: Assignment, x: seq<int>, y: seq<int>, k: nat, sums: seq<int>, carry: int)
    requires |x| == |y| && k <= |x|
  {
    var s := Add(LowBits(a, x, k), LowBits(a, y, k));
    Vals(a, sums) == s.0 && LitTrue(a, carry) == s.1
  }

  /** Under `a`, one column of the ripple computes sum and carry of bit
      position `n - k` and the carry `cIn` out of the columns below (a
      zero carry when `hasIn` is false, which only the first column is). */
  ghost predicate ColumnAdds(a: Assignment, x: seq<int>, y: seq<int>, k: nat, sums: seq<int>, low: seq<int>,
                             cIn: int, hasIn: bool, cOut: int)
    requires |x| == |y| && 1 <= k <= |x|
  {
    var X, Y, C := LitTrue(a, x[|x| - k]), LitTrue(a, y[|x| - k]), hasIn && LitTrue(a, cIn);
    && |sums| > 0 && sums == [sums[0]] + low
    && LitTrue(a, sums[0]) == ((X != Y) != C)
    && LitTrue(a, cOut) == ((X && Y) || (C && X != Y))
    && (!hasIn ==> k == 1 && low == [])
  }

  /** The first iteration of the ripple: a half adder on bit position
      `n - 1`. */
  lemma {:induction false} RippleBase(nfv: nat, x: seq<int>, y: seq<int>, a: Assignment)
    requires |x| == |y| && 1 < |x| && AreVars(x) && AreVars(y) && nfv > 0
    requires Sat(a, RippleLow(nfv, x, y, 1).cnf)
    ensures LowSum(a, x, y, 1, RippleLow(nfv, x, y, 1).sums, RippleLow(nfv, x, y, 1).carry)
  {
    var r := RippleLow(nfv, x, y, 1);
    HalfAdderSound(nfv, x[|x| - 1], y[|x| - 1], a);
    assert r.sums == [r.sums[0]] + [];
    RippleColumn(a, x, y, 1, r.sums, [], 0, false, r.carry);
  }

  /** The clauses of the first `k - 1` iterations are part of those of the
      first `k`. */
  lemma {:induction false} RippleSatLow(nfv: nat, x: seq<int>, y: seq<int>, k: nat, a: Assignment)
    requires |x| == |y| && 1 < k < |x|
    requires Sat(a, RippleLow(nfv, x, y, k).cnf)
    ensures Sat(a, RippleLow(nfv, x, y, k - 1).cnf)
  {
    var p := RippleLow(nfv, x, y, k - 1);
    var fa := FullAdder(p.nfv, x[|x| - k], y[|x| - k], p.carry, false).1;
    SatConcat(a, p.cnf, fa.cnf);
  }

  /** A later iteration of the ripple: a full adder on bit position
      `n - k`, fed the carry of the iterations before it, extends the
      reference addition by one bit. */
  lemma {:induction false} RippleStep(nfv: nat, x: seq<int>, y: seq<int>, k: nat, a: Assignment)
    requires |x| == |y| && 1 < k < |x| && AreVars(x) && AreVars(y) && nfv > 0
    requires Sat(a, RippleLow(nfv, x, y, k).cnf)
    requires LowSum(a, x, y, k - 1, RippleLow(nfv, x, y, k - 1).sums, RippleLow(nfv, x, y, k - 1).carry)
    ensures LowSum(a, x, y, k, RippleLow(nfv, x, y, k).sums, RippleLow(nfv, x, y, k).carry)
  {
    var r, p := RippleLow(nfv, x, y, k), RippleLow(nfv, x, y, k - 1);
    var fa := FullAdder(p.nfv, x[|x| - k], y[|x| - k], p.carry, false).1;
    SatConcat(a, p.cnf, fa.cnf);
    FullAdderSound(p.nfv, x[|x| - k], y[|x| - k], p.carry, false, a);
    RippleColumn(a, x, y, k, r.sums, p.sums, p.carry, true, r.carry);
  }

  /** One column of the ripple read through an assignment: on top of the
      columns below it, it extends the reference addition by one bit. */
  lemma {:induction false} RippleColumn(a: Assignment, x: seq<int>, y: seq<int>, k: nat, sums: seq<int>, low: seq<int>,
                     cIn: int, hasIn: bool, cOut: int)
    requires |x| == |y| && 1 <= k <= |x|
    requires ColumnAdds(a, x, y, k, sums, low, cIn, hasIn, cOut)
    requires hasIn ==> LowSum(a, x, y, k - 1, low, cIn)
    ensures LowSum(a, x, y, k, sums, cOut)
  {
    LowBitsStep(a, x, k);
    LowBitsStep(a, y, k);
    ValsCons(a, sums[0], low);
  }

  /** After `k` iterations the sum variables and the carry hold the sum
      bits and the carry out of the reference ripple-carry addition of
      the low `k` bits of both inputs. */
  lemma {:induction false} RippleLowSound(nfv: nat, x: seq<int>, y: seq<int>, k: nat, a: Assignment)
    requires |x| == |y| && 1 <= k < |x| && AreVars(x) && AreVars(y) && nfv > 0
    requires Sat(a, RippleLow(nfv, x, y, k).cnf)
    ensures LowSum(a, x, y, k, RippleLow(nfv, x, y, k).sums, RippleLow(nfv, x, y, k).carry)
    decreases k
  {
    if k == 1 {
      RippleBase(nfv, x, y, a);
    } else {
      RippleSatLow(nfv, x, y, k, a);
      RippleLowSound(nfv, x, y, k - 1, a);
      RippleStep(nfv, x, y, k, a);
    }
  }

  /** The last full adder of modular_addition, on bit position 0, without
      a carry out, on top of the ripple through the lower positions. */
  lemma {:induction false} RippleTop(nfv: nat, numBits: nat, x: seq<int>, y: seq<int>, a: Assignment)
    requires |x| == numBits && |y| == numBits && numBits >= 2 && AreVars(x) && AreVars(y) && nfv > 0
    requires Sat(a, ModularAddition(nfv, numBits, x, y).1.cnf)
    ensures var o, p := ModularAddition(nfv, numBits, x, y).1.outVars, RippleLow(nfv, x, y, numBits - 1);
      var X, Y, C := LitTrue(a, x[0]), LitTrue(a, y[0]), LitTrue(a, p.carry);
      && Sat(a, p.cnf) && o == [o[0]] + p.sums
      && LitTrue(a, o[0]) == ((X != Y) != C)
  {
    var p := RippleLow(nfv, x, y, numBits - 1);
    var fa := FullAdder(p.nfv, x[0], y[0], p.carry, true).1;
    SatConcat(a, p.cnf, fa.cnf);
    FullAdderSound(p.nfv, x[0], y[0], p.carry, true, a);
  }

  /** The top column read through an assignment: on top of the columns
      below it, and with its carry out dropped, it completes the reference
      addition of the whole words. */
  lemma {:induction false} TopColumn(a: Assignment, x: seq<int>, y: seq<int>, o: seq<int>, low: seq<int>, cIn: int)
    requires |x| == |y| >= 1 && |o| > 0 && o == [o[0]] + low
    requires LitTrue(a, o[0]) == ((LitTrue(a, x[0]) != LitTrue(a, y[0])) != LitTrue(a, cIn))
    requires LowSum(a, x, y, |x| - 1, low, cIn)
    ensures Vals(a, o) == Add(Vals(a, x), Vals(a, y)).0
  {
    LowBitsStep(a, x, |x|);
    LowBitsStep(a, y, |x|);
    assert LowBits(a, x, |x|) == Vals(a, x) && LowBits(a, y, |x|) == Vals(a, y);
    ValsCons(a, o[0], low);
  }

  /** Under every satisfying assignment the outputs are the sum bits of
      the reference ripple-carry addition of the inputs, with the carry
      out of the top bit dropped. */
  lemma {:induction false} ModularAdditionSound(nfv: nat, numBits: nat, x: seq<int>, y: seq<int>, a: Assignment)
    requires |x| == numBits && |y| == numBits && numBits >= 2 && AreVars(x) && AreVars(y) && nfv > 0
    requires Sat(a, ModularAddition(nfv, numBits, x, y).1.cnf)
    ensures Vals(a, ModularAddition(nfv, numBits, x, y).1.outVars) == Add(Vals(a, x), Vals(a, y)).0
  {
    var p := RippleLow(nfv, x, y, numBits - 1);
    var o := ModularAddition(nfv, numBits, x, y).1.outVars;
    RippleTop(nfv, numBits, x, y, a);
    RippleLowSound(nfv, x, y, numBits - 1, a);
    TopColumn(a, x, y, o, p.sums, p.carry);
  }

  /** Under every satisfying assignment the output word denotes
      `(x + y) mod 2^numBits`. */
  lemma {:induction false} ModularAdditionValue(nfv: nat, numBits: nat, x: seq<int>, y: seq<int>, a: Assignment)
    requires |x| == numBits && |y| == numBits && numBits >= 2 && AreVars(x) && AreVars(y) && nfv > 0
    requires Sat(a, ModularAddition(nfv, numBits, x, y).1.cnf)
    ensures Val(Vals(a, ModularAddition(nfv, numBits, x, y).1.outVars))
      == (Val(Vals(a, x)) + Val(Vals(a, y))) % Pow2(numBits)
  {
    ModularAdditionSound(nfv, numBits, x, y, a);
    AddMod(Vals(a, x), Vals(a, y));
  }

  /** The result as a bit vector: the encoding of the sum modulo
      `2^numBits`. */
  lemma {:induction false} ModularAdditionBits(nfv: nat, numBits: nat, x: seq<int>, y: seq<int>, a: Assignment)
    requires |x| == numBits && |y| == numBits && numBits >= 2 && AreVars(x) && AreVars(y) && nfv > 0
    requires Sat(a, ModularAddition(nfv, numBits, x, y).1.cnf)
    ensures Vals(a, ModularAddition(nfv, numBits, x, y).1.outVars)
      == ToBits(numBits, (Val(Vals(a, x)) + Val(Vals(a, y))) % Pow2(numBits))
  {
    ModularAdditionValue(nfv, numBits, x, y, a);
    ToBitsVal(Vals(a, ModularAddition(nfv, numBits, x, y).1.outVars));
  }

  /** The first iteration of the ripple is a half adder. */
  lemma {:induction false} RippleBaseAllocates(nfv: nat, x: seq<int>, y: seq<int>)
    requires |x| == |y| && 1 < |x| && 0 < nfv && Below(x, nfv) && Below(y, nfv)
    ensures var r := RippleLow(nfv, x, y, 1);
      Wired(r.cnf, nfv, r.nfv) && Closed(r.cnf, x + y, nfv, r.nfv)
  {
    var n := |x|;
    var r := RippleLow(nfv, x, y, 1);
    var h := HalfAdder(nfv, x[n - 1], y[n - 1]).1;
    assert x[n - 1] in x + y && y[n - 1] in x + y;
    assert r.cnf == h.cnf;
    HalfAdderAllocates(nfv, x[n - 1], y[n - 1]);
    ClosedWiden(h.cnf, [x[n - 1], y[n - 1]], nfv, r.nfv, x + y, nfv, r.nfv);
  }

  /** A later iteration adds a full adder on top of the earlier ones. */
  lemma {:induction false} RippleStepAllocates(nfv: nat, x: seq<int>, y: seq<int>, k: nat)
    requires |x| == |y| && 1 < k < |x| && 0 < nfv && Below(x, nfv) && Below(y, nfv)
    requires var p := RippleLow(nfv, x, y, k - 1);
      Wired(p.cnf, nfv, p.nfv) && Closed(p.cnf, x + y, nfv, p.nfv)
    ensures var r := RippleLow(nfv, x, y, k);
      Wired(r.cnf, nfv, r.nfv) && Closed(r.cnf, x + y, nfv, r.nfv)
  {
    hide FullAdder, Wired, Closed;
    var n := |x|;
    var r, p := RippleLow(nfv, x, y, k), RippleLow(nfv, x, y, k - 1);
    var fa := FullAdder(p.nfv, x[n - k], y[n - k], p.carry, false).1;
    assert x[n - k] in x + y && y[n - k] in x + y;
    assert r.cnf == p.cnf + fa.cnf;
    FullAdderAllocates(p.nfv, x[n - k], y[n - k], p.carry, false);
    Chain(p.cnf, fa.cnf, nfv, p.nfv, r.nfv);
    ClosedWiden(fa.cnf, [x[n - k], y[n - k], p.carry], p.nfv, r.nfv, x + y, nfv, r.nfv);
    ClosedWiden(p.cnf, x + y, nfv, p.nfv, x + y, nfv, r.nfv);
    ClosedConcat(p.cnf, fa.cnf, x + y, nfv, r.nfv);
  }

  lemma {:induction false} RippleLowAllocates(nfv: nat, x: seq<int>, y: seq<int>, k: nat)
    requires |x| == |y| && 1 <= k < |x| && 0 < nfv && Below(x, nfv) && Below(y, nfv)
    ensures var r := RippleLow(nfv, x, y, k);
      Wired(r.cnf, nfv, r.nfv) && Closed(r.cnf, x + y, nfv, r.nfv)
    decreases k
  {
    hide RippleLow, Wired, Closed;
    if k == 1 {
      RippleBaseAllocates(nfv, x, y);
    } else {
      RippleLowAllocates(nfv, x, y, k - 1);
      RippleStepAllocates(nfv, x, y, k);
    }
  }

  lemma {:induction false} ModularAdditionAllocates(nfv: nat, numBits: nat, x: seq<int>, y: seq<int>)
    requires |x| == numBits && |y| == numBits && numBits >= 2
    requires 0 < nfv && Below(x, nfv) && Below(y, nfv)
    ensures Allocates(nfv, ModularAddition(nfv, numBits, x, y))
  {
    hide RippleLow, FullAdder, Wired, Closed;
    var p := RippleLow(nfv, x, y, numBits - 1);
    var (n1, fa) := FullAdder(p.nfv, x[0], y[0], p.carry, true);
    RippleLowAllocates(nfv, x, y, numBits - 1);
    FullAdderAllocates(p.nfv, x[0], y[0], p.carry, true);
    Chain(p.cnf, fa.cnf, nfv, p.nfv, n1);
    assert x[0] in x + y && y[0] in x + y;
    ClosedWiden(fa.cnf, [x[0], y[0], p.carry], p.nfv, n1, x + y, nfv, n1);
    ClosedWiden(p.cnf, x + y, nfv, p.nfv, x + y, nfv, n1);
    ClosedConcat(p.cnf, fa.cnf, x + y, nfv, n1);
  }

  // =====================================================================
  // Constants

  /** The unit clause create_constant_vec emits for a bit: the positive
      literal for one, the negative literal for zero. */
  function Unit(v: int, bit: bool): Clause
  {
    if bit then [v] else [-v]
  }

  /** The create_constant_vec loop after its first `i` iterations. */
  function ConstLoop(nfv: nat, vec: seq<bool>, i: nat): (r: (nat, seq<int>, Formula))
    requires i <= |vec|
    ensures r.0 == nfv + i && |r.1| == i && Consecutive(r.1, nfv) && |r.2| == i
    decreases i
  {
    if i == 0 then (nfv, [], [])
    else
      var (n1, outs, cnf) := ConstLoop(nfv, vec, i - 1);
      (n1 + 1, outs + [n1], cnf + [Unit(n1, vec[i - 1])])
  }

  /** Fresh variables fixed to the bits of `vec`; no inputs. */
  function CreateConstantVec(nfv: nat, vec: seq<bool>): (r: (nat, Result))
    ensures r.0 == nfv + |vec| && |r.1.outVars| == |vec| && Consecutive(r.1.outVars, nfv)
    ensures r.1.inVars == []
  {
    var (n, outs, cnf) := ConstLoop(nfv, vec, |vec|);
    (n, Result([], outs, cnf))
  }

  lemma {:induction false} UnitMeaning(a: Assignment, v: int, bit: bool)
    requires v > 0
    ensures Sat(a, [Unit(v, bit)]) <==> LitTrue(a, v) == bit
  {
    Sat1(a, Unit(v, bit));
    Clause1(a, if bit then v else -v);
  }

  lemma {:induction false} ConstLoopMeaning(nfv: nat, vec: seq<bool>, i: nat, a: Assignment)
    requires i <= |vec| && nfv > 0
    ensures Sat(a, ConstLoop(nfv, vec, i).2) <==> Vals(a, ConstLoop(nfv, vec, i).1) == vec[..i]
    decreases i
  {
    if i == 0 {
      SatEmpty(a);
    } else {
      var (n1, outs, cnf) := ConstLoop(nfv, vec, i - 1);
      ConstLoopMeaning(nfv, vec, i - 1, a);
      SatConcat(a, cnf, [Unit(n1, vec[i - 1])]);
      UnitMeaning(a, n1, vec[i - 1]);
      ValsConcat(a, outs, [n1]);
      var w := Vals(a, outs + [n1]);
      assert vec[..i] == vec[..i - 1] + [vec[i - 1]];
      if w == vec[..i] {
        assert w[..i - 1] == Vals(a, outs) && w[i - 1] == LitTrue(a, n1);
      }
    }
  }

  /** A satisfying assignment is one that gives the outputs exactly the
      bits of `vec`. */
  lemma {:induction false} CreateConstantVecMeaning(nfv: nat, vec: seq<bool>, a: Assignment)
    requires nfv > 0
    ensures Sat(a, CreateConstantVec(nfv, vec).1.cnf)
      <==> Vals(a, CreateConstantVec(nfv, vec).1.outVars) == vec
  {
    ConstLoopMeaning(nfv, vec, |vec|, a);
    assert vec[..|vec|] == vec;
  }

  /** The constant built from the `n`-bit encoding of `num` decodes back
      to `num`. */
  lemma {:induction false} CreateConstantVecDecodes(nfv: nat, n: nat, num: nat, a: Assignment)
    requires nfv > 0 && num < Pow2(n)
    requires Sat(a, CreateConstantVec(nfv, ToBits(n, num)).1.cnf)
    ensures Val(Vals(a, CreateConstantVec(nfv, ToBits(n, num)).1.outVars)) == num
  {
    CreateConstantVecMeaning(nfv, ToBits(n, num), a);
    ValToBits(n, num);
  }

  lemma {:induction false} UnitAllocates(v: nat, bit: bool)
    requires v > 0
    ensures Wired([Unit(v, bit)], v, v + 1) && Closed([Unit(v, bit)], [], v, v + 1)
  {
    var f := [Unit(v, bit)];
    GateShape(f, [], v, 0);
    var hi := v + 1;
    forall a: Assignment ensures ExtendsFrom(f, v, hi, a) {
      var b := With(a, v, bit);
      UnitMeaning(b, v, bit);
      assert Agree(a, b, v, hi);
    }
  }

  lemma {:induction false} ConstLoopAllocates(nfv: nat, vec: seq<bool>, i: nat)
    requires i <= |vec| && nfv > 0
    ensures Wired(ConstLoop(nfv, vec, i).2, nfv, nfv + i)
    ensures Closed(ConstLoop(nfv, vec, i).2, [], nfv, nfv + i)
    decreases i
  {
    if i == 0 {
      WiredEmpty(nfv);
    } else {
      var (n1, outs, cnf) := ConstLoop(nfv, vec, i - 1);
      ConstLoopAllocates(nfv, vec, i - 1);
      UnitAllocates(n1, vec[i - 1]);
      Chain(cnf, [Unit(n1, vec[i - 1])], nfv, n1, n1 + 1);
      ClosedWiden(cnf, [], nfv, n1, [], nfv, n1 + 1);
      ClosedWiden([Unit(n1, vec[i - 1])], [], n1, n1 + 1, [], nfv, n1 + 1);
      ClosedConcat(cnf, [Unit(n1, vec[i - 1])], [], nfv, n1 + 1);
    }
  }

  lemma {:induction false} CreateConstantVecAllocates(nfv: nat, vec: seq<bool>)
    requires nfv > 0
    ensures Allocates(nfv, CreateConstantVec(nfv, vec))
  {
    ConstLoopAllocates(nfv, vec, |vec|);
  }
}
