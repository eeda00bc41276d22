/** The building blocks of the FEAL-NX compiler (feal.py): the S-boxes,
    the round function f and the key-processing function fK, each
    assembled from the gadgets by threading the next-free-variable counter,
    and proved to compute the reference functions under every satisfying
    assignment. */
module Feal {
  import opened Cnf
  import opened Bits
  import opened Gadgets
  import FealSpec

  // =====================================================================
  // S-boxes

  /** S0(x1, x2): an 8-bit modular addition followed by a rotation left by
      two. */
  function S0(nfv: nat, x1: seq<int>, x2: seq<int>): (r: (nat, Result))
    requires |x1| == 8 && |x2| == 8
    ensures r.0 == nfv + 42 && |r.1.outVars| == 8 && Within(r.1.outVars, nfv, r.0)
    ensures r.1.inVars == x1 + x2
  {
    hide ModularAddition, CreateConstantVec, RotateLeftByK;
    var add := ModularAddition(nfv, 8, x1, x2);
    var rot := RotateLeftByK(add.0, 8, add.1.outVars, 2);
    (rot.0, Result(x1 + x2, rot.1.outVars, add.1.cnf + rot.1.cnf))
  }

  /** The constant one as an MSB-first byte, [0, 0, 0, 0, 0, 0, 0, 1]. */
  const One: seq<bool> := ToBits(8, 1)

  /** S1(x1, x2): the constant one injected, two 8-bit modular additions
      and a rotation left by two. */
  function S1(nfv: nat, x1: seq<int>, x2: seq<int>): (r: (nat, Result))
    requires |x1| == 8 && |x2| == 8
    ensures r.0 == nfv + 84 && |r.1.outVars| == 8 && Within(r.1.outVars, nfv, r.0)
    ensures r.1.inVars == x1 + x2
  {
    hide ModularAddition, CreateConstantVec, RotateLeftByK;
    var one := CreateConstantVec(nfv, One);
    var add := ModularAddition(one.0, 8, x1, x2);
    var add2 := ModularAddition(add.0, 8, add.1.outVars, one.1.outVars);
    var rot := RotateLeftByK(add2.0, 8, add2.1.outVars, 2);
    (rot.0, Result(x1 + x2, rot.1.outVars, one.1.cnf + add.1.cnf + add2.1.cnf + rot.1.cnf))
  }

  /** The reference S0 is the rotated sum bits of the ripple adder. */
  lemma {:induction false} S0Bits(x1: seq<bool>, x2: seq<bool>)
    requires |x1| == 8 && |x2| == 8
    ensures FealSpec.S0(x1, x2) == RotL(Add(x1, x2).0, 2)
  {
    AddBits(x1, x2);
    S0Unfold(x1, x2);
  }

  // Unfolding the reference S-boxes in a context of their own keeps the
  // solver away from the arithmetic inside them.
  lemma {:induction false} S0Unfold(x1: seq<bool>, x2: seq<bool>)
    requires |x1| == 8 && |x2| == 8
    ensures FealSpec.S0(x1, x2) == RotL(ToBits(|x1|, Val(x1) + Val(x2)), 2)
  {
  }

  lemma {:induction false} S1Unfold(x1: seq<bool>, x2: seq<bool>)
    requires |x1| == 8 && |x2| == 8
    ensures FealSpec.S1(x1, x2) == RotL(ToBits(|x1|, Val(x1) + Val(x2) + 1), 2)
  {
  }

  /** The constant one injected by S1 has value one. */
  lemma {:induction false} OneValue()
    ensures |One| == 8 && Val(One) == 1
  {
    ValToBits(8, 1);
  }

  /** The reference S1 is the rotated sum bits of two ripple additions,
      the second adding the constant one. */
  lemma {:induction false} S1Bits(x1: seq<bool>, x2: seq<bool>)
    requires |x1| == 8 && |x2| == 8
    ensures FealSpec.S1(x1, x2) == RotL(Add(Add(x1, x2).0, One).0, 2)
  {
    OneValue();
    S1BitsWith(x1, x2, One);
  }

  lemma {:induction false} S1BitsWith(x1: seq<bool>, x2: seq<bool>, one: seq<bool>)
    requires |x1| == 8 && |x2| == 8 && |one| == 8 && Val(one) == 1
    ensures FealSpec.S1(x1, x2) == RotL(Add(Add(x1, x2).0, one).0, 2)
  {
    AddConst(x1, x2, one, 1);
    S1Unfold(x1, x2);
  }

  lemma {:induction false} S0Sound(nfv: nat, x1: seq<int>, x2: seq<int>, a: Assignment)
    requires |x1| == 8 && |x2| == 8 && AreVars(x1) && AreVars(x2) && nfv > 0
    requires Sat(a, S0(nfv, x1, x2).1.cnf)
    ensures Vals(a, S0(nfv, x1, x2).1.outVars) == FealSpec.S0(Vals(a, x1), Vals(a, x2))
  {
    hide ModularAddition, CreateConstantVec, RotateLeftByK;
    var add := ModularAddition(nfv, 8, x1, x2);
    var rot := RotateLeftByK(add.0, 8, add.1.outVars, 2);
    SatConcat(a, add.1.cnf, rot.1.cnf);
    ModularAdditionSound(nfv, 8, x1, x2, a);
    WithinBelow(add.1.outVars, nfv, add.0);
    RotateLeftSound(add.0, 8, add.1.outVars, 2, a);
    S0Bits(Vals(a, x1), Vals(a, x2));
  }

  lemma {:induction false} S1Sound(nfv: nat, x1: seq<int>, x2: seq<int>, a: Assignment)
    requires |x1| == 8 && |x2| == 8 && AreVars(x1) && AreVars(x2) && nfv > 0
    requires Sat(a, S1(nfv, x1, x2).1.cnf)
    ensures Vals(a, S1(nfv, x1, x2).1.outVars) == FealSpec.S1(Vals(a, x1), Vals(a, x2))
  {
    hide ModularAddition, CreateConstantVec, RotateLeftByK;
    var one := CreateConstantVec(nfv, One);
    var add := ModularAddition(one.0, 8, x1, x2);
    var add2 := ModularAddition(add.0, 8, add.1.outVars, one.1.outVars);
    var rot := RotateLeftByK(add2.0, 8, add2.1.outVars, 2);
    SatConcat(a, one.1.cnf + add.1.cnf + add2.1.cnf, rot.1.cnf);
    SatConcat(a, one.1.cnf + add.1.cnf, add2.1.cnf);
    SatConcat(a, one.1.cnf, add.1.cnf);
    CreateConstantVecMeaning(nfv, One, a);
    WithinBelow(one.1.outVars, nfv, one.0);
    WithinBelow(add.1.outVars, one.0, add.0);
    WithinBelow(add2.1.outVars, add.0, add2.0);
    ModularAdditionSound(one.0, 8, x1, x2, a);
    ModularAdditionSound(add.0, 8, add.1.outVars, one.1.outVars, a);
    RotateLeftSound(add2.0, 8, add2.1.outVars, 2, a);
    S1Bits(Vals(a, x1), Vals(a, x2));
  }

  lemma {:induction false} S0Allocates(nfv: nat, x1: seq<int>, x2: seq<int>)
    requires |x1| == 8 && |x2| == 8 && 0 < nfv && Below(x1, nfv) && Below(x2, nfv)
    ensures Allocates(nfv, S0(nfv, x1, x2))
  {
    hide ModularAddition, CreateConstantVec, RotateLeftByK;
    var add := ModularAddition(nfv, 8, x1, x2);
    var rot := RotateLeftByK(add.0, 8, add.1.outVars, 2);
    ModularAdditionAllocates(nfv, 8, x1, x2);
    WithinBelow(add.1.outVars, nfv, add.0);
    RotateLeftAllocates(add.0, 8, add.1.outVars, 2);
    FromSelf(x1 + x2, nfv, rot.0);
    FromWithin(add.1.outVars, x1 + x2, nfv, rot.0, nfv, add.0);
    Append(add.1.cnf, x1 + x2, rot.1.cnf, add.1.outVars, x1 + x2, nfv, add.0, rot.0);
  }

  lemma {:induction false} S1Allocates(nfv: nat, x1: seq<int>, x2: seq<int>)
    requires |x1| == 8 && |x2| == 8 && 0 < nfv && Below(x1, nfv) && Below(x2, nfv)
    ensures Allocates(nfv, S1(nfv, x1, x2))
  {
    hide ModularAddition, CreateConstantVec, RotateLeftByK;
    var ins := x1 + x2;
    var one := CreateConstantVec(nfv, One);
    var add := ModularAddition(one.0, 8, x1, x2);
    var add2 := ModularAddition(add.0, 8, add.1.outVars, one.1.outVars);
    var rot := RotateLeftByK(add2.0, 8, add2.1.outVars, 2);
    CreateConstantVecAllocates(nfv, One);
    assert Within(one.1.outVars, nfv, one.0);
    WithinBelow(one.1.outVars, nfv, add.0);
    ModularAdditionAllocates(one.0, 8, x1, x2);
    FromSelf(ins, nfv, add.0);
    Append(one.1.cnf, [], add.1.cnf, ins, ins, nfv, one.0, add.0);
    WithinBelow(add.1.outVars, one.0, add.0);
    ModularAdditionAllocates(add.0, 8, add.1.outVars, one.1.outVars);
    FromSelf(ins, nfv, add2.0);
    FromWithin(add.1.outVars, ins, nfv, add2.0, one.0, add.0);
    FromWithin(one.1.outVars, ins, nfv, add2.0, nfv, one.0);
    FromConcat(add.1.outVars, one.1.outVars, ins, nfv, add2.0);
    Append(one.1.cnf + add.1.cnf, ins, add2.1.cnf, add.1.outVars + one.1.outVars, ins, nfv, add.0, add2.0);
    WithinBelow(add2.1.outVars, add.0, add2.0);
    RotateLeftAllocates(add2.0, 8, add2.1.outVars, 2);
    FromSelf(ins, nfv, rot.0);
    FromWithin(add2.1.outVars, ins, nfv, rot.0, add.0, add2.0);
    Append(one.1.cnf + add.1.cnf + add2.1.cnf, ins, rot.1.cnf, add2.1.outVars, ins, nfv, add2.0, rot.0);
  }

  // =====================================================================
  // Round function

  /** f(alpha, beta) of a 32-bit alpha and a 16-bit beta: four word xors
      and the four S-boxes, in the order of the source. */
  function F(nfv: nat, alpha: seq<int>, beta: seq<int>): (r: (nat, Result))
    requires |alpha| == 32 && |beta| == 16
    ensures r.0 == nfv + 284 && |r.1.outVars| == 32 && r.1.inVars == alpha + beta
  {
    hide S0, S1, WordXor;
    var a0, a1, a2, a3 := alpha[0..8], alpha[8..16], alpha[16..24], alpha[24..32];
    var b0, b1 := beta[0..8], beta[8..16];
    var res1 := WordXor(nfv, a1, b0);
    var res2 := WordXor(res1.0, a2, b1);
    var res3 := WordXor(res2.0, res1.1.outVars, a0);
    var res4 := WordXor(res3.0, res2.1.outVars, a3);
    var res5 := S1(res4.0, res3.1.outVars, res4.1.outVars);
    var res6 := S0(res5.0, res4.1.outVars, res5.1.outVars);
    var res7 := S0(res6.0, a0, res5.1.outVars);
    var res8 := S1(res7.0, a3, res6.1.outVars);
    (res8.0, Result(alpha + beta,
                    res7.1.outVars + res5.1.outVars + res6.1.outVars + res8.1.outVars,
                    res1.1.cnf + res2.1.cnf + res3.1.cnf + res4.1.cnf +
                    res5.1.cnf + res6.1.cnf + res7.1.cnf + res8.1.cnf))
  }

  lemma {:induction false} FAllocates(nfv: nat, alpha: seq<int>, beta: seq<int>)
    requires |alpha| == 32 && |beta| == 16 && 0 < nfv && Below(alpha, nfv) && Below(beta, nfv)
    ensures Allocates(nfv, F(nfv, alpha, beta))
    ensures Within(F(nfv, alpha, beta).1.outVars, nfv, F(nfv, alpha, beta).0)
  {
    hide S0, S1, WordXor;
    var ins := alpha + beta;
    var a0, a1, a2, a3 := alpha[0..8], alpha[8..16], alpha[16..24], alpha[24..32];
    var b0, b1 := beta[0..8], beta[8..16];
    var res1 := WordXor(nfv, a1, b0);
    var res2 := WordXor(res1.0, a2, b1);
    var res3 := WordXor(res2.0, res1.1.outVars, a0);
    var res4 := WordXor(res3.0, res2.1.outVars, a3);
    var res5 := S1(res4.0, res3.1.outVars, res4.1.outVars);
    var res6 := S0(res5.0, res4.1.outVars, res5.1.outVars);
    var res7 := S0(res6.0, a0, res5.1.outVars);
    var res8 := S1(res7.0, a3, res6.1.outVars);
    var f1 := res1.1.cnf;
    var f2 := f1 + res2.1.cnf;
    var f3 := f2 + res3.1.cnf;
    var f4 := f3 + res4.1.cnf;
    var f5 := f4 + res5.1.cnf;
    var f6 := f5 + res6.1.cnf;
    var f7 := f6 + res7.1.cnf;
    // res1 = a1 ^ b0
    FromSlices(alpha, beta, 8, 16, nfv, nfv);
    FromSlices(alpha, beta, 0, 8, nfv, nfv);
    Operands(a1, b0, ins, nfv, nfv);
    WordXorAllocates(nfv, a1, b0);
    Begin(ins, nfv, res1);
    // res2 = a2 ^ b1
    FromSlices(alpha, beta, 16, 24, nfv, res1.0);
    FromSlices(alpha, beta, 8, 16, nfv, res1.0);
    Operands(a2, b1, ins, nfv, res1.0);
    WordXorAllocates(res1.0, a2, b1);
    Extend(f1, ins, nfv, res1.0, res2);
    // res3 = res1 ^ a0
    FromConsecutive(res1.1.outVars, ins, nfv, res2.0, nfv);
    FromSlices(alpha, beta, 0, 8, nfv, res2.0);
    Operands(res1.1.outVars, a0, ins, nfv, res2.0);
    WordXorAllocates(res2.0, res1.1.outVars, a0);
    Extend(f2, ins, nfv, res2.0, res3);
    // res4 = res2 ^ a3
    FromConsecutive(res2.1.outVars, ins, nfv, res3.0, res1.0);
    FromSlices(alpha, beta, 24, 32, nfv, res3.0);
    Operands(res2.1.outVars, a3, ins, nfv, res3.0);
    WordXorAllocates(res3.0, res2.1.outVars, a3);
    Extend(f3, ins, nfv, res3.0, res4);
    // res5 = s1(res3, res4)
    FromConsecutive(res3.1.outVars, ins, nfv, res4.0, res2.0);
    FromConsecutive(res4.1.outVars, ins, nfv, res4.0, res3.0);
    Operands(res3.1.outVars, res4.1.outVars, ins, nfv, res4.0);
    S1Allocates(res4.0, res3.1.outVars, res4.1.outVars);
    Extend(f4, ins, nfv, res4.0, res5);
    // res6 = s0(res4, res5)
    FromConsecutive(res4.1.outVars, ins, nfv, res5.0, res3.0);
    FromWithin(res5.1.outVars, ins, nfv, res5.0, res4.0, res5.0);
    Operands(res4.1.outVars, res5.1.outVars, ins, nfv, res5.0);
    S0Allocates(res5.0, res4.1.outVars, res5.1.outVars);
    Extend(f5, ins, nfv, res5.0, res6);
    // res7 = s0(a0, res5)
    FromSlices(alpha, beta, 0, 8, nfv, res6.0);
    FromWithin(res5.1.outVars, ins, nfv, res6.0, res4.0, res5.0);
    Operands(a0, res5.1.outVars, ins, nfv, res6.0);
    S0Allocates(res6.0, a0, res5.1.outVars);
    Extend(f6, ins, nfv, res6.0, res7);
    // res8 = s1(a3, res6)
    FromSlices(alpha, beta, 24, 32, nfv, res7.0);
    FromWithin(res6.1.outVars, ins, nfv, res7.0, res5.0, res6.0);
    Operands(a3, res6.1.outVars, ins, nfv, res7.0);
    S1Allocates(res7.0, a3, res6.1.outVars);
    Extend(f7, ins, nfv, res7.0, res8);
  }

  /** Under every satisfying assignment the outputs of f are the reference
      f of the values of its inputs. */
  lemma {:induction false} FSound(nfv: nat, alpha: seq<int>, beta: seq<int>, a: Assignment)
    requires |alpha| == 32 && |beta| == 16 && AreVars(alpha) && AreVars(beta) && nfv > 0
    requires Sat(a, F(nfv, alpha, beta).1.cnf)
    ensures Vals(a, F(nfv, alpha, beta).1.outVars) == FealSpec.Fn(Vals(a, alpha), Vals(a, beta))
  {
    hide S0, S1, WordXor, FealSpec.S0, FealSpec.S1;
    var a0, a1, a2, a3 := alpha[0..8], alpha[8..16], alpha[16..24], alpha[24..32];
    var b0, b1 := beta[0..8], beta[8..16];
    var res1 := WordXor(nfv, a1, b0);
    var res2 := WordXor(res1.0, a2, b1);
    var res3 := WordXor(res2.0, res1.1.outVars, a0);
    var res4 := WordXor(res3.0, res2.1.outVars, a3);
    var res5 := S1(res4.0, res3.1.outVars, res4.1.outVars);
    var res6 := S0(res5.0, res4.1.outVars, res5.1.outVars);
    var res7 := S0(res6.0, a0, res5.1.outVars);
    var res8 := S1(res7.0, a3, res6.1.outVars);
    var f1 := res1.1.cnf;
    var f2 := f1 + res2.1.cnf;
    var f3 := f2 + res3.1.cnf;
    var f4 := f3 + res4.1.cnf;
    var f5 := f4 + res5.1.cnf;
    var f6 := f5 + res6.1.cnf;
    var f7 := f6 + res7.1.cnf;
    SatConcat(a, f7, res8.1.cnf);
    SatConcat(a, f6, res7.1.cnf);
    SatConcat(a, f5, res6.1.cnf);
    SatConcat(a, f4, res5.1.cnf);
    SatConcat(a, f3, res4.1.cnf);
    SatConcat(a, f2, res3.1.cnf);
    SatConcat(a, f1, res2.1.cnf);
    WordXorSound(nfv, a1, b0, a);
    WordXorSound(res1.0, a2, b1, a);
    FromConsecutive(res1.1.outVars, [], nfv, res1.0, nfv);
    WithinBelow(res1.1.outVars, nfv, res1.0);
    WordXorSound(res2.0, res1.1.outVars, a0, a);
    FromConsecutive(res2.1.outVars, [], res1.0, res2.0, res1.0);
    WithinBelow(res2.1.outVars, res1.0, res2.0);
    WordXorSound(res3.0, res2.1.outVars, a3, a);
    FromConsecutive(res3.1.outVars, [], res2.0, res3.0, res2.0);
    WithinBelow(res3.1.outVars, res2.0, res3.0);
    FromConsecutive(res4.1.outVars, [], res3.0, res4.0, res3.0);
    WithinBelow(res4.1.outVars, res3.0, res4.0);
    S1Sound(res4.0, res3.1.outVars, res4.1.outVars, a);
    WithinBelow(res5.1.outVars, res4.0, res5.0);
    S0Sound(res5.0, res4.1.outVars, res5.1.outVars, a);
    WithinBelow(res6.1.outVars, res5.0, res6.0);
    S0Sound(res6.0, a0, res5.1.outVars, a);
    S1Sound(res7.0, a3, res6.1.outVars, a);
    ValsSlice(a, alpha, 0, 8);
    ValsSlice(a, alpha, 8, 16);
    ValsSlice(a, alpha, 16, 24);
    ValsSlice(a, alpha, 24, 32);
    ValsSlice(a, beta, 0, 8);
    ValsSlice(a, beta, 8, 16);
    ValsConcat(a, res7.1.outVars + res5.1.outVars + res6.1.outVars, res8.1.outVars);
    ValsConcat(a, res7.1.outVars + res5.1.outVars, res6.1.outVars);
    ValsConcat(a, res7.1.outVars, res5.1.outVars);
  }

  // =====================================================================
  // Key-processing function

  /** fK(alpha, beta) of two 32-bit words: six word xors and the four
      S-boxes, in the order of the source. */
  function Fk(nfv: nat, alpha: seq<int>, beta: seq<int>): (r: (nat, Result))
    requires |alpha| == 32 && |beta| == 32
    ensures r.0 == nfv + 300 && |r.1.outVars| == 32 && r.1.inVars == alpha + beta
  {
    hide S0, S1, WordXor;
    var a0, a1, a2, a3 := alpha[0..8], alpha[8..16], alpha[16..24], alpha[24..32];
    var b0, b1, b2, b3 := beta[0..8], beta[8..16], beta[16..24], beta[24..32];
    var res1 := WordXor(nfv, a1, a0);
    var res2 := WordXor(res1.0, a2, a3);
    var res3Right := WordXor(res2.0, res2.1.outVars, b0);
    var res3 := S1(res3Right.0, res1.1.outVars, res3Right.1.outVars);
    var res4Right := WordXor(res3.0, res3.1.outVars, b1);
    var res4 := S0(res4Right.0, res2.1.outVars, res4Right.1.outVars);
    var res5Right := WordXor(res4.0, res3.1.outVars, b2);
    var res5 := S0(res5Right.0, a0, res5Right.1.outVars);
    var res6Right := WordXor(res5.0, res4.1.outVars, b3);
    var res6 := S1(res6Right.0, a3, res6Right.1.outVars);
    (res6.0, Result(alpha + beta,
                    res5.1.outVars + res3.1.outVars + res4.1.outVars + res6.1.outVars,
                    res1.1.cnf + res2.1.cnf + res3Right.1.cnf + res3.1.cnf + res4Right.1.cnf +
                    res4.1.cnf + res5Right.1.cnf + res5.1.cnf + res6Right.1.cnf + res6.1.cnf))
  }

  lemma {:induction false} FkAllocates(nfv: nat, alpha: seq<int>, beta: seq<int>)
    requires |alpha| == 32 && |beta| == 32 && 0 < nfv && Below(alpha, nfv) && Below(beta, nfv)
    ensures Allocates(nfv, Fk(nfv, alpha, beta))
    ensures Within(Fk(nfv, alpha, beta).1.outVars, nfv, Fk(nfv, alpha, beta).0)
  {
    hide S0, S1, WordXor;
    var ins := alpha + beta;
    var a0, a1, a2, a3 := alpha[0..8], alpha[8..16], alpha[16..24], alpha[24..32];
    var b0, b1, b2, b3 := beta[0..8], beta[8..16], beta[16..24], beta[24..32];
    var res1 := WordXor(nfv, a1, a0);
    var res2 := WordXor(res1.0, a2, a3);
    var res3Right := WordXor(res2.0, res2.1.outVars, b0);
    var res3 := S1(res3Right.0, res1.1.outVars, res3Right.1.outVars);
    var res4Right := WordXor(res3.0, res3.1.outVars, b1);
    var res4 := S0(res4Right.0, res2.1.outVars, res4Right.1.outVars);
    var res5Right := WordXor(res4.0, res3.1.outVars, b2);
    var res5 := S0(res5Right.0, a0, res5Right.1.outVars);
    var res6Right := WordXor(res5.0, res4.1.outVars, b3);
    var res6 := S1(res6Right.0, a3, res6Right.1.outVars);
    var f1 := res1.1.cnf;
    var f2 := f1 + res2.1.cnf;
    var f3 := f2 + res3Right.1.cnf;
    var f4 := f3 + res3.1.cnf;
    var f5 := f4 + res4Right.1.cnf;
    var f6 := f5 + res4.1.cnf;
    var f7 := f6 + res5Right.1.cnf;
    var f8 := f7 + res5.1.cnf;
    var f9 := f8 + res6Right.1.cnf;
    // res1 = a1 ^ a0
    FromSlices(alpha, beta, 8, 16, nfv, nfv);
    FromSlices(alpha, beta, 0, 8, nfv, nfv);
    Operands(a1, a0, ins, nfv, nfv);
    WordXorAllocates(nfv, a1, a0);
    Begin(ins, nfv, res1);
    // res2 = a2 ^ a3
    FromSlices(alpha, beta, 16, 24, nfv, res1.0);
    FromSlices(alpha, beta, 24, 32, nfv, res1.0);
    Operands(a2, a3, ins, nfv, res1.0);
    WordXorAllocates(res1.0, a2, a3);
    Extend(f1, ins, nfv, res1.0, res2);
    // res3_right = res2 ^ b0
    FromConsecutive(res2.1.outVars, ins, nfv, res2.0, res1.0);
    FromSlices(alpha, beta, 0, 8, nfv, res2.0);
    Operands(res2.1.outVars, b0, ins, nfv, res2.0);
    WordXorAllocates(res2.0, res2.1.outVars, b0);
    Extend(f2, ins, nfv, res2.0, res3Right);
    // res3 = s1(res1, res3_right)
    FromConsecutive(res1.1.outVars, ins, nfv, res3Right.0, nfv);
    FromConsecutive(res3Right.1.outVars, ins, nfv, res3Right.0, res2.0);
    Operands(res1.1.outVars, res3Right.1.outVars, ins, nfv, res3Right.0);
    S1Allocates(res3Right.0, res1.1.outVars, res3Right.1.outVars);
    Extend(f3, ins, nfv, res3Right.0, res3);
    // res4_right = res3 ^ b1
    FromWithin(res3.1.outVars, ins, nfv, res3.0, res3Right.0, res3.0);
    FromSlices(alpha, beta, 8, 16, nfv, res3.0);
    Operands(res3.1.outVars, b1, ins, nfv, res3.0);
    WordXorAllocates(res3.0, res3.1.outVars, b1);
    Extend(f4, ins, nfv, res3.0, res4Right);
    // res4 = s0(res2, res4_right)
    FromConsecutive(res2.1.outVars, ins, nfv, res4Right.0, res1.0);
    FromConsecutive(res4Right.1.outVars, ins, nfv, res4Right.0, res3.0);
    Operands(res2.1.outVars, res4Right.1.outVars, ins, nfv, res4Right.0);
    S0Allocates(res4Right.0, res2.1.outVars, res4Right.1.outVars);
    Extend(f5, ins, nfv, res4Right.0, res4);
    // res5_right = res3 ^ b2
    FromWithin(res3.1.outVars, ins, nfv, res4.0, res3Right.0, res3.0);
    FromSlices(alpha, beta, 16, 24, nfv, res4.0);
    Operands(res3.1.outVars, b2, ins, nfv, res4.0);
    WordXorAllocates(res4.0, res3.1.outVars, b2);
    Extend(f6, ins, nfv, res4.0, res5Right);
    // res5 = s0(a0, res5_right)
    FromSlices(alpha, beta, 0, 8, nfv, res5Right.0);
    FromConsecutive(res5Right.1.outVars, ins, nfv, res5Right.0, res4.0);
    Operands(a0, res5Right.1.outVars, ins, nfv, res5Right.0);
    S0Allocates(res5Right.0, a0, res5Right.1.outVars);
    Extend(f7, ins, nfv, res5Right.0, res5);
    // res6_right = res4 ^ b3
    FromWithin(res4.1.outVars, ins, nfv, res5.0, res4Right.0, res4.0);
    FromSlices(alpha, beta, 24, 32, nfv, res5.0);
    Operands(res4.1.outVars, b3, ins, nfv, res5.0);
    WordXorAllocates(res5.0, res4.1.outVars, b3);
    Extend(f8, ins, nfv, res5.0, res6Right);
    // res6 = s1(a3, res6_right)
    FromSlices(alpha, beta, 24, 32, nfv, res6Right.0);
    FromConsecutive(res6Right.1.outVars, ins, nfv, res6Right.0, res5.0);
    Operands(a3, res6Right.1.outVars, ins, nfv, res6Right.0);
    S1Allocates(res6Right.0, a3, res6Right.1.outVars);
    Extend(f9, ins, nfv, res6Right.0, res6);
  }

  /** Under every satisfying assignment the outputs of fK are the reference
      fK of the values of its inputs. */
  lemma {:induction false} FkSound(nfv: nat, alpha: seq<int>, beta: seq<int>, a: Assignment)
    requires |alpha| == 32 && |beta| == 32 && AreVars(alpha) && AreVars(beta) && nfv > 0
    requires Sat(a, Fk(nfv, alpha, beta).1.cnf)
    ensures Vals(a, Fk(nfv, alpha, beta).1.outVars) == FealSpec.Fk(Vals(a, alpha), Vals(a, beta))
  {
    hide S0, S1, WordXor, FealSpec.S0, FealSpec.S1;
    var a0, a1, a2, a3 := alpha[0..8], alpha[8..16], alpha[16..24], alpha[24..32];
    var b0, b1, b2, b3 := beta[0..8], beta[8..16], beta[16..24], beta[24..32];
    var res1 := WordXor(nfv, a1, a0);
    var res2 := WordXor(res1.0, a2, a3);
    var res3Right := WordXor(res2.0, res2.1.outVars, b0);
    var res3 := S1(res3Right.0, res1.1.outVars, res3Right.1.outVars);
    var res4Right := WordXor(res3.0, res3.1.outVars, b1);
    var res4 := S0(res4Right.0, res2.1.outVars, res4Right.1.outVars);
    var res5Right := WordXor(res4.0, res3.1.outVars, b2);
    var res5 := S0(res5Right.0, a0, res5Right.1.outVars);
    var res6Right := WordXor(res5.0, res4.1.outVars, b3);
    var res6 := S1(res6Right.0, a3, res6Right.1.outVars);
    var f1 := res1.1.cnf;
    var f2 := f1 + res2.1.cnf;
    var f3 := f2 + res3Right.1.cnf;
    var f4 := f3 + res3.1.cnf;
    var f5 := f4 + res4Right.1.cnf;
    var f6 := f5 + res4.1.cnf;
    var f7 := f6 + res5Right.1.cnf;
    var f8 := f7 + res5.1.cnf;
    var f9 := f8 + res6Right.1.cnf;
    SatConcat(a, f9, res6.1.cnf);
    SatConcat(a, f8, res6Right.1.cnf);
    SatConcat(a, f7, res5.1.cnf);
    SatConcat(a, f6, res5Right.1.cnf);
    SatConcat(a, f5, res4.1.cnf);
    SatConcat(a, f4, res4Right.1.cnf);
    SatConcat(a, f3, res3.1.cnf);
    SatConcat(a, f2, res3Right.1.cnf);
    SatConcat(a, f1, res2.1.cnf);
    WordXorSound(nfv, a1, a0, a);
    WordXorSound(res1.0, a2, a3, a);
    FromConsecutive(res1.1.outVars, [], nfv, res1.0, nfv);
    WithinBelow(res1.1.outVars, nfv, res1.0);
    FromConsecutive(res2.1.outVars, [], res1.0, res2.0, res1.0);
    WithinBelow(res2.1.outVars, res1.0, res2.0);
    WordXorSound(res2.0, res2.1.outVars, b0, a);
    FromConsecutive(res3Right.1.outVars, [], res2.0, res3Right.0, res2.0);
    WithinBelow(res3Right.1.outVars, res2.0, res3Right.0);
    S1Sound(res3Right.0, res1.1.outVars, res3Right.1.outVars, a);
    WithinBelow(res3.1.outVars, res3Right.0, res3.0);
    WordXorSound(res3.0, res3.1.outVars, b1, a);
    FromConsecutive(res4Right.1.outVars, [], res3.0, res4Right.0, res3.0);
    WithinBelow(res4Right.1.outVars, res3.0, res4Right.0);
    S0Sound(res4Right.0, res2.1.outVars, res4Right.1.outVars, a);
    WithinBelow(res4.1.outVars, res4Right.0, res4.0);
    WordXorSound(res4.0, res3.1.outVars, b2, a);
    FromConsecutive(res5Right.1.outVars, [], res4.0, res5Right.0, res4.0);
    WithinBelow(res5Right.1.outVars, res4.0, res5Right.0);
    S0Sound(res5Right.0, a0, res5Right.1.outVars, a);
    WordXorSound(res5.0, res4.1.outVars, b3, a);
    FromConsecutive(res6Right.1.outVars, [], res5.0, res6Right.0, res5.0);
    WithinBelow(res6Right.1.outVars, res5.0, res6Right.0);
    S1Sound(res6Right.0, a3, res6Right.1.outVars, a);
    ValsSlice(a, alpha, 0, 8);
    ValsSlice(a, alpha, 8, 16);
    ValsSlice(a, alpha, 16, 24);
    ValsSlice(a, alpha, 24, 32);
    ValsSlice(a, beta, 0, 8);
    ValsSlice(a, beta, 8, 16);
    ValsSlice(a, beta, 16, 24);
    ValsSlice(a, beta, 24, 32);
    ValsConcat(a, res5.1.outVars + res3.1.outVars + res4.1.outVars, res6.1.outVars);
    ValsConcat(a, res5.1.outVars + res3.1.outVars, res4.1.outVars);
    ValsConcat(a, res5.1.outVars, res3.1.outVars);
  }
}
