/** The FEAL_NX compiler object (feal.py): the fixed input variables, the
    key schedule, the whitening steps, the N Feistel rounds and `setup`,
    which strings them together into one CNF whose satisfying assignments
    are exactly the encryptions of a plaintext under a key. */
module FealNx {
  import opened Cnf
  import opened Bits
  import opened Gadgets
  import opened Feal
  import FealSpec

  // =====================================================================
  // Key schedule

  /** Q[r]: the word of the right key half mixed into iteration `r`, as
      the source's list Q holds it: K_R1 xor K_R2 (the variables `x`
      allocated for it), K_R1 or K_R2 as `r mod 3` is 1, 2 or 0. */
  function QVars(k: seq<int>, x: seq<int>, r: nat): (q: seq<int>)
    requires |k| == 128 && |x| == 32
    ensures |q| == 32
  {
    if r % 3 == 1 then x else if r % 3 == 2 then k[64..96] else k[96..128]
  }

  /** The registers and the collected output of the key-schedule loop. */
  datatype KeyLoop = KeyLoop(nfv: nat, a: seq<int>, b: seq<int>, d: seq<int>,
                             keys: seq<seq<int>>, cnf: Formula)

  /** Iteration `r` of the key-schedule loop: D[r] = A[r-1],
      A[r] = B[r-1], B[r] = fK(A[r-1], B[r-1] xor D[r-1] xor Q[r]), the
      two halves of B[r] appended to the subkeys and the three gadgets'
      clauses to the formula. */
  function KeyStep(p: KeyLoop, k: seq<int>, x: seq<int>, r: nat): (s: KeyLoop)
    requires |k| == 128 && |x| == 32 && |p.a| == 32 && |p.b| == 32 && |p.d| == 32
    ensures s.nfv == p.nfv + 364 && |s.a| == 32 && |s.b| == 32 && |s.d| == 32
    ensures |s.keys| == |p.keys| + 2 && p.cnf <= s.cnf
  {
    hide Fk, WordXor;
    var brR := WordXor(p.nfv, p.b, p.d);
    var brR2 := WordXor(brR.0, brR.1.outVars, QVars(k, x, r));
    var brRes := Fk(brR2.0, p.a, brR2.1.outVars);
    var o := brRes.1.outVars;
    KeyLoop(brRes.0, p.b, o, p.a,
            p.keys + [o[0..8] + o[8..16], o[16..24] + o[24..32]],
            p.cnf + brR.1.cnf + brR2.1.cnf + brRes.1.cnf)
  }

  /** The key-schedule loop after its first `r` iterations, started with
      counter `nfv0`, the key variables `k`, the variables `x` of
      K_R1 xor K_R2 and the variables `d0` of D_0: (A_0, B_0) is the left
      half of the key. */
  function KeyIter(nfv0: nat, k: seq<int>, x: seq<int>, d0: seq<int>, r: nat): (s: KeyLoop)
    requires |k| == 128 && |x| == 32 && |d0| == 32
    ensures s.nfv == nfv0 + 364 * r && |s.a| == 32 && |s.b| == 32 && |s.d| == 32
    ensures |s.keys| == 2 * r
    decreases r
  {
    hide KeyStep;
    if r == 0 then KeyLoop(nfv0, k[0..32], k[32..64], d0, [], [])
    else KeyStep(KeyIter(nfv0, k, x, d0, r - 1), k, x, r)
  }

  /** Every subkey has 16 variables. */
  predicate KeyWidths(keys: seq<seq<int>>)
  {
    forall i :: 0 <= i < |keys| ==> |keys[i]| == 16
  }

  /** One iteration keeps the earlier subkeys and appends two of 16
      variables. */
  lemma {:induction false} KeyStepKeys(p: KeyLoop, k: seq<int>, x: seq<int>, r: nat)
    requires |k| == 128 && |x| == 32 && |p.a| == 32 && |p.b| == 32 && |p.d| == 32
    requires KeyWidths(p.keys)
    ensures KeyWidths(KeyStep(p, k, x, r).keys)
  {
    hide Fk, WordXor;
    var s := KeyStep(p, k, x, r);
    forall i | 0 <= i < |s.keys| ensures |s.keys[i]| == 16 {
      if i < |p.keys| {
        assert s.keys[i] == p.keys[i];
      }
    }
  }

  /** The loop's subkeys all have 16 variables. */
  lemma {:induction false} KeyIterKeys(nfv0: nat, k: seq<int>, x: seq<int>, d0: seq<int>, r: nat)
    requires |k| == 128 && |x| == 32 && |d0| == 32
    ensures KeyWidths(KeyIter(nfv0, k, x, d0, r).keys)
    decreases r
  {
    hide KeyStep;
    if r > 0 {
      KeyIterKeys(nfv0, k, x, d0, r - 1);
      KeyStepKeys(KeyIter(nfv0, k, x, d0, r - 1), k, x, r);
    }
  }

  /** Every subkey is 16 variables of `[lo, hi)`. */
  predicate Subkeys(keys: seq<seq<int>>, lo: int, hi: int)
  {
    forall i :: 0 <= i < |keys| ==> |keys[i]| == 16 && Within(keys[i], lo, hi)
  }

  /** The two halves of a fresh B word appended to the subkeys. */
  lemma {:induction false} SubkeysAppend(keys: seq<seq<int>>, o: seq<int>, lo: int, mid: int, omid: int, hi: int)
    requires Subkeys(keys, lo, mid) && |o| == 32 && Within(o, omid, hi) && lo <= mid <= omid
    ensures Subkeys(keys + [o[0..8] + o[8..16], o[16..24] + o[24..32]], lo, hi)
  {
    var ks := keys + [o[0..8] + o[8..16], o[16..24] + o[24..32]];
    forall i | 0 <= i < |ks| ensures |ks[i]| == 16 && Within(ks[i], lo, hi) {
      if i < |keys| {
        assert ks[i] == keys[i];
      }
    }
  }

  /** Two bytes side by side are the half word they came from. */
  lemma {:induction false} Halves(a: Assignment, o: seq<int>)
    requires |o| == 32
    ensures Vals(a, o[0..8] + o[8..16]) == Vals(a, o)[..16]
    ensures Vals(a, o[16..24] + o[24..32]) == Vals(a, o)[16..]
  {
    assert o[0..8] + o[8..16] == o[..16];
    assert o[16..24] + o[24..32] == o[16..];
    ValsSlice(a, o, 0, 16);
    ValsSlice(a, o, 16, 32);
  }

  /** The allocation invariant of the key-schedule loop started at `lo`:
      its clauses are wired over `[lo, s.nfv)`, its registers are
      variables below the counter and its subkeys fresh variables. */
  ghost predicate KeyLoopWired(s: KeyLoop, lo: int)
  {
    && lo <= s.nfv
    && Wired(s.cnf, lo, s.nfv)
    && Below(s.a, s.nfv) && Below(s.b, s.nfv) && Below(s.d, s.nfv)
    && Subkeys(s.keys, lo, s.nfv)
  }

  /** One iteration keeps the allocation invariant. */
  lemma {:induction false} KeyStepWired(p: KeyLoop, k: seq<int>, x: seq<int>, r: nat, lo: nat)
    requires |k| == 128 && |x| == 32 && |p.a| == 32 && |p.b| == 32 && |p.d| == 32
    requires 0 < lo && Below(k, lo) && Below(x, lo) && KeyLoopWired(p, lo)
    ensures KeyLoopWired(KeyStep(p, k, x, r), lo)
  {
    hide Fk, WordXor;
    var q := QVars(k, x, r);
    var brR := WordXor(p.nfv, p.b, p.d);
    var brR2 := WordXor(brR.0, brR.1.outVars, q);
    var brRes := Fk(brR2.0, p.a, brR2.1.outVars);
    var o := brRes.1.outVars;
    WordXorAllocates(p.nfv, p.b, p.d);
    FromConsecutive(brR.1.outVars, [], p.nfv, brR.0, p.nfv);
    WithinBelow(brR.1.outVars, p.nfv, brR.0);
    BelowMono(x, lo, brR.0);
    BelowMono(k, lo, brR.0);
    WordXorAllocates(brR.0, brR.1.outVars, q);
    FromConsecutive(brR2.1.outVars, [], brR.0, brR2.0, brR.0);
    WithinBelow(brR2.1.outVars, brR.0, brR2.0);
    BelowMono(p.a, p.nfv, brR2.0);
    FkAllocates(brR2.0, p.a, brR2.1.outVars);
    Chain(p.cnf, brR.1.cnf, lo, p.nfv, brR.0);
    Chain(p.cnf + brR.1.cnf, brR2.1.cnf, lo, brR.0, brR2.0);
    Chain(p.cnf + brR.1.cnf + brR2.1.cnf, brRes.1.cnf, lo, brR2.0, brRes.0);
    WithinBelow(o, brR2.0, brRes.0);
    BelowMono(p.a, p.nfv, brRes.0);
    BelowMono(p.b, p.nfv, brRes.0);
    SubkeysAppend(p.keys, o, lo, p.nfv, brR2.0, brRes.0);
  }

  /** The loop keeps the allocation invariant through every iteration. */
  lemma {:induction false} KeyIterWired(nfv0: nat, k: seq<int>, x: seq<int>, d0: seq<int>, r: nat)
    requires |k| == 128 && |x| == 32 && |d0| == 32
    requires 0 < nfv0 && Below(k, nfv0) && Below(x, nfv0) && Below(d0, nfv0)
    ensures KeyLoopWired(KeyIter(nfv0, k, x, d0, r), nfv0)
    decreases r
  {
    hide KeyStep;
    if r == 0 {
      WiredEmpty(nfv0);
    } else {
      KeyIterWired(nfv0, k, x, d0, r - 1);
      KeyStepWired(KeyIter(nfv0, k, x, d0, r - 1), k, x, r, nfv0);
    }
  }

  /** Q[r] holds the reference Q_r under every assignment that gives `x`
      the value K_R1 xor K_R2. */
  lemma {:induction false} QSound(k: seq<int>, x: seq<int>, r: nat, a: Assignment)
    requires |k| == 128 && |x| == 32
    requires Vals(a, x) == Xor(Vals(a, k)[64..96], Vals(a, k)[96..128])
    ensures Vals(a, QVars(k, x, r)) == FealSpec.Q(Vals(a, k)[64..], r)
  {
    var kk := Vals(a, k);
    assert kk[64..][..32] == kk[64..96];
    assert kk[64..][32..] == kk[96..128];
    ValsSlice(a, k, 64, 96);
    ValsSlice(a, k, 96, 128);
  }

  /** `s` is the loop state one iteration after `p` under `a`, with `t`
      the reference registers before it: the clauses of `p` hold, the
      registers move on as the key schedule says, the earlier subkeys stay
      and the two new ones are the halves of the new B. */
  ghost predicate StepComputes(a: Assignment, k: seq<int>, r: nat, t: FealSpec.KeyState, p: KeyLoop, s: KeyLoop)
  {
    && |k| == 128 && |t.a| == 32 && |t.b| == 32 && |t.d| == 32
    && |s.b| == 32 && |s.keys| == |p.keys| + 2
    && Sat(a, p.cnf)
    && Vals(a, s.a) == t.b && Vals(a, s.d) == t.a
    && Vals(a, s.b) == FealSpec.Fk(t.a, Xor(Xor(t.b, t.d), FealSpec.Q(Vals(a, k)[64..], r)))
    && s.keys[..|p.keys|] == p.keys
    && Vals(a, s.keys[|p.keys|]) == Vals(a, s.b)[..16]
    && Vals(a, s.keys[|p.keys| + 1]) == Vals(a, s.b)[16..]
  }

  /** Under every assignment satisfying its clauses, one iteration computes
      the reference registers of the next iteration from those of the
      previous one. */
  lemma {:induction false} KeyStepSound(p: KeyLoop, k: seq<int>, x: seq<int>, r: nat, lo: nat,
                                        a: Assignment, t: FealSpec.KeyState)
    requires |k| == 128 && |x| == 32 && |p.a| == 32 && |p.b| == 32 && |p.d| == 32
    requires |t.a| == 32 && |t.b| == 32 && |t.d| == 32
    requires 0 < lo && Below(k, lo) && Below(x, lo) && KeyLoopWired(p, lo)
    requires Vals(a, x) == Xor(Vals(a, k)[64..96], Vals(a, k)[96..128])
    requires Vals(a, p.a) == t.a && Vals(a, p.b) == t.b && Vals(a, p.d) == t.d
    requires Sat(a, KeyStep(p, k, x, r).cnf)
    ensures StepComputes(a, k, r, t, p, KeyStep(p, k, x, r))
  {
    hide Fk, WordXor, FealSpec.Fk;
    var q := QVars(k, x, r);
    var brR := WordXor(p.nfv, p.b, p.d);
    var brR2 := WordXor(brR.0, brR.1.outVars, q);
    var brRes := Fk(brR2.0, p.a, brR2.1.outVars);
    var o := brRes.1.outVars;
    SatConcat(a, p.cnf + brR.1.cnf + brR2.1.cnf, brRes.1.cnf);
    SatConcat(a, p.cnf + brR.1.cnf, brR2.1.cnf);
    SatConcat(a, p.cnf, brR.1.cnf);
    WithinBelow(p.b, 1, p.nfv);
    WithinBelow(p.d, 1, p.nfv);
    WithinBelow(p.a, 1, p.nfv);
    WordXorSound(p.nfv, p.b, p.d, a);
    FromConsecutive(brR.1.outVars, [], p.nfv, brR.0, p.nfv);
    WithinBelow(brR.1.outVars, p.nfv, brR.0);
    WithinBelow(x, 1, lo);
    WithinBelow(k, 1, lo);
    QSound(k, x, r, a);
    WordXorSound(brR.0, brR.1.outVars, q, a);
    FromConsecutive(brR2.1.outVars, [], brR.0, brR2.0, brR.0);
    WithinBelow(brR2.1.outVars, brR.0, brR2.0);
    FkSound(brR2.0, p.a, brR2.1.outVars, a);
    Halves(a, o);
  }

  /** `s` is the loop state after `r` iterations under `a`: its registers
      hold the reference (A_r, B_r, D_r) of the key `Vals(a, k)` and its
      subkeys are the reference K_0, ..., K_(2r-1). */
  ghost predicate IterComputes(a: Assignment, k: seq<int>, r: nat, s: KeyLoop)
  {
    && |k| == 128 && |s.keys| == 2 * r
    && var t := FealSpec.KeyRound(Vals(a, k), r);
    && Vals(a, s.a) == t.a && Vals(a, s.b) == t.b && Vals(a, s.d) == t.d
    && forall i :: 0 <= i < |s.keys| ==> Vals(a, s.keys[i]) == FealSpec.Subkey(Vals(a, k), i)
  }

  /** Appending the two halves of B_r to the subkeys K_0, ..., K_(2r-3)
      gives K_0, ..., K_(2r-1). */
  lemma {:induction false} SubkeysExtend(a: Assignment, kk: seq<bool>, r: nat, pk: seq<seq<int>>, sk: seq<seq<int>>)
    requires |kk| == 128 && 0 < r && |pk| == 2 * r - 2 && |sk| == |pk| + 2 && sk[..|pk|] == pk
    requires forall i :: 0 <= i < |pk| ==> Vals(a, pk[i]) == FealSpec.Subkey(kk, i)
    requires Vals(a, sk[|pk|]) == FealSpec.KeyRound(kk, r).b[..16]
    requires Vals(a, sk[|pk| + 1]) == FealSpec.KeyRound(kk, r).b[16..]
    ensures forall i :: 0 <= i < |sk| ==> Vals(a, sk[i]) == FealSpec.Subkey(kk, i)
  {
    hide FealSpec.KeyRound;
    forall i | 0 <= i < |sk| ensures Vals(a, sk[i]) == FealSpec.Subkey(kk, i) {
      if i < |pk| {
        assert sk[i] == sk[..|pk|][i];
      } else {
        assert i / 2 + 1 == r;
      }
    }
  }

  /** Under every assignment satisfying the loop's clauses, with `x`
      holding K_R1 xor K_R2 and `d0` holding zero, the loop computes the
      reference registers and subkeys. */
  lemma {:induction false} KeyIterSound(nfv0: nat, k: seq<int>, x: seq<int>, d0: seq<int>, r: nat, a: Assignment)
    requires |k| == 128 && |x| == 32 && |d0| == 32
    requires 0 < nfv0 && Below(k, nfv0) && Below(x, nfv0) && Below(d0, nfv0)
    requires Vals(a, x) == Xor(Vals(a, k)[64..96], Vals(a, k)[96..128])
    requires Vals(a, d0) == ToBits(32, 0)
    requires Sat(a, KeyIter(nfv0, k, x, d0, r).cnf)
    ensures IterComputes(a, k, r, KeyIter(nfv0, k, x, d0, r))
    decreases r
  {
    hide KeyStep, FealSpec.Fk, KeyLoopWired, Sat, Vals;
    var kk := Vals(a, k);
    if r == 0 {
      ValsSlice(a, k, 0, 32);
      ValsSlice(a, k, 32, 64);
    } else {
      var p := KeyIter(nfv0, k, x, d0, r - 1);
      var s := KeyIter(nfv0, k, x, d0, r);
      var t := FealSpec.KeyRound(kk, r - 1);
      SatPrefix(a, p.cnf, s.cnf);
      KeyIterSound(nfv0, k, x, d0, r - 1, a);
      KeyIterWired(nfv0, k, x, d0, r - 1);
      KeyStepSound(p, k, x, r, nfv0, a, t);
      SubkeysExtend(a, kk, r, p.keys, s.keys);
    }
  }

  /** key_schedule: the variables `x` of K_R1 xor K_R2, then the 32 zero
      variables of D_0, then the N/2 + 4 iterations of the loop. Returns
      the advanced counter, a result with no declared inputs or outputs,
      and the N + 8 subkeys. The loop reads Q[N/2 + 4], which exists only
      when N >= 8. */
  function KeySchedule(nfv: nat, n: nat, k: seq<int>): (r: (nat, Result, seq<seq<int>>))
    requires |k| == 128 && n % 2 == 0 && n >= 8
    ensures r.0 == nfv + 64 + 364 * (n / 2 + 4) && |r.2| == n + 8
    ensures r.1.inVars == [] && r.1.outVars == [] && KeyWidths(r.2)
  {
    hide WordXor, CreateConstantVec, KeyIter;
    var x := WordXor(nfv, k[64..96], k[96..128]);
    var d := CreateConstantVec(x.0, ToBits(32, 0));
    var s := KeyIter(d.0, k, x.1.outVars, d.1.outVars, n / 2 + 4);
    KeyIterKeys(d.0, k, x.1.outVars, d.1.outVars, n / 2 + 4);
    (s.nfv, Result([], [], x.1.cnf + d.1.cnf + s.cnf), s.keys)
  }

  /** Subkeys allocated in a range lie in every range around it. */
  lemma {:induction false} SubkeysWiden(keys: seq<seq<int>>, lo: int, hi: int, lo': int, hi': int)
    requires Subkeys(keys, lo, hi) && lo' <= lo && hi <= hi'
    ensures Subkeys(keys, lo', hi')
  {
  }

  /** The key schedule is wired over the range it allocates, and its
      subkeys are N + 8 words of 16 fresh variables. */
  lemma {:induction false} KeyScheduleWired(nfv: nat, n: nat, k: seq<int>)
    requires |k| == 128 && n % 2 == 0 && n >= 8
    requires 0 < nfv && Below(k, nfv)
    ensures var r := KeySchedule(nfv, n, k);
      Wired(r.1.cnf, nfv, r.0) && Subkeys(r.2, nfv, r.0)
  {
    hide WordXor, CreateConstantVec, KeyIter;
    var x := WordXor(nfv, k[64..96], k[96..128]);
    var d := CreateConstantVec(x.0, ToBits(32, 0));
    var s := KeyIter(d.0, k, x.1.outVars, d.1.outVars, n / 2 + 4);
    BelowSlice(k, 64, 96, nfv);
    BelowSlice(k, 96, 128, nfv);
    WordXorAllocates(nfv, k[64..96], k[96..128]);
    CreateConstantVecAllocates(x.0, ToBits(32, 0));
    FromConsecutive(x.1.outVars, [], nfv, x.0, nfv);
    WithinBelow(x.1.outVars, nfv, d.0);
    FromConsecutive(d.1.outVars, [], x.0, d.0, x.0);
    WithinBelow(d.1.outVars, x.0, d.0);
    BelowMono(k, nfv, d.0);
    KeyIterWired(d.0, k, x.1.outVars, d.1.outVars, n / 2 + 4);
    Chain(x.1.cnf, d.1.cnf, nfv, x.0, d.0);
    Chain(x.1.cnf + d.1.cnf, s.cnf, nfv, d.0, s.nfv);
    SubkeysWiden(s.keys, d.0, s.nfv, nfv, s.nfv);
  }

  /** Subkey `i` carries the reference K_i of the key `kk`, for every
      `i < N + 8`. */
  ghost predicate SubkeysCompute(a: Assignment, kk: seq<bool>, keys: seq<seq<int>>)
  {
    |kk| == 128 && forall i :: 0 <= i < |keys| ==> Vals(a, keys[i]) == FealSpec.Subkey(kk, i)
  }

  /** Under every assignment satisfying its clauses, the key schedule's
      subkeys carry the reference subkeys of the key the assignment gives
      the key variables. */
  lemma {:induction false} KeyScheduleSound(nfv: nat, n: nat, k: seq<int>, a: Assignment)
    requires |k| == 128 && n % 2 == 0 && n >= 8
    requires 0 < nfv && Below(k, nfv)
    requires Sat(a, KeySchedule(nfv, n, k).1.cnf)
    ensures SubkeysCompute(a, Vals(a, k), KeySchedule(nfv, n, k).2)
  {
    hide WordXor, CreateConstantVec, KeyIter, Sat, Vals, Xor, ToBits, FealSpec.KeyRound, FealSpec.Subkey;
    var x := WordXor(nfv, k[64..96], k[96..128]);
    var d := CreateConstantVec(x.0, ToBits(32, 0));
    var s := KeyIter(d.0, k, x.1.outVars, d.1.outVars, n / 2 + 4);
    SatConcat(a, x.1.cnf + d.1.cnf, s.cnf);
    SatConcat(a, x.1.cnf, d.1.cnf);
    BelowSlice(k, 64, 96, nfv);
    BelowSlice(k, 96, 128, nfv);
    WithinBelow(k[64..96], 1, nfv);
    WithinBelow(k[96..128], 1, nfv);
    WordXorSound(nfv, k[64..96], k[96..128], a);
    ValsSlice(a, k, 64, 96);
    ValsSlice(a, k, 96, 128);
    CreateConstantVecMeaning(x.0, ToBits(32, 0), a);
    FromConsecutive(x.1.outVars, [], nfv, x.0, nfv);
    WithinBelow(x.1.outVars, nfv, d.0);
    FromConsecutive(d.1.outVars, [], x.0, d.0, x.0);
    WithinBelow(d.1.outVars, x.0, d.0);
    BelowMono(k, nfv, d.0);
    KeyIterSound(d.0, k, x.1.outVars, d.1.outVars, n / 2 + 4, a);
  }

  // =====================================================================
  // Whitening

  /** The subkey variables K_i, ..., K_(i+3) side by side. */
  function WhiteVars(keys: seq<seq<int>>, i: nat): seq<int>
    requires i + 4 <= |keys|
  {
    keys[i] + keys[i + 1] + keys[i + 2] + keys[i + 3]
  }

  /** Four subkeys of 16 variables below `hi` make 64 variables below
      `hi`. */
  lemma {:induction false} WhiteVarsBelow(keys: seq<seq<int>>, i: nat, lo: int, hi: int)
    requires Subkeys(keys, lo, hi) && 0 < lo && i + 4 <= |keys|
    ensures |WhiteVars(keys, i)| == 64 && Below(WhiteVars(keys, i), hi)
  {
    var w := WhiteVars(keys, i);
    forall m | 0 <= m < |w| ensures 0 < w[m] < hi {
      var j := i + m / 16;
      assert w[m] == keys[j][m % 16];
    }
  }

  /** The whitening variables carry the reference whitening word. */
  lemma {:induction false} WhiteVarsCompute(a: Assignment, kk: seq<bool>, keys: seq<seq<int>>, i: nat)
    requires SubkeysCompute(a, kk, keys) && i + 4 <= |keys|
    ensures Vals(a, WhiteVars(keys, i)) == FealSpec.Whitening(kk, i)
  {
    hide Vals, FealSpec.Subkey;
    ValsConcat(a, keys[i] + keys[i + 1] + keys[i + 2], keys[i + 3]);
    ValsConcat(a, keys[i] + keys[i + 1], keys[i + 2]);
    ValsConcat(a, keys[i], keys[i + 1]);
  }

  /** preprocess: the plaintext xored with K_N..K_(N+3), 32 zero
      variables, and the state (L, R) := (L xor 0, R xor L). */
  function Preprocess(nfv: nat, n: nat, p: seq<int>, keys: seq<seq<int>>): (r: (nat, Result))
    requires n % 2 == 0 && |p| == 64 && |keys| == n + 8 && |WhiteVars(keys, n)| == 64
    ensures r.0 == nfv + 160 && |r.1.outVars| == 64 && r.1.inVars == []
  {
    hide WordXor, CreateConstantVec;
    var res := WordXor(nfv, p, WhiteVars(keys, n));
    var zeroes := CreateConstantVec(res.0, ToBits(32, 0));
    var res2 := WordXor(zeroes.0, res.1.outVars, zeroes.1.outVars + res.1.outVars[0..32]);
    (res2.0, Result([], res2.1.outVars, res.1.cnf + zeroes.1.cnf + res2.1.cnf))
  }

  /** Pre-processing is wired over the range it allocates and its state
      variables are fresh. */
  lemma {:induction false} PreprocessWired(nfv: nat, n: nat, p: seq<int>, keys: seq<seq<int>>)
    requires n % 2 == 0 && |p| == 64 && |keys| == n + 8
    requires 0 < nfv && Below(p, nfv) && Subkeys(keys, 1, nfv)
    ensures |WhiteVars(keys, n)| == 64
    ensures var r := Preprocess(nfv, n, p, keys);
      Wired(r.1.cnf, nfv, r.0) && Within(r.1.outVars, nfv, r.0)
  {
    hide WordXor, CreateConstantVec;
    WhiteVarsBelow(keys, n, 1, nfv);
    var w := WhiteVars(keys, n);
    var res := WordXor(nfv, p, w);
    var zeroes := CreateConstantVec(res.0, ToBits(32, 0));
    var rhs := zeroes.1.outVars + res.1.outVars[0..32];
    var res2 := WordXor(zeroes.0, res.1.outVars, rhs);
    WordXorAllocates(nfv, p, w);
    CreateConstantVecAllocates(res.0, ToBits(32, 0));
    FromConsecutive(res.1.outVars, [], nfv, zeroes.0, nfv);
    WithinBelow(res.1.outVars, nfv, zeroes.0);
    FromConsecutive(zeroes.1.outVars, [], res.0, zeroes.0, res.0);
    WithinBelow(zeroes.1.outVars, res.0, zeroes.0);
    BelowSlice(res.1.outVars, 0, 32, zeroes.0);
    BelowConcat(zeroes.1.outVars, res.1.outVars[0..32], zeroes.0);
    WordXorAllocates(zeroes.0, res.1.outVars, rhs);
    FromConsecutive(res2.1.outVars, [], zeroes.0, res2.0, zeroes.0);
    Chain(res.1.cnf, zeroes.1.cnf, nfv, res.0, zeroes.0);
    Chain(res.1.cnf + zeroes.1.cnf, res2.1.cnf, nfv, zeroes.0, res2.0);
  }

  /** Under every assignment satisfying its clauses, the state after
      pre-processing is the reference one. */
  lemma {:induction false} PreprocessSound(nfv: nat, n: nat, p: seq<int>, keys: seq<seq<int>>,
                                           a: Assignment, kk: seq<bool>)
    requires n % 2 == 0 && |p| == 64 && |keys| == n + 8
    requires 0 < nfv && Below(p, nfv) && Subkeys(keys, 1, nfv)
    requires SubkeysCompute(a, kk, keys)
    requires |WhiteVars(keys, n)| == 64 && Sat(a, Preprocess(nfv, n, p, keys).1.cnf)
    ensures Vals(a, Preprocess(nfv, n, p, keys).1.outVars) == FealSpec.PreState(n, kk, Vals(a, p))
  {
    hide WordXor, CreateConstantVec, Sat, Vals, Xor, ToBits, FealSpec.Whitening, FealSpec.PreState;
    WhiteVarsBelow(keys, n, 1, nfv);
    var w := WhiteVars(keys, n);
    var res := WordXor(nfv, p, w);
    var zeroes := CreateConstantVec(res.0, ToBits(32, 0));
    var rhs := zeroes.1.outVars + res.1.outVars[0..32];
    var res2 := WordXor(zeroes.0, res.1.outVars, rhs);
    SatConcat(a, res.1.cnf + zeroes.1.cnf, res2.1.cnf);
    SatConcat(a, res.1.cnf, zeroes.1.cnf);
    WithinBelow(p, 1, nfv);
    WithinBelow(w, 1, nfv);
    WordXorSound(nfv, p, w, a);
    WhiteVarsCompute(a, kk, keys, n);
    CreateConstantVecMeaning(res.0, ToBits(32, 0), a);
    FromConsecutive(res.1.outVars, [], nfv, zeroes.0, nfv);
    WithinBelow(res.1.outVars, nfv, zeroes.0);
    FromConsecutive(zeroes.1.outVars, [], res.0, zeroes.0, res.0);
    WithinBelow(zeroes.1.outVars, res.0, zeroes.0);
    BelowSlice(res.1.outVars, 0, 32, zeroes.0);
    BelowConcat(zeroes.1.outVars, res.1.outVars[0..32], zeroes.0);
    WordXorSound(zeroes.0, res.1.outVars, rhs, a);
    ValsConcat(a, zeroes.1.outVars, res.1.outVars[0..32]);
    ValsSlice(a, res.1.outVars, 0, 32);
    FealSpec.PreStateByXor(n, kk, Vals(a, p));
  }

  // =====================================================================
  // Rounds

  /** The current state (L_r, R_r) of the round loop and the clauses of
      the rounds so far. */
  datatype RoundLoop = RoundLoop(nfv: nat, state: seq<int>, cnf: Formula)

  /** one_round: L_r = R_(r-1), the same variables, and
      R_r = L_(r-1) xor f(R_(r-1), K_(r-1)). */
  function RoundStep(p: RoundLoop, key: seq<int>): (s: RoundLoop)
    requires |p.state| == 64 && |key| == 16
    ensures s.nfv == p.nfv + 316 && |s.state| == 64 && p.cnf <= s.cnf
  {
    hide F, WordXor;
    var prevL, prevR := p.state[0..32], p.state[32..64];
    var rr := F(p.nfv, prevR, key);
    var x := WordXor(rr.0, prevL, rr.1.outVars);
    RoundLoop(x.0, prevR + x.1.outVars, p.cnf + rr.1.cnf + x.1.cnf)
  }

  /** The round loop after its first `r` rounds, started from the state
      `s0` with counter `nfv0`; round `i` uses subkey K_(i-1). */
  function RoundIter(nfv0: nat, s0: seq<int>, keys: seq<seq<int>>, r: nat): (s: RoundLoop)
    requires |s0| == 64 && r <= |keys| && KeyWidths(keys)
    ensures s.nfv == nfv0 + 316 * r && |s.state| == 64
    decreases r
  {
    hide RoundStep;
    if r == 0 then RoundLoop(nfv0, s0, [])
    else RoundStep(RoundIter(nfv0, s0, keys, r - 1), keys[r - 1])
  }

  /** The allocation invariant of the round loop started at `lo`. */
  ghost predicate RoundLoopWired(s: RoundLoop, lo: int)
  {
    lo <= s.nfv && Wired(s.cnf, lo, s.nfv) && Below(s.state, s.nfv)
  }

  /** One round keeps the allocation invariant. */
  lemma {:induction false} RoundStepWired(p: RoundLoop, key: seq<int>, lo: nat)
    requires |p.state| == 64 && |key| == 16
    requires 0 < lo && Below(key, lo) && RoundLoopWired(p, lo)
    ensures RoundLoopWired(RoundStep(p, key), lo)
  {
    hide F, WordXor;
    var prevL, prevR := p.state[0..32], p.state[32..64];
    var rr := F(p.nfv, prevR, key);
    var x := WordXor(rr.0, prevL, rr.1.outVars);
    BelowSlice(p.state, 0, 32, p.nfv);
    BelowSlice(p.state, 32, 64, p.nfv);
    BelowMono(key, lo, p.nfv);
    FAllocates(p.nfv, prevR, key);
    WithinBelow(rr.1.outVars, p.nfv, rr.0);
    BelowMono(prevL, p.nfv, rr.0);
    WordXorAllocates(rr.0, prevL, rr.1.outVars);
    FromConsecutive(x.1.outVars, [], rr.0, x.0, rr.0);
    WithinBelow(x.1.outVars, rr.0, x.0);
    BelowMono(prevR, p.nfv, x.0);
    BelowConcat(prevR, x.1.outVars, x.0);
    Chain(p.cnf, rr.1.cnf, lo, p.nfv, rr.0);
    Chain(p.cnf + rr.1.cnf, x.1.cnf, lo, rr.0, x.0);
  }

  /** Subkeys allocated below `hi` are each below `hi`. */
  lemma {:induction false} SubkeyBelow(keys: seq<seq<int>>, i: nat, lo: int, hi: int)
    requires Subkeys(keys, lo, hi) && 0 < lo && i < |keys|
    ensures |keys[i]| == 16 && Below(keys[i], hi)
  {
  }

  /** The round loop keeps the allocation invariant through every
      round. */
  lemma {:induction false} RoundIterWired(nfv0: nat, s0: seq<int>, keys: seq<seq<int>>, r: nat)
    requires |s0| == 64 && r <= |keys| && KeyWidths(keys)
    requires 0 < nfv0 && Below(s0, nfv0) && Subkeys(keys, 1, nfv0)
    ensures RoundLoopWired(RoundIter(nfv0, s0, keys, r), nfv0)
    decreases r
  {
    hide RoundStep;
    if r == 0 {
      WiredEmpty(nfv0);
    } else {
      hide RoundLoopWired;
      RoundIterWired(nfv0, s0, keys, r - 1);
      SubkeyBelow(keys, r - 1, 1, nfv0);
      RoundStepWired(RoundIter(nfv0, s0, keys, r - 1), keys[r - 1], nfv0);
    }
  }

  /** `s` is the state one round after `p` under `a`, with `sv` the
      reference state before it: the clauses of `p` hold, the new left
      half is the old right half's variables and the new state is the
      reference round of `sv` with the subkey `key` carries. */
  ghost predicate RoundComputes(a: Assignment, key: seq<int>, sv: seq<bool>, p: RoundLoop, s: RoundLoop)
  {
    && |sv| == 64 && |key| == 16 && |p.state| == 64 && |s.state| == 64
    && Sat(a, p.cnf)
    && s.state[..32] == p.state[32..]
    && Vals(a, s.state) == FealSpec.Round(sv, Vals(a, key))
  }

  /** Under every assignment satisfying its clauses, one round computes the
      reference round. */
  lemma {:induction false} RoundStepSound(p: RoundLoop, key: seq<int>, lo: nat, a: Assignment, sv: seq<bool>)
    requires |p.state| == 64 && |key| == 16
    requires 0 < lo && Below(key, lo) && RoundLoopWired(p, lo)
    requires Vals(a, p.state) == sv
    requires Sat(a, RoundStep(p, key).cnf)
    ensures RoundComputes(a, key, sv, p, RoundStep(p, key))
  {
    hide F, WordXor, FealSpec.Fn;
    var prevL, prevR := p.state[0..32], p.state[32..64];
    var rr := F(p.nfv, prevR, key);
    var x := WordXor(rr.0, prevL, rr.1.outVars);
    var s := RoundStep(p, key);
    SatConcat(a, p.cnf + rr.1.cnf, x.1.cnf);
    SatConcat(a, p.cnf, rr.1.cnf);
    BelowSlice(p.state, 0, 32, p.nfv);
    BelowSlice(p.state, 32, 64, p.nfv);
    BelowSlice(key, 0, 16, lo);
    assert key[0..16] == key;
    BelowMono(key, lo, p.nfv);
    FAllocates(p.nfv, prevR, key);
    FSound(p.nfv, prevR, key, a);
    WithinBelow(rr.1.outVars, p.nfv, rr.0);
    WordXorSound(rr.0, prevL, rr.1.outVars, a);
    ValsConcat(a, prevR, x.1.outVars);
    ValsSlice(a, p.state, 0, 32);
    ValsSlice(a, p.state, 32, 64);
    assert s.state == prevR + x.1.outVars;
    assert s.state[..32] == prevR;
    assert sv[32..64] == sv[32..] && sv[0..32] == sv[..32];
    assert Vals(a, rr.1.outVars) == FealSpec.Fn(sv[32..], Vals(a, key));
    assert Vals(a, x.1.outVars) == Xor(sv[..32], FealSpec.Fn(sv[32..], Vals(a, key)));
  }

  /** Under every assignment satisfying the rounds' clauses, started from
      the reference pre-processed state of the plaintext `pv`, the state
      after `r` rounds is the reference state after `r` rounds. */
  lemma {:induction false} RoundIterSound(nfv0: nat, s0: seq<int>, keys: seq<seq<int>>, r: nat,
                                          a: Assignment, n: nat, kk: seq<bool>, pv: seq<bool>)
    requires |s0| == 64 && r <= |keys| && KeyWidths(keys)
    requires 0 < nfv0 && Below(s0, nfv0) && Subkeys(keys, 1, nfv0)
    requires |kk| == 128 && |pv| == 64 && SubkeysCompute(a, kk, keys)
    requires Vals(a, s0) == FealSpec.PreState(n, kk, pv)
    requires Sat(a, RoundIter(nfv0, s0, keys, r).cnf)
    ensures Vals(a, RoundIter(nfv0, s0, keys, r).state) == FealSpec.RoundState(n, kk, pv, r)
    decreases r
  {
    hide RoundStep, FealSpec.Round, FealSpec.PreState, FealSpec.Subkey, FealSpec.KeyRound, Xor, ToBits;
    if r > 0 {
      var p := RoundIter(nfv0, s0, keys, r - 1);
      var s := RoundIter(nfv0, s0, keys, r);
      var sv := FealSpec.RoundState(n, kk, pv, r - 1);
      assert s == RoundStep(p, keys[r - 1]);
      hide RoundIter, RoundLoopWired, SubkeysCompute, Sat, Vals;
      assert Vals(a, p.state) == sv by {
        SatPrefix(a, p.cnf, s.cnf);
        RoundIterSound(nfv0, s0, keys, r - 1, a, n, kk, pv);
      }
      assert RoundLoopWired(p, nfv0) by {
        RoundIterWired(nfv0, s0, keys, r - 1);
      }
      assert |keys[r - 1]| == 16 && Below(keys[r - 1], nfv0) by {
        SubkeyBelow(keys, r - 1, 1, nfv0);
      }
      assert Vals(a, keys[r - 1]) == FealSpec.Subkey(kk, r - 1) by {
        KeyVals(a, kk, keys, r - 1);
      }
      RoundStepSound(p, keys[r - 1], nfv0, a, sv);
    }
  }

  lemma {:induction false} KeyVals(a: Assignment, kk: seq<bool>, keys: seq<seq<int>>, i: nat)
    requires SubkeysCompute(a, kk, keys) && i < |keys|
    ensures Vals(a, keys[i]) == FealSpec.Subkey(kk, i)
  {
  }

  // =====================================================================
  // Post-processing

  /** The first two gadgets of postprocess: 32 zero variables and
      (R_N, L_N) xor (0, R_N). */
  function SwapHalves(nfv: nat, st: seq<int>): (r: (nat, Result))
    requires |st| == 64
    ensures r.0 == nfv + 96 && |r.1.outVars| == 64 && r.1.inVars == []
  {
    hide WordXor, CreateConstantVec;
    var ln, rn := st[..32], st[32..];
    var zeroes := CreateConstantVec(nfv, ToBits(32, 0));
    var res := WordXor(zeroes.0, rn + ln, zeroes.1.outVars + rn);
    (res.0, Result([], res.1.outVars, zeroes.1.cnf + res.1.cnf))
  }

  /** postprocess: the swap, then xor with K_(N+4)..K_(N+7); its outputs
      are the ciphertext. */
  function Postprocess(nfv: nat, n: nat, st: seq<int>, keys: seq<seq<int>>): (r: (nat, Result))
    requires |st| == 64 && |keys| == n + 8 && |WhiteVars(keys, n + 4)| == 64
    ensures r.0 == nfv + 160 && |r.1.outVars| == 64 && r.1.inVars == []
  {
    hide WordXor, SwapHalves;
    var res := SwapHalves(nfv, st);
    var res2 := WordXor(res.0, res.1.outVars, WhiteVars(keys, n + 4));
    (res2.0, Result([], res2.1.outVars, res.1.cnf + res2.1.cnf))
  }

  /** The swap is wired over the range it allocates. */
  lemma {:induction false} SwapHalvesWired(nfv: nat, st: seq<int>)
    requires |st| == 64 && 0 < nfv && Below(st, nfv)
    ensures var r := SwapHalves(nfv, st);
      Wired(r.1.cnf, nfv, r.0) && Within(r.1.outVars, nfv, r.0)
  {
    hide WordXor, CreateConstantVec;
    var ln, rn := st[..32], st[32..];
    var zeroes := CreateConstantVec(nfv, ToBits(32, 0));
    var res := WordXor(zeroes.0, rn + ln, zeroes.1.outVars + rn);
    CreateConstantVecAllocates(nfv, ToBits(32, 0));
    FromConsecutive(zeroes.1.outVars, [], nfv, zeroes.0, nfv);
    WithinBelow(zeroes.1.outVars, nfv, zeroes.0);
    BelowSlice(st, 0, 32, zeroes.0);
    BelowSlice(st, 32, 64, zeroes.0);
    assert ln == st[0..32] && rn == st[32..64];
    BelowConcat(rn, ln, zeroes.0);
    BelowConcat(zeroes.1.outVars, rn, zeroes.0);
    WordXorAllocates(zeroes.0, rn + ln, zeroes.1.outVars + rn);
    FromConsecutive(res.1.outVars, [], zeroes.0, res.0, zeroes.0);
    Chain(zeroes.1.cnf, res.1.cnf, nfv, zeroes.0, res.0);
  }

  /** Under every assignment satisfying its clauses the swap computes
      (R, L xor R) of the state (L, R). */
  lemma {:induction false} SwapHalvesSound(nfv: nat, st: seq<int>, a: Assignment)
    requires |st| == 64 && 0 < nfv && Below(st, nfv)
    requires Sat(a, SwapHalves(nfv, st).1.cnf)
    ensures var sv := Vals(a, st);
      Vals(a, SwapHalves(nfv, st).1.outVars) == sv[32..] + Xor(sv[..32], sv[32..])
  {
    hide WordXor, CreateConstantVec, Sat, Xor, ToBits;
    var ln, rn := st[..32], st[32..];
    var zeroes := CreateConstantVec(nfv, ToBits(32, 0));
    var res := WordXor(zeroes.0, rn + ln, zeroes.1.outVars + rn);
    SatConcat(a, zeroes.1.cnf, res.1.cnf);
    CreateConstantVecMeaning(nfv, ToBits(32, 0), a);
    FromConsecutive(zeroes.1.outVars, [], nfv, zeroes.0, nfv);
    WithinBelow(zeroes.1.outVars, nfv, zeroes.0);
    BelowSlice(st, 0, 32, zeroes.0);
    BelowSlice(st, 32, 64, zeroes.0);
    assert ln == st[0..32] && rn == st[32..64];
    BelowConcat(rn, ln, zeroes.0);
    BelowConcat(zeroes.1.outVars, rn, zeroes.0);
    WordXorSound(zeroes.0, rn + ln, zeroes.1.outVars + rn, a);
    var sv := Vals(a, st);
    ValsSlice(a, st, 0, 32);
    ValsSlice(a, st, 32, 64);
    ValsConcat(a, rn, ln);
    ValsConcat(a, zeroes.1.outVars, rn);
    assert sv[0..32] == sv[..32] && sv[32..64] == sv[32..];
    FealSpec.SwapByXor(sv);
  }

  /** Post-processing is wired over the range it allocates and its
      ciphertext variables are fresh. */
  lemma {:induction false} PostprocessWired(nfv: nat, n: nat, st: seq<int>, keys: seq<seq<int>>)
    requires |st| == 64 && |keys| == n + 8
    requires 0 < nfv && Below(st, nfv) && Subkeys(keys, 1, nfv)
    ensures |WhiteVars(keys, n + 4)| == 64
    ensures var r := Postprocess(nfv, n, st, keys);
      Wired(r.1.cnf, nfv, r.0) && Within(r.1.outVars, nfv, r.0)
  {
    hide WordXor, SwapHalves;
    WhiteVarsBelow(keys, n + 4, 1, nfv);
    var w := WhiteVars(keys, n + 4);
    var res := SwapHalves(nfv, st);
    var res2 := WordXor(res.0, res.1.outVars, w);
    SwapHalvesWired(nfv, st);
    WithinBelow(res.1.outVars, nfv, res.0);
    BelowMono(w, nfv, res.0);
    WordXorAllocates(res.0, res.1.outVars, w);
    FromConsecutive(res2.1.outVars, [], res.0, res2.0, res.0);
    Chain(res.1.cnf, res2.1.cnf, nfv, res.0, res2.0);
  }

  /** Under every assignment satisfying its clauses, started from the
      reference state after N rounds, the outputs are the reference
      ciphertext. */
  lemma {:induction false} PostprocessSound(nfv: nat, n: nat, st: seq<int>, keys: seq<seq<int>>,
                                            a: Assignment, kk: seq<bool>, pv: seq<bool>)
    requires |st| == 64 && |keys| == n + 8
    requires 0 < nfv && Below(st, nfv) && Subkeys(keys, 1, nfv)
    requires |kk| == 128 && |pv| == 64 && SubkeysCompute(a, kk, keys)
    requires Vals(a, st) == FealSpec.RoundState(n, kk, pv, n)
    requires |WhiteVars(keys, n + 4)| == 64 && Sat(a, Postprocess(nfv, n, st, keys).1.cnf)
    ensures Vals(a, Postprocess(nfv, n, st, keys).1.outVars) == FealSpec.Encrypt(n, kk, pv)
  {
    hide WordXor, SwapHalves, Sat, Vals, Xor, FealSpec.Whitening, FealSpec.RoundState;
    WhiteVarsBelow(keys, n + 4, 1, nfv);
    var w := WhiteVars(keys, n + 4);
    var res := SwapHalves(nfv, st);
    var res2 := WordXor(res.0, res.1.outVars, w);
    SatConcat(a, res.1.cnf, res2.1.cnf);
    SwapHalvesWired(nfv, st);
    SwapHalvesSound(nfv, st, a);
    WithinBelow(res.1.outVars, nfv, res.0);
    WithinBelow(w, 1, nfv);
    WordXorSound(res.0, res.1.outVars, w, a);
    WhiteVarsCompute(a, kk, keys, n + 4);
  }

  // =====================================================================
  // The compiler object

  /** FEAL_NX(N): the number of rounds and the fixed variables of the key
      and of the plaintext. */
  datatype FealNx = FealNx(n: nat, initKeys: seq<int>, plaintext: seq<int>)

  /** The variables lo, lo + 1, ..., hi - 1. */
  function Range(lo: int, hi: int): (r: seq<int>)
    requires lo <= hi
    ensures |r| == hi - lo && Consecutive(r, lo)
  {
    seq(hi - lo, i requires 0 <= i < hi - lo => lo + i)
  }

  /** The first free variable of `setup`, just above the key and the
      plaintext. */
  const FirstFree: nat := 128 + 64 + 1

  /** The shape FEAL_NX(N) gives its object: an even number of rounds,
      128 key variables and 64 plaintext variables, together the variables
      1, 2, ..., 192. */
  predicate Fresh(c: FealNx)
  {
    c.n % 2 == 0 && |c.initKeys| == 128 && |c.plaintext| == 64 && Consecutive(c.initKeys + c.plaintext, 1)
  }

  /** FEAL_NX(N) accepts an even number of rounds; the key bits are the
      variables 1..128 and the plaintext bits the variables 129..192. */
  function NewFealNx(n: nat): (c: FealNx)
    requires n % 2 == 0
    ensures c.n == n && Fresh(c)
    ensures c.initKeys + c.plaintext == Range(1, FirstFree)
  {
    var c := FealNx(n, Range(1, 128 + 1), Range(128 + 1, 128 + 64 + 1));
    assert c.initKeys + c.plaintext == Range(1, FirstFree);
    c
  }

  lemma {:induction false} WhiteVarsWidth(keys: seq<seq<int>>, i: nat)
    requires KeyWidths(keys) && i + 4 <= |keys|
    ensures |WhiteVars(keys, i)| == 64
  {
  }

  /** The data path of setup: pre-processing of the plaintext, the N
      rounds and post-processing, under the subkeys of the key schedule.
      Returns the advanced counter and a result whose outputs are the
      ciphertext. */
  function Encipher(nfv: nat, n: nat, p: seq<int>, keys: seq<seq<int>>): (r: (nat, Result))
    requires n % 2 == 0 && |p| == 64 && |keys| == n + 8 && KeyWidths(keys)
    ensures r.0 == nfv + 160 + 316 * n + 160 && |r.1.outVars| == 64 && r.1.inVars == []
  {
    WhiteVarsWidth(keys, n);
    WhiteVarsWidth(keys, n + 4);
    var pre := Preprocess(nfv, n, p, keys);
    var rounds := RoundIter(pre.0, pre.1.outVars, keys, n);
    var post := Postprocess(rounds.nfv, n, rounds.state, keys);
    (post.0, Result([], post.1.outVars, pre.1.cnf + rounds.cnf + post.1.cnf))
  }

  /** The data path is wired over the range it allocates and its
      ciphertext variables are fresh. */
  lemma {:induction false} EncipherWired(nfv: nat, n: nat, p: seq<int>, keys: seq<seq<int>>)
    requires n % 2 == 0 && |p| == 64 && |keys| == n + 8 && KeyWidths(keys)
    requires 0 < nfv && Below(p, nfv) && Subkeys(keys, 1, nfv)
    ensures var r := Encipher(nfv, n, p, keys);
      Wired(r.1.cnf, nfv, r.0) && Within(r.1.outVars, nfv, r.0)
  {
    hide Preprocess, RoundIter, Postprocess;
    WhiteVarsWidth(keys, n);
    WhiteVarsWidth(keys, n + 4);
    var pre := Preprocess(nfv, n, p, keys);
    var rounds := RoundIter(pre.0, pre.1.outVars, keys, n);
    var post := Postprocess(rounds.nfv, n, rounds.state, keys);
    PreprocessWired(nfv, n, p, keys);
    WithinBelow(pre.1.outVars, nfv, pre.0);
    SubkeysWiden(keys, 1, nfv, 1, pre.0);
    RoundIterWired(pre.0, pre.1.outVars, keys, n);
    SubkeysWiden(keys, 1, nfv, 1, rounds.nfv);
    PostprocessWired(rounds.nfv, n, rounds.state, keys);
    Chain(pre.1.cnf, rounds.cnf, nfv, pre.0, rounds.nfv);
    Chain(pre.1.cnf + rounds.cnf, post.1.cnf, nfv, rounds.nfv, post.0);
  }

  /** Under every assignment satisfying its clauses, the outputs of the
      data path are the reference ciphertext of the plaintext under the key
      whose subkeys `keys` carry. */
  lemma {:induction false} EncipherSound(nfv: nat, n: nat, p: seq<int>, keys: seq<seq<int>>,
                                         a: Assignment, kk: seq<bool>)
    requires n % 2 == 0 && |p| == 64 && |keys| == n + 8 && KeyWidths(keys)
    requires 0 < nfv && Below(p, nfv) && Subkeys(keys, 1, nfv)
    requires |kk| == 128 && SubkeysCompute(a, kk, keys)
    requires Sat(a, Encipher(nfv, n, p, keys).1.cnf)
    ensures Vals(a, Encipher(nfv, n, p, keys).1.outVars) == FealSpec.Encrypt(n, kk, Vals(a, p))
  {
    hide Preprocess, RoundIter, Postprocess, Sat, Vals, SubkeysCompute, FealSpec.Encrypt, FealSpec.RoundState, FealSpec.PreState;
    WhiteVarsWidth(keys, n);
    WhiteVarsWidth(keys, n + 4);
    var pre := Preprocess(nfv, n, p, keys);
    var rounds := RoundIter(pre.0, pre.1.outVars, keys, n);
    var post := Postprocess(rounds.nfv, n, rounds.state, keys);
    var pv := Vals(a, p);
    SatConcat(a, pre.1.cnf + rounds.cnf, post.1.cnf);
    SatConcat(a, pre.1.cnf, rounds.cnf);
    PreprocessWired(nfv, n, p, keys);
    PreprocessSound(nfv, n, p, keys, a, kk);
    WithinBelow(pre.1.outVars, nfv, pre.0);
    SubkeysWiden(keys, 1, nfv, 1, pre.0);
    RoundIterWired(pre.0, pre.1.outVars, keys, n);
    RoundIterSound(pre.0, pre.1.outVars, keys, n, a, n, kk, pv);
    SubkeysWiden(keys, 1, nfv, 1, rounds.nfv);
    PostprocessSound(rounds.nfv, n, rounds.state, keys, a, kk, pv);
  }

  /** setup: the key schedule and then the data path, with the counter
      starting above the fixed inputs. Returns the final counter and a
      result whose inputs are the key and the plaintext, whose outputs are
      the ciphertext and whose clauses are all the parts' clauses in
      order. */
  function Setup(c: FealNx): (r: (nat, Result))
    requires c.n % 2 == 0 && c.n >= 8 && |c.initKeys| == 128 && |c.plaintext| == 64
    ensures r.1.inVars == c.initKeys + c.plaintext && |r.1.outVars| == 64
  {
    var ks := KeySchedule(FirstFree, c.n, c.initKeys);
    var e := Encipher(ks.0, c.n, c.plaintext, ks.2);
    (e.0, Result(c.initKeys + c.plaintext, e.1.outVars, ks.1.cnf + e.1.cnf))
  }

  /** setup allocates 64 variables for K_R1 xor K_R2 and D_0, 364 per
      key-schedule iteration, 160 for pre-processing, 316 per round and 160
      for post-processing. */
  lemma {:induction false} SetupCounter(c: FealNx)
    requires c.n % 2 == 0 && c.n >= 8 && |c.initKeys| == 128 && |c.plaintext| == 64
    ensures Setup(c).0 == FirstFree + 64 + 364 * (c.n / 2 + 4) + 160 + 316 * c.n + 160
  {
    hide KeySchedule, Encipher;
    var ks := KeySchedule(FirstFree, c.n, c.initKeys);
    assert ks.0 == FirstFree + 64 + 364 * (c.n / 2 + 4);
  }

  /** The key and the plaintext variables of a fresh object are the 192
      variables below the first free one, and each part is below it. */
  lemma {:induction false} FreshBelow(c: FealNx)
    requires Fresh(c)
    ensures Below(c.initKeys, FirstFree) && Below(c.plaintext, FirstFree)
  {
    var ins := c.initKeys + c.plaintext;
    assert Below(ins, FirstFree);
    BelowSlice(ins, 0, 128, FirstFree);
    assert ins[0..128] == c.initKeys;
    BelowSlice(ins, 128, 192, FirstFree);
    assert ins[128..192] == c.plaintext;
  }

  /** The circuit of FEAL_NX(N): wired over the variables it allocates
      above the key and the plaintext, closed over those 192 inputs, with
      fresh ciphertext variables and the final counter one above the
      largest variable of its clauses. */
  lemma {:induction false} SetupWired(c: FealNx)
    requires Fresh(c) && c.n >= 8
    ensures var r := Setup(c);
      && Allocates(FirstFree, r)
      && Within(r.1.outVars, FirstFree, r.0)
      && r.0 == MaxVar(r.1.cnf) + 1
  {
    hide KeySchedule, Encipher;
    var ks := KeySchedule(FirstFree, c.n, c.initKeys);
    var e := Encipher(ks.0, c.n, c.plaintext, ks.2);
    var r := Setup(c);
    FreshBelow(c);
    KeyScheduleWired(FirstFree, c.n, c.initKeys);
    BelowMono(c.plaintext, FirstFree, ks.0);
    SubkeysWiden(ks.2, FirstFree, ks.0, 1, ks.0);
    EncipherWired(ks.0, c.n, c.plaintext, ks.2);
    Chain(ks.1.cnf, e.1.cnf, FirstFree, ks.0, e.0);
    BoundedClosed(r.1.cnf, r.1.inVars, FirstFree, r.0);
    NextFreeIsMaxPlusOne(r.1.cnf, FirstFree, r.0);
  }

  /** Under every assignment satisfying the clauses of FEAL_NX(N), the
      ciphertext variables carry the FEAL-NX encryption of the plaintext
      under the key that the assignment gives the input variables. */
  lemma {:induction false} SetupSound(c: FealNx, a: Assignment)
    requires Fresh(c) && c.n >= 8
    requires Sat(a, Setup(c).1.cnf)
    ensures Vals(a, Setup(c).1.outVars) == FealSpec.Encrypt(c.n, Vals(a, c.initKeys), Vals(a, c.plaintext))
  {
    hide KeySchedule, Encipher, Sat, Vals, SubkeysCompute, FealSpec.Encrypt;
    var ks := KeySchedule(FirstFree, c.n, c.initKeys);
    var e := Encipher(ks.0, c.n, c.plaintext, ks.2);
    FreshBelow(c);
    SatConcat(a, ks.1.cnf, e.1.cnf);
    KeyScheduleWired(FirstFree, c.n, c.initKeys);
    KeyScheduleSound(FirstFree, c.n, c.initKeys, a);
    BelowMono(c.plaintext, FirstFree, ks.0);
    SubkeysWiden(ks.2, FirstFree, ks.0, 1, ks.0);
    EncipherSound(ks.0, c.n, c.plaintext, ks.2, a, Vals(a, c.initKeys));
  }

  /** Every choice of key and plaintext extends to a satisfying assignment
      of the clauses of FEAL_NX(N), changing only the allocated variables,
      and the ciphertext variables then carry the encryption. */
  lemma {:induction false} SetupComplete(c: FealNx, a: Assignment)
    requires Fresh(c) && c.n >= 8
    ensures var r := Setup(c);
      exists b: Assignment :: Agree(a, b, FirstFree, r.0) && Sat(b, r.1.cnf)
        && Vals(b, r.1.outVars) == FealSpec.Encrypt(c.n, Vals(a, c.initKeys), Vals(a, c.plaintext))
  {
    hide Setup, Sat, FealSpec.Encrypt;
    var r := Setup(c);
    SetupWired(c);
    assert ExtendsFrom(r.1.cnf, FirstFree, r.0, a);
    var b :| Agree(a, b, FirstFree, r.0) && Sat(b, r.1.cnf);
    FreshBelow(c);
    ValsFrame(a, b, c.initKeys, FirstFree);
    ValsFrame(a, b, c.plaintext, FirstFree);
    SetupSound(c, b);
  }
}
