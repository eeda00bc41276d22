/** The FEAL-NX block cipher as NTT publishes it, on MSB-first bit vectors:
    the S-boxes, the round function f, the key-processing function fK, the
    key schedule and the encryption of one 64-bit block under a 128-bit
    key. This is the reference the compiled circuit is proved against. */
module FealSpec {
  import opened Bits

  /** S0(x1, x2) = Rot2((x1 + x2) mod 2^8) on bytes; the 8-bit encoding
      `ToBits` keeps the low eight bits, which is the reduction modulo 2^8
      (see `S0Value`). */
  function S0(x1: seq<bool>, x2: seq<bool>): (r: seq<bool>)
    requires |x1| == 8 && |x2| == 8
    ensures |r| == 8
  {
    RotL(ToBits(|x1|, Val(x1) + Val(x2)), 2)
  }

  /** S1(x1, x2) = Rot2((x1 + x2 + 1) mod 2^8) on bytes. */
  function S1(x1: seq<bool>, x2: seq<bool>): (r: seq<bool>)
    requires |x1| == 8 && |x2| == 8
    ensures |r| == 8
  {
    RotL(ToBits(|x1|, Val(x1) + Val(x2) + 1), 2)
  }

  /** Undoing a rotation of the `n`-bit encoding of `m` leaves m mod 2^n. */
  lemma {:induction false} RotByteValue(n: nat, m: nat)
    ensures Val(RotR(RotL(ToBits(n, m), 2), 2)) == m % Pow2(n)
  {
    RotRAfterRotL(ToBits(n, m), 2);
    ToBitsMod(n, m);
    ValToBits(n, m % Pow2(n));
  }

  /** Undoing the rotation of S0 leaves the byte (x1 + x2) mod 2^8. */
  lemma {:induction false} S0Value(x1: seq<bool>, x2: seq<bool>)
    requires |x1| == 8 && |x2| == 8
    ensures Val(RotR(S0(x1, x2), 2)) == (Val(x1) + Val(x2)) % Pow2(|x1|)
  {
    RotByteValue(|x1|, Val(x1) + Val(x2));
  }

  /** Undoing the rotation of S1 leaves the byte (x1 + x2 + 1) mod 2^8. */
  lemma {:induction false} S1Value(x1: seq<bool>, x2: seq<bool>)
    requires |x1| == 8 && |x2| == 8
    ensures Val(RotR(S1(x1, x2), 2)) == (Val(x1) + Val(x2) + 1) % Pow2(|x1|)
  {
    RotByteValue(|x1|, Val(x1) + Val(x2) + 1);
  }

  /** Byte `i` of a word, counting from the most significant byte. */
  function Byte(w: seq<bool>, i: nat): (r: seq<bool>)
    requires 8 * i + 8 <= |w|
    ensures |r| == 8
  {
    w[8 * i..8 * i + 8]
  }

  /** The round function f(alpha, beta) of a 32-bit alpha and a 16-bit
      beta. */
  function Fn(alpha: seq<bool>, beta: seq<bool>): (r: seq<bool>)
    requires |alpha| == 32 && |beta| == 16
    ensures |r| == 32
  {
    var a0, a1, a2, a3 := Byte(alpha, 0), Byte(alpha, 1), Byte(alpha, 2), Byte(alpha, 3);
    var b0, b1 := Byte(beta, 0), Byte(beta, 1);
    var f1 := S1(Xor(Xor(a1, b0), a0), Xor(Xor(a2, b1), a3));
    var f2 := S0(Xor(Xor(a2, b1), a3), f1);
    S0(a0, f1) + f1 + f2 + S1(a3, f2)
  }

  /** The key-processing function fK(alpha, beta) of two 32-bit words. */
  function Fk(alpha: seq<bool>, beta: seq<bool>): (r: seq<bool>)
    requires |alpha| == 32 && |beta| == 32
    ensures |r| == 32
  {
    var a0, a1, a2, a3 := Byte(alpha, 0), Byte(alpha, 1), Byte(alpha, 2), Byte(alpha, 3);
    var b0, b1, b2, b3 := Byte(beta, 0), Byte(beta, 1), Byte(beta, 2), Byte(beta, 3);
    var fk1 := S1(Xor(a1, a0), Xor(Xor(a2, a3), b0));
    var fk2 := S0(Xor(a2, a3), Xor(fk1, b1));
    S0(a0, Xor(fk1, b2)) + fk1 + fk2 + S1(a3, Xor(fk2, b3))
  }

  // ---------------------------------------------------------------------
  // Key schedule

  /** Q_r, the half of the right key K_R mixed into iteration `r`:
      K_R1 xor K_R2, K_R1 or K_R2 as `r mod 3` is 1, 2 or 0. */
  function Q(kr: seq<bool>, r: nat): (q: seq<bool>)
    requires |kr| == 64
    ensures |q| == 32
  {
    var kr1, kr2 := kr[..32], kr[32..];
    if r % 3 == 1 then Xor(kr1, kr2) else if r % 3 == 2 then kr1 else kr2
  }

  /** The registers (A_r, B_r, D_r) of the key schedule. */
  datatype KeyState = KeyState(a: seq<bool>, b: seq<bool>, d: seq<bool>)

  /** The registers after `r` iterations of the key schedule:
      (A_0, B_0) = K_L, D_0 = 0, and then A_r = B_(r-1), D_r = A_(r-1),
      B_r = fK(A_(r-1), B_(r-1) xor D_(r-1) xor Q_r). */
  function KeyRound(k: seq<bool>, r: nat): (s: KeyState)
    requires |k| == 128
    ensures |s.a| == 32 && |s.b| == 32 && |s.d| == 32
  {
    if r == 0 then KeyState(k[..32], k[32..64], ToBits(32, 0))
    else
      var p := KeyRound(k, r - 1);
      KeyState(p.b, Fk(p.a, Xor(Xor(p.b, p.d), Q(k[64..], r))), p.a)
  }

  /** Subkey K_i: iteration `r` yields K_(2r-2) and K_(2r-1), the two
      halves of B_r. */
  function Subkey(k: seq<bool>, i: nat): (key: seq<bool>)
    requires |k| == 128
    ensures |key| == 16
  {
    var b := KeyRound(k, i / 2 + 1).b;
    if i % 2 == 0 then b[..16] else b[16..]
  }

  /** The subkeys K_(i), ..., K_(i+3) side by side. */
  function Whitening(k: seq<bool>, i: nat): (w: seq<bool>)
    requires |k| == 128
    ensures |w| == 64
  {
    Subkey(k, i) + Subkey(k, i + 1) + Subkey(k, i + 2) + Subkey(k, i + 3)
  }

  // ---------------------------------------------------------------------
  // Encryption

  /** One Feistel round on the 64-bit state (L, R) with subkey K:
      (L', R') = (R, L xor f(R, K)). */
  function Round(s: seq<bool>, key: seq<bool>): (t: seq<bool>)
    requires |s| == 64 && |key| == 16
    ensures |t| == 64
  {
    s[32..] + Xor(s[..32], Fn(s[32..], key))
  }

  /** The state before round 1: the plaintext xored with K_N..K_(N+3),
      and then (L, R) := (L, R xor L). */
  function PreState(n: nat, k: seq<bool>, p: seq<bool>): (s: seq<bool>)
    requires |k| == 128 && |p| == 64
    ensures |s| == 64
  {
    var w := Xor(p, Whitening(k, n));
    w[..32] + Xor(w[32..], w[..32])
  }

  /** Pre-processing as the circuit computes it: the whitened word xored
      with 32 zero bits followed by its own left half. */
  lemma {:induction false} PreStateByXor(n: nat, k: seq<bool>, p: seq<bool>)
    requires |k| == 128 && |p| == 64
    ensures var w := Xor(p, Whitening(k, n));
      Xor(w, ToBits(32, 0) + w[..32]) == PreState(n, k, p)
  {
    var w := Xor(p, Whitening(k, n));
    XorSplit(w, ToBits(32, 0), w[..32]);
    XorZero(w[..32]);
  }

  /** The state after `r` rounds, round `i` using subkey K_(i-1). */
  function RoundState(n: nat, k: seq<bool>, p: seq<bool>, r: nat): (s: seq<bool>)
    requires |k| == 128 && |p| == 64
    ensures |s| == 64
  {
    if r == 0 then PreState(n, k, p)
    else Round(RoundState(n, k, p, r - 1), Subkey(k, r - 1))
  }

  /** The swap of post-processing as the circuit computes it: (R, L)
      xored with 32 zero bits followed by R is (R, L xor R). */
  lemma {:induction false} SwapByXor(s: seq<bool>)
    requires |s| == 64
    ensures Xor(s[32..] + s[..32], ToBits(32, 0) + s[32..]) == s[32..] + Xor(s[..32], s[32..])
  {
    XorSplit(s[32..] + s[..32], ToBits(32, 0), s[32..]);
    assert (s[32..] + s[..32])[..32] == s[32..];
    assert (s[32..] + s[..32])[32..] == s[..32];
    XorZero(s[32..]);
  }

  /** FEAL-NX with `n` rounds: after round N the halves are swapped,
      (R_N, L_N xor R_N), and xored with K_(N+4)..K_(N+7). */
  function Encrypt(n: nat, k: seq<bool>, p: seq<bool>): (c: seq<bool>)
    requires |k| == 128 && |p| == 64
    ensures |c| == 64
  {
    var s := RoundState(n, k, p, n);
    Xor(s[32..] + Xor(s[..32], s[32..]), Whitening(k, n + 4))
  }
}
