# FEAL-NX to CNF compiler, modelled in Dafny

The repository compiles the FEAL-NX block cipher into a propositional
formula in conjunctive normal form (DIMACS literals: a variable `v > 0`, its
negation `-v`). Two layers make up its core:

- a Tseitin gadget library (`cnf_base.py`). Every gadget takes the next
  free variable `nfv` and some input variables and returns the advanced
  counter and a `Result(in_vars, out_vars, cnf)`. The gadgets are the bit
  gates (`bit_eq`, `bit_xor`, `bit_and`, `bit_or`), the word operations
  (`word_xor` and the two rotations), the adders (`half_adder`,
  `full_adder` and the ripple-carry `modular_addition`) and
  `create_constant_vec`;
- the assembler `FEAL_NX` (`feal.py`). It wires the gadgets into the
  S-boxes `s0`/`s1`, the round function `f`, the key-processing function
  `fk`, the key schedule, pre-processing, the `N` Feistel rounds and
  post-processing. `setup` produces one formula whose inputs are the 128
  key variables 1..128 and the 64 plaintext variables 129..192, and whose
  outputs are 64 ciphertext variables.

The Dafny model keeps that structure:

| file | module | contents |
|---|---|---|
| `cnf.dfy` | `Cnf` | literals, clauses, formulas, assignments `nat -> bool`, `Sat`, `Vals`, and the allocation predicates `Wired`/`Closed`/`Allocates`; `MaxVar` and the composition lemmas |
| `bits.dfy` | `Bits` | MSB-first bit vectors: `Val`, `ToBits`, `Xor`, `RotL`/`RotR`, ripple addition `Add`, and their arithmetic |
| `gadgets.dfy` | `Gadgets` | every gadget of `cnf_base.py` as a pure function, with its meaning and its allocation lemmas |
| `feal_spec.dfy` | `FealSpec` | a reference FEAL-NX (S0, S1, f, fK, key schedule, rounds, encryption) on `seq<bool>` |
| `feal.dfy` | `Feal` | `s0`, `s1`, `f` and `fk` as circuits, proved against the reference |
| `feal_nx.dfy` | `FealNx` | the key schedule, pre-processing, the rounds, post-processing and `setup` |

Each gadget and each assembled piece has a soundness property. Every
assignment that satisfies the clauses gives the output variables the
reference function of the input values.

The allocation property comes in two strengths:

- **Allocation** (`Allocates`) holds for the gadgets of `cnf_base.py`, for
  `s0`, `s1`, `f` and `fk`, and for `setup` as a whole (`SetupWired`). The
  piece uses only variables below the returned counter. It uses every
  variable it allocated, and mentions nothing else except its declared
  inputs. Every assignment of the other variables extends, by changing
  only the fresh ones, to a satisfying assignment. The last point is the
  completeness half.
- **Wiring** (`Wired`) is all that holds for the intermediate pieces:
  `key_schedule`, `preprocess`, `one_round` and `postprocess`. They declare
  no inputs (`Result([], ...)`), yet their clauses read the key, plaintext
  and state variables. They use only variables below the returned
  counter and every variable they allocated, and every assignment extends,
  by changing only the fresh ones, to one that satisfies their clauses. They are not
  closed over their declared inputs.

At the top, `SetupSound` and `SetupComplete` combine the two. Under every
satisfying assignment the ciphertext variables carry the FEAL-NX
encryption of the plaintext under the key. Every key and plaintext extends
to such an assignment.

Python's loops are recursive "state after `i` iterations" functions
(`XorLoop`, `EqLoop`, `RippleLow`, `ConstLoop`, `KeyIter`, `RoundIter`).
The mutable object state (`self.keys`, `self.state`, `self.A`, ...) is
threaded explicitly. Bit vectors are most significant bit first, as the
source slices them.

## Model

| member | source | states |
|---|---|---|
| Gadgets.BitEq | cnf_base.py:18-22 | one output, equal to the incoming counter; the counter advances by one; two clauses |
| Gadgets.BitXor | cnf_base.py:31-37 | one output, equal to the incoming counter; the counter advances by one; four clauses |
| Gadgets.BitAnd | cnf_base.py:46-52 | one output, equal to the incoming counter; the counter advances by one; four clauses |
| Gadgets.BitOr | cnf_base.py:61-67 | one output, equal to the incoming counter; the counter advances by one; four clauses |
| Gadgets.BitEqMeaning | cnf_base.py:18-22 | the two clauses hold if and only if the output equals the input |
| Gadgets.BitXorMeaning | cnf_base.py:31-37 | the four clauses hold if and only if the output is the xor of the inputs |
| Gadgets.BitAndMeaning | cnf_base.py:46-52 | the four clauses hold if and only if the output is the conjunction of the inputs |
| Gadgets.BitOrMeaning | cnf_base.py:61-67 | the four clauses hold if and only if the output is the disjunction of the inputs |
| Gadgets.BitEqAllocates | cnf_base.py:18-22 | the clauses mention only the input and the fresh output, use the output, and every input value extends to a model |
| Gadgets.BitXorAllocates | cnf_base.py:31-37 | as for `bit_eq`, over the two inputs |
| Gadgets.BitAndAllocates | cnf_base.py:46-52 | as for `bit_eq`, over the two inputs |
| Gadgets.BitOrAllocates | cnf_base.py:61-67 | as for `bit_eq`, over the two inputs |
| Gadgets.WordXor | cnf_base.py:79-88 | the outputs are exactly the `len(x)` consecutive fresh variables from the incoming counter; the inputs are `x + y` |
| Gadgets.WordXorSound | cnf_base.py:79-88 | every satisfying assignment gives output `i` the value `x[i] xor y[i]`, for every `i` |
| Gadgets.WordXorAllocates | cnf_base.py:79-88 | the clauses mention only `x`, `y` and the fresh range, use all of it, and every input assignment extends to a model |
| Gadgets.RotateLeftByK | cnf_base.py:97-105 | `num_bits` consecutive fresh outputs; the input list is `x` |
| Gadgets.RotateRightByK | cnf_base.py:114-122 | `num_bits` consecutive fresh outputs; the input list is `x` |
| Gadgets.RotateLeftSound | cnf_base.py:97-105 | every satisfying assignment gives output `i` the value of `x[(i + k) mod n]`, for any integer `k` |
| Gadgets.RotateRightSound | cnf_base.py:114-122 | every satisfying assignment gives output `i` the value of `x[(i - k) mod n]`, with the non-negative remainder Python uses |
| Gadgets.RotateLeftAllocates | cnf_base.py:97-105 | allocation contract of the left rotation |
| Gadgets.RotateRightAllocates | cnf_base.py:114-122 | allocation contract of the right rotation |
| Gadgets.RotateRoundTrip | cnf_base.py:97-122 | rotating left by `k` and then right by `k` gives back the original bit values |
| Gadgets.HalfAdder | cnf_base.py:131-136 | allocates the sum and then the carry, but lists the carry first |
| Gadgets.HalfAdderSound | cnf_base.py:131-136 | carry = x and y, sum = x xor y |
| Gadgets.HalfAdderAllocates | cnf_base.py:131-136 | allocation contract of the half adder |
| Gadgets.FullAdder | cnf_base.py:146-162 | with `ignore_cout` a single sum output (2 variables); otherwise carry then sum (5 variables) |
| Gadgets.FullAdderSound | cnf_base.py:146-162 | sum = x xor y xor c_in, and without `ignore_cout` carry = (x and y) or (c_in and (x xor y)) |
| Gadgets.FullAdderAllocates | cnf_base.py:146-162 | allocation contract of the full adder in both modes |
| Gadgets.RippleLow | cnf_base.py:173-183 | after `k` iterations, `5k - 3` variables are allocated and `k` sum outputs lie among them; the carry is the last variable |
| Gadgets.RippleLowSound | cnf_base.py:173-183 | the `k` sums and the carry are the low `k` bits of `x + y` and the carry out of them |
| Gadgets.RippleLowAllocates | cnf_base.py:173-183 | the partial ripple is wired over its range and closed over `x + y` |
| Gadgets.ModularAddition | cnf_base.py:167-189 | `num_bits` fresh outputs, `5 * num_bits - 6` new variables, inputs `x + y` |
| Gadgets.ModularAdditionSound | cnf_base.py:167-189 | the outputs are the sum bits of `x + y`, most significant first, with the overflow dropped |
| Gadgets.ModularAdditionValue | cnf_base.py:167-189 | the outputs denote `(val(x) + val(y)) mod 2^num_bits` |
| Gadgets.ModularAdditionBits | cnf_base.py:167-189 | the outputs are the `num_bits`-bit encoding of that residue |
| Gadgets.ModularAdditionAllocates | cnf_base.py:167-189 | allocation contract of the adder |
| Gadgets.CreateConstantVec | cnf_base.py:194-204 | one consecutive fresh variable per bit, no inputs |
| Gadgets.ConstLoopMeaning | cnf_base.py:197-203 | after `i` iterations the unit clauses hold if and only if the first `i` outputs carry the first `i` bits |
| Gadgets.CreateConstantVecMeaning | cnf_base.py:194-204 | the clauses hold if and only if the outputs carry exactly the vector |
| Gadgets.CreateConstantVecDecodes | cnf_base.py:194-204 | the outputs of the encoding of a number below `2^n` decode back to that number |
| Gadgets.CreateConstantVecAllocates | cnf_base.py:194-204 | allocation contract of the constant |
| Cnf.NextFreeIsMaxPlusOne | test_cnf_base.py:78-80 | for a gadget wired over a non-empty range, the returned counter is the largest variable in its clauses plus one |
| Cnf.SatConcat | feal.py:17-33 | models no line by itself: the composition lemma every `*Sound` proof uses for the clause lists that `setup` concatenates; a concatenation holds if and only if both parts hold |
| Feal.S0 | feal.py:37-40 | 42 fresh variables, 8 outputs among them, inputs `x1 + x2` |
| Feal.S1 | feal.py:42-47 | 84 fresh variables, 8 outputs among them, inputs `x1 + x2` |
| Feal.S0Sound | feal.py:37-40 | the outputs are `rotl2((x1 + x2) mod 256)` |
| Feal.S1Sound | feal.py:42-47 | the outputs are `rotl2((x1 + x2 + 1) mod 256)`, the 1 injected as a constant |
| Feal.S0Allocates | feal.py:37-40 | allocation contract of s0 |
| Feal.S1Allocates | feal.py:42-47 | allocation contract of s1 |
| FealSpec.S0Value | feal.py:37-40 | undoing S0's rotation leaves the byte `(x1 + x2) mod 256` |
| FealSpec.S1Value | feal.py:42-47 | undoing S1's rotation leaves the byte `(x1 + x2 + 1) mod 256` |
| Feal.F | feal.py:60-79 | 284 fresh variables, 32 outputs, inputs `alpha + beta` |
| Feal.FSound | feal.py:60-79 | the outputs are f0, f1, f2, f3 of the FEAL round function: f1 = S1(a1^b0^a0, a2^b1^a3), f2 = S0(a2^b1^a3, f1), f0 = S0(a0, f1), f3 = S1(a3, f2) |
| Feal.FAllocates | feal.py:60-79 | allocation contract of f, with fresh outputs |
| Feal.Fk | feal.py:90-113 | 300 fresh variables, 32 outputs, inputs `alpha + beta` |
| Feal.FkSound | feal.py:90-113 | the outputs are the key-processing function fK of the two words |
| Feal.FkAllocates | feal.py:90-113 | allocation contract of fk, with fresh outputs |
| FealNx.QVars | feal.py:131-138 | Q[r] is a 32-variable word for every r >= 1; the value it carries for each r is stated by QSound |
| FealNx.QSound | feal.py:128-138 | under an assignment giving `x` the value K_R1 xor K_R2, Q[r] carries the reference Q_r |
| FealNx.KeyStep | feal.py:151-166 | one iteration allocates 364 variables, keeps 32-bit registers and appends its clauses to the earlier ones |
| FealNx.KeyStepKeys | feal.py:158-163 | the two subkeys appended per iteration have 16 variables each |
| FealNx.KeyStepWired | feal.py:151-166 | one iteration keeps the loop wired and appends two subkeys of fresh variables |
| FealNx.KeyStepSound | feal.py:151-166 | D_r = A_(r-1), A_r = B_(r-1), B_r = fK(A_(r-1), B_(r-1) xor D_(r-1) xor Q_r); the new subkeys are the halves of B_r and the earlier ones stay |
| FealNx.KeyIterWired | feal.py:143-166 | after any number of iterations the loop is wired over what it allocated |
| FealNx.KeyIterSound | feal.py:143-166 | starting from (A_0, B_0) = K_L and D_0 = 0, after `r` iterations the registers are the reference (A_r, B_r, D_r) and the `2r` subkeys are K_0 .. K_(2r-1) |
| FealNx.KeySchedule | feal.py:115-172 | exactly N + 8 subkeys of 16 variables; `64 + 364 (N/2 + 4)` variables; no declared inputs or outputs |
| FealNx.KeyScheduleWired | feal.py:115-172 | the key schedule is wired over its range and its subkeys are fresh variables |
| FealNx.KeyScheduleSound | feal.py:115-172 | every satisfying assignment gives each subkey K_i its reference value from the key the assignment gives 1..128 |
| FealNx.WhiteVarsCompute | feal.py:178 | the four subkeys K_i .. K_(i+3) side by side carry the reference whitening word |
| FealNx.Preprocess | feal.py:174-183 | 160 fresh variables and 64 state outputs |
| FealNx.PreprocessWired | feal.py:174-183 | pre-processing is wired over its range and its state variables are fresh |
| FealNx.PreprocessSound | feal.py:174-183 | the state is (P xor K_N..K_(N+3)), with its right half then xored with its left half |
| FealNx.RoundStep | feal.py:185-195 | 316 fresh variables per round; the earlier clauses are kept as a prefix |
| FealNx.RoundStepWired | feal.py:185-195 | one round keeps the loop wired |
| FealNx.RoundStepSound | feal.py:185-195 | L_r is the same variables as R_(r-1), and (L_r, R_r) = (R_(r-1), L_(r-1) xor f(R_(r-1), K_(r-1))) |
| FealNx.RoundIter | feal.py:24-28 | `r` rounds allocate `316 r` variables and keep a 64-variable state |
| FealNx.RoundIterWired | feal.py:24-28 | the round loop stays wired through every round |
| FealNx.RoundIterSound | feal.py:24-28 | from the reference pre-processed state, the state after `r` rounds is the reference one |
| FealNx.SwapHalves | feal.py:199-204 | 96 fresh variables and 64 outputs |
| FealNx.SwapHalvesSound | feal.py:199-204 | the outputs are (R_N, L_N xor R_N) |
| FealNx.SwapHalvesWired | feal.py:199-204 | the swap is wired over its range with fresh outputs |
| FealNx.Postprocess | feal.py:197-208 | 160 fresh variables and 64 outputs |
| FealNx.PostprocessWired | feal.py:197-208 | post-processing is wired over its range with fresh ciphertext variables |
| FealNx.PostprocessSound | feal.py:197-208 | the outputs are (R_N, R_N xor L_N) xor K_(N+4)..K_(N+7): the reference ciphertext |
| FealNx.NewFealNx | feal.py:6-10 | key bits are variables 1..128 and plaintext bits 129..192 |
| FealNx.Encipher | feal.py:20-33 | the data path allocates `160 + 316 N + 160` variables and yields 64 outputs |
| FealNx.EncipherWired | feal.py:20-33 | the data path is wired over its range with fresh ciphertext variables |
| FealNx.EncipherSound | feal.py:20-33 | the data path computes the reference encryption under the key whose subkeys it reads |
| FealNx.Setup | feal.py:12-35 | the input list is the key followed by the plaintext; there are 64 ciphertext outputs |
| FealNx.SetupCounter | feal.py:12-35 | the counter starts at 193 and ends after `64 + 364 (N/2 + 4) + 160 + 316 N + 160` allocations |
| FealNx.SetupWired | feal.py:12-35 | every variable of the formula is an input or a variable from 193 up to the returned counter, each of these is used, the ciphertext variables are fresh, and the counter is the largest variable plus one |
| FealNx.SetupSound | feal.py:12-35 | every satisfying assignment gives the ciphertext variables the FEAL-NX encryption of the plaintext under the key |
| FealNx.SetupComplete | feal.py:12-35 | every key and plaintext extends, by changing only the allocated variables, to a satisfying assignment, and that assignment carries the ciphertext |

## Left out

- The solver binding (`util`) and the test harnesses (`test_cnf_base.py`, `test_feal.py`) are foreign or test code. Solving under assumptions becomes explicit assignment functions `nat -> bool`. The published known-answer vector is replaced by the reference `FealSpec.Encrypt`.
- The hex and bit helpers of the tests are test glue. Only their MSB-first bit order is kept.
- Python `assert`s on lengths and on `N % 2 == 0` are preconditions. An input that fails them raises an error in the source and has no model.
- FealNx.KeySchedule: requires N >= 8. The source builds Q only up to index N and reads Q[N/2 + 4], so smaller even N raise an IndexError.
- Gadgets.ModularAddition: requires `num_bits >= 2`. With one bit the carry stays `None` and `full_adder` fails on it.
- Gadgets.CreateConstantVec: takes the vector as `seq<bool>`. The source takes a list of ints, where 0 gives a negative unit clause and any other value a positive one. Every caller in the core passes a 0/1 list, so no behaviour of the core is lost.
- Q[0] = None is never read and is not modelled; `QVars` gives Q[r] for every r >= 1.
- The object attributes `self.keys`, `self.state`, `self.Q`, `self.A`, `self.B`, `self.D` and `self.ciphertext` become explicit values and return components. The lists of intermediate states the source keeps but never reads again are not modelled.
- FealNx.Setup: determinism, two compilations with the same N giving identical results, holds because every member is a pure function. It needs no lemma.
- FealNx.Encipher and FealNx.SwapHalves group lines of `setup` and `postprocess` so that their proofs stay small. They add no behaviour.
- FealNx.RoundIter: requires every subkey to have 16 variables (`KeyWidths`). The source only ever passes the key schedule's subkeys, which satisfy this.
- Gadgets.WordXorSound: the word-level soundness lemmas require positive input variables. The bit-level meaning lemmas allow any non-zero literal. Every caller in the source passes variables.
- FealNx.SetupWired: states closure over the inputs of any object whose inputs are the variables 1..192 (`Fresh`), of which `NewFealNx` is the one the source builds.
