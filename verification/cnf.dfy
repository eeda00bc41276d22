/** Literals, clauses and CNF formulas in the DIMACS convention, what they
    mean under an assignment, and the variable-allocation facts that every
    gadget of the compiler maintains. */
module Cnf {

  /** A literal: `v > 0` denotes variable v, `-v` its negation. */
  type Literal = int
  /** The disjunction of its literals. */
  type Clause = seq<Literal>
  /** The conjunction of its clauses. */
  type Formula = seq<Clause>
  /** A truth value for every variable. */
  type Assignment = nat -> bool

  /** What one gadget invocation produces: the declared input variables,
      the newly introduced output variables and the clauses. */
  datatype Result = Result(inVars: seq<int>, outVars: seq<int>, cnf: Formula)

  function Abs(l: int): nat
  {
    if l < 0 then -l else l
  }

  predicate LitTrue(a: Assignment, l: Literal)
  {
    if l > 0 then a(l) else if l < 0 then !a(-l) else false
  }

  predicate ClauseSat(a: Assignment, c: Clause)
  {
    exists j :: 0 <= j < |c| && LitTrue(a, c[j])
  }

  predicate Sat(a: Assignment, f: Formula)
  {
    forall i :: 0 <= i < |f| ==> ClauseSat(a, f[i])
  }

  /** The truth values of a sequence of literals, in order. */
  function Vals(a: Assignment, vs: seq<Literal>): (bs: seq<bool>)
    ensures |bs| == |vs|
  {
    seq(|vs|, i requires 0 <= i < |vs| => LitTrue(a, vs[i]))
  }

  /** `a` with variable `v` set to `b`. */
  function With(a: Assignment, v: nat, b: bool): Assignment
  {
    (u: nat) => if u == v then b else a(u)
  }

  /** Every entry is a variable that was allocated before `n`. */
  predicate Below(vs: seq<int>, n: int)
  {
    forall i :: 0 <= i < |vs| ==> 0 < vs[i] < n
  }

  /** Every entry is a variable in `[lo, hi)`. */
  predicate Within(vs: seq<int>, lo: int, hi: int)
  {
    forall i :: 0 <= i < |vs| ==> lo <= vs[i] < hi
  }

  /** Every entry is a declared input or a variable of `[lo, hi)`. */
  predicate From(vs: seq<int>, ins: seq<int>, lo: int, hi: int)
  {
    forall i :: 0 <= i < |vs| ==> vs[i] in ins || lo <= vs[i] < hi
  }

  /** Every entry is a variable (no literal is zero or negated). */
  predicate AreVars(vs: seq<int>)
  {
    forall i :: 0 <= i < |vs| ==> vs[i] > 0
  }

  /** The entries are the consecutive variables `lo, lo + 1, ...`. */
  predicate Consecutive(vs: seq<int>, lo: int)
  {
    forall i :: 0 <= i < |vs| ==> vs[i] == lo + i
  }

  /** Every literal is non-zero and refers to a variable below `n`. */
  predicate Bounded(f: Formula, n: int)
  {
    forall i, j :: 0 <= i < |f| && 0 <= j < |f[i]| ==> f[i][j] != 0 && Abs(f[i][j]) < n
  }

  /** The closure property of a gadget: every literal refers either to one
      of the declared inputs or to a variable in `[lo, hi)`. */
  predicate Closed(f: Formula, ins: seq<int>, lo: int, hi: int)
  {
    forall i, j :: 0 <= i < |f| && 0 <= j < |f[i]| ==>
      f[i][j] != 0 && (Abs(f[i][j]) in ins || lo <= Abs(f[i][j]) < hi)
  }

  predicate Mentions(f: Formula, v: int)
  {
    exists i, j :: 0 <= i < |f| && 0 <= j < |f[i]| && Abs(f[i][j]) == v
  }

  /** No variable of `[lo, hi)` is allocated without being used. */
  predicate Covers(f: Formula, lo: int, hi: int)
  {
    forall v :: lo <= v < hi ==> Mentions(f, v)
  }

  /** `a` and `b` agree on every variable outside `[lo, hi)`. */
  ghost predicate Agree(a: Assignment, b: Assignment, lo: int, hi: int)
  {
    forall v: nat :: (v < lo || hi <= v) ==> a(v) == b(v)
  }

  ghost predicate ExtendsFrom(f: Formula, lo: int, hi: int, a: Assignment)
  {
    exists b: Assignment :: Agree(a, b, lo, hi) && Sat(b, f)
  }

  /** Whatever values the variables outside `[lo, hi)` take, the variables
      of `[lo, hi)` can be chosen to satisfy `f`. */
  ghost predicate Extendable(f: Formula, lo: int, hi: int)
  {
    forall a: Assignment :: ExtendsFrom(f, lo, hi, a)
  }

  /** The allocation contract of a gadget that allocated `[lo, hi)`: its
      clauses use only variables below `hi`, use every fresh variable, and
      constrain nothing outside the fresh range. */
  ghost predicate Wired(f: Formula, lo: int, hi: int)
  {
    && 0 < lo <= hi
    && Bounded(f, hi)
    && Covers(f, lo, hi)
    && Extendable(f, lo, hi)
  }

  /** The allocation contract of a gadget invoked with counter `nfv` that
      returned `r`: it is wired over the range it allocated and closed
      over its declared inputs. */
  ghost predicate Allocates(nfv: int, r: (nat, Result))
  {
    Wired(r.1.cnf, nfv, r.0) && Closed(r.1.cnf, r.1.inVars, nfv, r.0)
  }

  /** Largest variable occurring in a clause (0 for the empty clause). */
  function MaxInClause(c: Clause): nat
  {
    if |c| == 0 then 0
    else
      var m := MaxInClause(c[1..]);
      if Abs(c[0]) > m then Abs(c[0]) else m
  }

  /** Largest variable occurring in a formula (0 for the empty formula). */
  function MaxVar(f: Formula): nat
  {
    if |f| == 0 then 0
    else
      var m := MaxVar(f[1..]);
      if MaxInClause(f[0]) > m then MaxInClause(f[0]) else m
  }

  // ---------------------------------------------------------------------
  // Literals and clauses

  lemma {:induction false} NegLit(a: Assignment, l: Literal)
    requires l != 0
    ensures LitTrue(a, -l) == !LitTrue(a, l)
  {
  }

  lemma {:induction false} Clause1(a: Assignment, p: Literal)
    ensures ClauseSat(a, [p]) <==> LitTrue(a, p)
  {
    if LitTrue(a, p) {
      assert [p][0] == p;
    }
  }

  lemma {:induction false} Clause2(a: Assignment, p: Literal, q: Literal)
    ensures ClauseSat(a, [p, q]) <==> LitTrue(a, p) || LitTrue(a, q)
  {
    var c := [p, q];
    if LitTrue(a, p) {
      assert LitTrue(a, c[0]);
    } else if LitTrue(a, q) {
      assert LitTrue(a, c[1]);
    }
  }

  lemma {:induction false} Clause3(a: Assignment, p: Literal, q: Literal, r: Literal)
    ensures ClauseSat(a, [p, q, r]) <==> LitTrue(a, p) || LitTrue(a, q) || LitTrue(a, r)
  {
    var c := [p, q, r];
    if LitTrue(a, p) {
      assert LitTrue(a, c[0]);
    } else if LitTrue(a, q) {
      assert LitTrue(a, c[1]);
    } else if LitTrue(a, r) {
      assert LitTrue(a, c[2]);
    }
  }

  lemma {:induction false} Sat1(a: Assignment, c0: Clause)
    ensures Sat(a, [c0]) <==> ClauseSat(a, c0)
  {
    var f := [c0];
    assert f[0] == c0;
  }

  lemma {:induction false} Sat2(a: Assignment, c0: Clause, c1: Clause)
    ensures Sat(a, [c0, c1]) <==> ClauseSat(a, c0) && ClauseSat(a, c1)
  {
    var f := [c0, c1];
    assert f[0] == c0 && f[1] == c1;
  }

  lemma {:induction false} Sat4(a: Assignment, c0: Clause, c1: Clause, c2: Clause, c3: Clause)
    ensures Sat(a, [c0, c1, c2, c3]) <==>
      ClauseSat(a, c0) && ClauseSat(a, c1) && ClauseSat(a, c2) && ClauseSat(a, c3)
  {
    var f := [c0, c1, c2, c3];
    assert f[0] == c0 && f[1] == c1 && f[2] == c2 && f[3] == c3;
  }

  // ---------------------------------------------------------------------
  // Formulas

  /** A concatenated formula is satisfied exactly when both parts are. */
  lemma {:induction false} SatConcat(a: Assignment, f: Formula, g: Formula)
    ensures Sat(a, f + g) <==> Sat(a, f) && Sat(a, g)
  {
    if Sat(a, f + g) {
      forall i | 0 <= i < |f| ensures ClauseSat(a, f[i]) {
        assert (f + g)[i] == f[i];
      }
      forall i | 0 <= i < |g| ensures ClauseSat(a, g[i]) {
        assert (f + g)[|f| + i] == g[i];
      }
    }
  }

  lemma {:induction false} SatPrefix(a: Assignment, f: Formula, g: Formula)
    requires f <= g && Sat(a, g)
    ensures Sat(a, f)
  {
    forall i | 0 <= i < |f| ensures ClauseSat(a, f[i]) {
      assert f[i] == g[i];
    }
  }

  lemma {:induction false} SatEmpty(a: Assignment)
    ensures Sat(a, [])
  {
  }

  lemma {:induction false} ClauseFrame(a: Assignment, b: Assignment, c: Clause, n: int)
    requires forall j :: 0 <= j < |c| ==> c[j] != 0 && Abs(c[j]) < n
    requires forall v: nat :: v < n ==> a(v) == b(v)
    ensures ClauseSat(a, c) <==> ClauseSat(b, c)
  {
    assert forall j :: 0 <= j < |c| ==> LitTrue(a, c[j]) == LitTrue(b, c[j]);
  }

  /** Satisfaction depends only on the variables that occur. */
  lemma {:induction false} SatFrame(a: Assignment, b: Assignment, f: Formula, n: int)
    requires Bounded(f, n)
    requires forall v: nat :: v < n ==> a(v) == b(v)
    ensures Sat(a, f) <==> Sat(b, f)
  {
    forall i | 0 <= i < |f| ensures ClauseSat(a, f[i]) <==> ClauseSat(b, f[i]) {
      ClauseFrame(a, b, f[i], n);
    }
  }

  lemma {:induction false} ValsConcat(a: Assignment, s: seq<Literal>, t: seq<Literal>)
    ensures Vals(a, s + t) == Vals(a, s) + Vals(a, t)
  {
  }

  lemma {:induction false} ValsCons(a: Assignment, l: Literal, s: seq<Literal>)
    ensures Vals(a, [l] + s) == [LitTrue(a, l)] + Vals(a, s)
  {
  }

  lemma {:induction false} ValsSlice(a: Assignment, s: seq<Literal>, i: int, j: int)
    requires 0 <= i <= j <= |s|
    ensures Vals(a, s[i..j]) == Vals(a, s)[i..j]
  {
  }

  /** The same variables carry the same values under assignments that agree
      on them. */
  lemma {:induction false} ValsFrame(a: Assignment, b: Assignment, vs: seq<Literal>, n: int)
    requires Below(vs, n)
    requires forall v: nat :: v < n ==> a(v) == b(v)
    ensures Vals(a, vs) == Vals(b, vs)
  {
  }

  // ---------------------------------------------------------------------
  // Allocation

  lemma {:induction false} BoundedConcat(f: Formula, g: Formula, n: int)
    requires Bounded(f, n) && Bounded(g, n)
    ensures Bounded(f + g, n)
  {
  }

  lemma {:induction false} BoundedMono(f: Formula, n: int, m: int)
    requires Bounded(f, n) && n <= m
    ensures Bounded(f, m)
  {
  }

  lemma {:induction false} MentionsConcat(f: Formula, g: Formula, v: int)
    requires Mentions(f, v) || Mentions(g, v)
    ensures Mentions(f + g, v) && Mentions(g + f, v)
  {
    if Mentions(f, v) {
      var i, j :| 0 <= i < |f| && 0 <= j < |f[i]| && Abs(f[i][j]) == v;
      assert (f + g)[i] == f[i];
      assert (g + f)[|g| + i] == f[i];
    } else {
      var i, j :| 0 <= i < |g| && 0 <= j < |g[i]| && Abs(g[i][j]) == v;
      assert (g + f)[i] == g[i];
      assert (f + g)[|f| + i] == g[i];
    }
  }

  lemma {:induction false} CoversConcat(f: Formula, g: Formula, lo: int, mid: int, hi: int)
    requires Covers(f, lo, mid) && Covers(g, mid, hi)
    ensures Covers(f + g, lo, hi) && Covers(g + f, lo, hi)
  {
    forall v | lo <= v < hi ensures Mentions(f + g, v) && Mentions(g + f, v) {
      MentionsConcat(f, g, v);
    }
  }

  /** The extension property composes: fix the first gadget's fresh
      variables, then the second's; the second choice leaves the first
      gadget's clauses satisfied because they never mention its range. */
  lemma {:induction false} ExtendableConcat(f: Formula, g: Formula, lo: int, mid: int, hi: int)
    requires lo <= mid <= hi
    requires Bounded(f, mid)
    requires Extendable(f, lo, mid) && Extendable(g, mid, hi)
    ensures Extendable(f + g, lo, hi) && Extendable(g + f, lo, hi)
  {
    forall a: Assignment ensures ExtendsFrom(f + g, lo, hi, a) && ExtendsFrom(g + f, lo, hi, a) {
      assert ExtendsFrom(f, lo, mid, a);
      var b1: Assignment :| Agree(a, b1, lo, mid) && Sat(b1, f);
      assert ExtendsFrom(g, mid, hi, b1);
      var b2: Assignment :| Agree(b1, b2, mid, hi) && Sat(b2, g);
      SatFrame(b1, b2, f, mid);
      SatConcat(b2, f, g);
      SatConcat(b2, g, f);
      assert Agree(a, b2, lo, hi);
    }
  }

  /** Sequential composition of two gadgets, in either clause order. */
  lemma {:induction false} Chain(f: Formula, g: Formula, lo: int, mid: int, hi: int)
    requires Wired(f, lo, mid) && Wired(g, mid, hi)
    ensures Wired(f + g, lo, hi) && Wired(g + f, lo, hi)
  {
    BoundedMono(f, mid, hi);
    BoundedConcat(f, g, hi);
    BoundedConcat(g, f, hi);
    CoversConcat(f, g, lo, mid, hi);
    ExtendableConcat(f, g, lo, mid, hi);
  }

  lemma {:induction false} WiredEmpty(n: int)
    requires 0 < n
    ensures Wired([], n, n)
  {
    forall a: Assignment ensures ExtendsFrom([], n, n, a) {
      assert Agree(a, a, n, n) && Sat(a, []);
    }
  }

  lemma {:induction false} ClosedConcat(f: Formula, g: Formula, ins: seq<int>, lo: int, hi: int)
    requires Closed(f, ins, lo, hi) && Closed(g, ins, lo, hi)
    ensures Closed(f + g, ins, lo, hi)
  {
  }

  /** A part whose inputs are declared inputs of the whole or variables
      allocated earlier in the whole's range is closed in the whole. */
  lemma {:induction false} ClosedWiden(f: Formula, fins: seq<int>, flo: int, fhi: int, ins: seq<int>, lo: int, hi: int)
    requires Closed(f, fins, flo, fhi)
    requires forall v :: v in fins ==> v in ins || lo <= v < hi
    requires lo <= flo && fhi <= hi
    ensures Closed(f, ins, lo, hi)
  {
  }

  /** Sequential composition of two gadgets that are both closed over the
      inputs of the whole and the range the whole allocates. */
  lemma {:induction false} Then(f: Formula, g: Formula, ins: seq<int>, lo: int, mid: int, hi: int)
    requires Wired(f, lo, mid) && Wired(g, mid, hi)
    requires Closed(f, ins, lo, hi) && Closed(g, ins, lo, hi)
    ensures Wired(f + g, lo, hi) && Closed(f + g, ins, lo, hi)
  {
    Chain(f, g, lo, mid, hi);
    ClosedConcat(f, g, ins, lo, hi);
  }

  /** Appending a gadget whose inputs come from the inputs of the whole or
      from variables allocated earlier in the whole's range. */
  lemma {:induction false} Append(f: Formula, fins: seq<int>, g: Formula, gins: seq<int>, ins: seq<int>, lo: int, mid: int, hi: int)
    requires Wired(f, lo, mid) && Closed(f, fins, lo, mid) && From(fins, ins, lo, hi)
    requires Wired(g, mid, hi) && Closed(g, gins, mid, hi) && From(gins, ins, lo, hi)
    ensures Wired(f + g, lo, hi) && Closed(f + g, ins, lo, hi)
  {
    forall v | v in fins ensures v in ins || lo <= v < hi {
      var i :| 0 <= i < |fins| && fins[i] == v;
    }
    forall v | v in gins ensures v in ins || lo <= v < hi {
      var i :| 0 <= i < |gins| && gins[i] == v;
    }
    ClosedWiden(f, fins, lo, mid, ins, lo, hi);
    ClosedWiden(g, gins, mid, hi, ins, lo, hi);
    Then(f, g, ins, lo, mid, hi);
  }

  /** The first gadget of a composite, its inputs among the composite's. */
  lemma {:induction false} Begin(ins: seq<int>, lo: int, g: (nat, Result))
    requires Allocates(lo, g) && From(g.1.inVars, ins, lo, lo)
    ensures Wired(g.1.cnf, lo, g.0) && Closed(g.1.cnf, ins, lo, g.0)
  {
    forall v | v in g.1.inVars ensures v in ins || lo <= v < g.0 {
      var i :| 0 <= i < |g.1.inVars| && g.1.inVars[i] == v;
    }
    ClosedWiden(g.1.cnf, g.1.inVars, lo, g.0, ins, lo, g.0);
  }

  /** Appending a gadget that starts where the composite so far ends and
      reads only the composite's inputs and variables allocated before it. */
  lemma {:induction false} Extend(f: Formula, ins: seq<int>, lo: int, mid: int, g: (nat, Result))
    requires Wired(f, lo, mid) && Closed(f, ins, lo, mid)
    requires Allocates(mid, g) && From(g.1.inVars, ins, lo, mid)
    ensures Wired(f + g.1.cnf, lo, g.0) && Closed(f + g.1.cnf, ins, lo, g.0)
  {
    forall v | v in g.1.inVars ensures v in ins || lo <= v < g.0 {
      var i :| 0 <= i < |g.1.inVars| && g.1.inVars[i] == v;
    }
    ClosedWiden(f, ins, lo, mid, ins, lo, g.0);
    ClosedWiden(g.1.cnf, g.1.inVars, mid, g.0, ins, lo, g.0);
    Then(f, g.1.cnf, ins, lo, mid, g.0);
  }

  /** The two operands of a gadget, both available at `hi`. */
  lemma {:induction false} Operands(x: seq<int>, y: seq<int>, ins: seq<int>, lo: int, hi: int)
    requires From(x, ins, lo, hi) && From(y, ins, lo, hi) && Below(ins, lo) && 0 < lo <= hi
    ensures From(x + y, ins, lo, hi) && Below(x, hi) && Below(y, hi)
  {
    FromConcat(x, y, ins, lo, hi);
    forall i | 0 <= i < |x| ensures 0 < x[i] < hi {
      if x[i] in ins {
        var k :| 0 <= k < |ins| && ins[k] == x[i];
      }
    }
    forall i | 0 <= i < |y| ensures 0 < y[i] < hi {
      if y[i] in ins {
        var k :| 0 <= k < |ins| && ins[k] == y[i];
      }
    }
  }

  lemma {:induction false} FromConsecutive(vs: seq<int>, ins: seq<int>, lo: int, hi: int, start: int)
    requires Consecutive(vs, start) && lo <= start && start + |vs| <= hi
    ensures From(vs, ins, lo, hi) && Within(vs, start, start + |vs|)
  {
  }

  lemma {:induction false} FromSelf(ins: seq<int>, lo: int, hi: int)
    ensures From(ins, ins, lo, hi)
  {
    forall i | 0 <= i < |ins| ensures ins[i] in ins {
    }
  }

  lemma {:induction false} FromWithin(vs: seq<int>, ins: seq<int>, lo: int, hi: int, vlo: int, vhi: int)
    requires Within(vs, vlo, vhi) && lo <= vlo && vhi <= hi
    ensures From(vs, ins, lo, hi)
  {
  }

  lemma {:induction false} FromConcat(s: seq<int>, t: seq<int>, ins: seq<int>, lo: int, hi: int)
    requires From(s, ins, lo, hi) && From(t, ins, lo, hi)
    ensures From(s + t, ins, lo, hi)
  {
    forall i | 0 <= i < |s + t| ensures (s + t)[i] in ins || lo <= (s + t)[i] < hi {
      if i < |s| {
        assert (s + t)[i] == s[i];
      } else {
        assert (s + t)[i] == t[i - |s|];
      }
    }
  }

  /** A slice of either half of the declared inputs is declared. */
  lemma {:induction false} FromSlices(s: seq<int>, t: seq<int>, i: int, j: int, lo: int, hi: int)
    requires 0 <= i <= j
    ensures j <= |s| ==> From(s[i..j], s + t, lo, hi)
    ensures j <= |t| ==> From(t[i..j], s + t, lo, hi)
  {
    if j <= |s| {
      forall k | 0 <= k < j - i ensures s[i..j][k] in s + t {
        assert (s + t)[i + k] == s[i..j][k];
      }
    }
    if j <= |t| {
      forall k | 0 <= k < j - i ensures t[i..j][k] in s + t {
        assert (s + t)[|s| + i + k] == t[i..j][k];
      }
    }
  }

  /** Variables allocated in a range above zero are variables below its
      end. */
  lemma {:induction false} WithinBelow(vs: seq<int>, lo: int, hi: int)
    requires Within(vs, lo, hi) && 0 < lo
    ensures Below(vs, hi) && AreVars(vs)
  {
  }

  lemma {:induction false} BelowSlice(vs: seq<int>, i: int, j: int, n: int)
    requires Below(vs, n) && 0 <= i <= j <= |vs|
    ensures Below(vs[i..j], n) && AreVars(vs[i..j])
  {
    forall m | 0 <= m < j - i ensures 0 < vs[i..j][m] < n {
      assert vs[i..j][m] == vs[i + m];
    }
  }

  lemma {:induction false} BelowConcat(s: seq<int>, t: seq<int>, n: int)
    requires Below(s, n) && Below(t, n)
    ensures Below(s + t, n) && AreVars(s + t)
  {
    forall m | 0 <= m < |s + t| ensures 0 < (s + t)[m] < n {
      if m < |s| {
        assert (s + t)[m] == s[m];
      } else {
        assert (s + t)[m] == t[m - |s|];
      }
    }
  }

  lemma {:induction false} BelowMono(vs: seq<int>, n: int, m: int)
    requires Below(vs, n) && n <= m
    ensures Below(vs, m)
  {
  }

  /** Bounded clauses are closed over the inputs 1, ..., lo - 1. */
  lemma {:induction false} BoundedClosed(f: Formula, ins: seq<int>, lo: int, hi: int)
    requires Bounded(f, hi) && Consecutive(ins, 1) && |ins| == lo - 1
    ensures Closed(f, ins, lo, hi)
  {
    forall i, j | 0 <= i < |f| && 0 <= j < |f[i]| ensures Abs(f[i][j]) in ins || lo <= Abs(f[i][j]) < hi {
      var v := Abs(f[i][j]);
      if v < lo {
        assert ins[v - 1] == v;
      }
    }
  }

  /** Closed clauses over inputs allocated earlier are bounded. */
  lemma {:induction false} ClosedBounded(f: Formula, ins: seq<int>, lo: int, hi: int)
    requires Closed(f, ins, lo, hi) && Below(ins, lo) && lo <= hi
    ensures Bounded(f, hi)
  {
    forall i, j | 0 <= i < |f| && 0 <= j < |f[i]| ensures Abs(f[i][j]) < hi {
      if Abs(f[i][j]) in ins {
        var k :| 0 <= k < |ins| && ins[k] == Abs(f[i][j]);
      }
    }
  }

  // ---------------------------------------------------------------------
  // The largest variable

  lemma {:induction false} MaxInClauseBound(c: Clause, n: int)
    requires forall j :: 0 <= j < |c| ==> Abs(c[j]) < n
    requires 0 < n
    ensures MaxInClause(c) < n
    decreases |c|
  {
    if |c| > 0 {
      MaxInClauseBound(c[1..], n);
    }
  }

  lemma {:induction false} MaxInClauseAtLeast(c: Clause, j: int)
    requires 0 <= j < |c|
    ensures Abs(c[j]) <= MaxInClause(c)
    decreases j
  {
    if j > 0 {
      MaxInClauseAtLeast(c[1..], j - 1);
    }
  }

  lemma {:induction false} MaxVarBound(f: Formula, n: int)
    requires Bounded(f, n) && 0 < n
    ensures MaxVar(f) < n
    decreases |f|
  {
    if |f| > 0 {
      MaxInClauseBound(f[0], n);
      MaxVarBound(f[1..], n);
    }
  }

  lemma {:induction false} MaxVarAtLeast(f: Formula, i: int, j: int)
    requires 0 <= i < |f| && 0 <= j < |f[i]|
    ensures Abs(f[i][j]) <= MaxVar(f)
    decreases i
  {
    if i == 0 {
      MaxInClauseAtLeast(f[0], j);
    } else {
      MaxVarAtLeast(f[1..], i - 1, j);
    }
  }

  /** The counter returned by a gadget that allocated at least one variable
      is one more than the largest variable in its clauses. */
  lemma {:induction false} NextFreeIsMaxPlusOne(f: Formula, lo: int, hi: int)
    requires Wired(f, lo, hi) && lo < hi
    ensures hi == MaxVar(f) + 1
  {
    MaxVarBound(f, hi);
    assert Mentions(f, hi - 1);
    var i, j :| 0 <= i < |f| && 0 <= j < |f[i]| && Abs(f[i][j]) == hi - 1;
    MaxVarAtLeast(f, i, j);
  }
}
