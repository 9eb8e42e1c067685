/** One deposit and one time step of `simular`: each keeps the loop
    invariant, leaves the finished rows alone, records its copy of the
    interface and draws from the generator once per particle. */
module StepProperties {

  import opened Int32Rng
  import opened Growth
  import opened Statistics
  import opened Invariants

  /** One deposit: rows `t..` of the chosen column become `level + 1` and
      every other cell stays; the random variants raise the drawn (or
      relaxed-to) site by one and mark the cell at its old height, the
      ballistic variant raises the drawn site to one above its
      neighbourhood's maximum. */
  lemma DepositEffect(v: Variant, L: nat, s: State, t: nat)
    requires 0 < L <= TwoTo31 && Shape(s, L) && t < |s.table| && Fits(s, L, t)
    ensures -(L as int) <= RawSite(Step(s.xn), L) < L
    ensures var x := Step(s.xn);
      var raw := RawSite(x, L);
      var row := s.table[t];
      var c := DepositSite(v, row, raw);
      var level := DepositLevel(v, row, raw);
      var s' := Deposit(v, L, s, t);
      s'.table == SetColumn(s.table, t, c, level + 1) &&
      (forall r, k :: 0 <= r < |s.table| && 0 <= k < L ==>
         s'.table[r][k] == if t <= r && k == c then level + 1 else s.table[r][k]) &&
      s'.iface == Mark(s.iface, level, c, L) &&
      (v == Random ==> c == PyIndex(raw, L) && level == row[c]) &&
      (v == Relaxation ==> c == PyIndex(RelaxChoice(row, raw), L) && level == row[c]) &&
      (v == Ballistic ==> c == PyIndex(raw, L) && level == BallisticTop(row, c))
  {
    var x := Step(s.xn);
    RawSiteRange(x, L);
    NegativeIndexActsAsSiteZero(s.table[t]);
  }

  /** The level a deposit fills is at most the interface's length, so at
      most one row has to be appended. */
  lemma DepositLevelFits(v: Variant, L: nat, s: State, t: nat, raw: int)
    requires t < |s.table| && |s.table[t]| == L && Room(s, L, t) && -(L as int) <= raw < L
    ensures DepositLevel(v, s.table[t], raw) <= |s.iface|
  {
    var row := s.table[t];
    DepositLevelBounds(v, row, raw);
    var j :| 0 <= j < |row| && DepositLevel(v, row, raw) == row[j];
  }

  /** A deposit, given the site and level it works out. */
  lemma DepositUnfold(v: Variant, L: nat, s: State, t: nat, c: nat, level: nat)
    requires CanDeposit(L, s, t) && -(L as int) <= RawSite(Step(s.xn), L) < L
    requires c == DepositSite(v, s.table[t], RawSite(Step(s.xn), L))
    requires level == DepositLevel(v, s.table[t], RawSite(Step(s.xn), L))
    ensures Deposit(v, L, s, t) == State(SetColumn(s.table, t, c, level + 1), Mark(s.iface, level, c, L), s.snaps, Step(s.xn))
  {
  }

  /** Raising rows `t..` of column `c` to `level + 1` keeps the shape and
      the agreement of rows `t..`, and leaves rows before `t` alone. */
  lemma RaiseKeepsShape(L: nat, s: State, t: nat, c: nat, level: nat, s': State)
    requires Shape(s, L) && t < |s.table| && RowsAgreeFrom(s.table, t)
    requires c < L && s'.table == SetColumn(s.table, t, c, level + 1)
    ensures Shape(s', L) && |s'.table| == |s.table| && RowsAgreeFrom(s'.table, t)
    ensures forall r :: 0 <= r < t ==> s'.table[r] == s.table[r]
    ensures s'.table[t] == s.table[t][c := level + 1]
  {
  }

  /** Raising a cell of row `t` keeps the rows up to `t` ordered. */
  lemma RaiseKeepsOrder(L: nat, s: State, t: nat, c: nat, level: nat, s': State)
    requires Shape(s, L) && t < |s.table| && MonotoneUpTo(s.table, t)
    requires c < L && s.table[t][c] <= level
    requires |s'.table| == |s.table| && s'.table[t] == s.table[t][c := level + 1]
    requires forall r :: 0 <= r < t ==> s'.table[r] == s.table[r]
    ensures MonotoneUpTo(s'.table, t)
  {
    forall r | 0 <= r < t && r + 1 < |s'.table|
      ensures Below(s'.table[r], s'.table[r + 1])
    {
      assert Below(s.table[r], s.table[r + 1]);
    }
  }

  /** Marking the cell at `level`, no lower than the column's height,
      while the column rises to `level + 1`, keeps that column's top
      marked and its marks beneath it. */
  lemma RaiseKeepsTops(L: nat, s: State, t: nat, c: nat, level: nat, s': State)
    requires Shape(s, L) && t < |s.table| && Fits(s, L, t) && TopsMarked(s, t)
    requires c < L && s.table[t][c] <= level <= |s.iface|
    requires |s'.table| == |s.table| && s'.table[t] == s.table[t][c := level + 1]
    requires s'.iface == Mark(s.iface, level, c, L)
    ensures TopsMarked(s', t)
  {
    MarkCells(s.iface, level, c, L);
  }

  /** The new column top `level + 1` fits the marked interface. */
  lemma RaiseKeepsFits(L: nat, s: State, t: nat, c: nat, level: nat, s': State)
    requires Shape(s, L) && t < |s.table| && Fits(s, L, t) && RowsAgreeFrom(s.table, t)
    requires c < L && s.table[t][c] <= level <= |s.iface|
    requires |s'.table| == |s.table| && s'.iface == Mark(s.iface, level, c, L)
    requires forall r :: t <= r < |s.table| ==> s'.table[r] == s.table[t][c := level + 1]
    ensures Fits(s', L, t)
  {
    MarkCells(s.iface, level, c, L);
  }

  /** A random deposit marks exactly the cell at the column's old height. */
  lemma RaiseKeepsFilled(L: nat, s: State, t: nat, c: nat, s': State)
    requires Shape(s, L) && t < |s.table| && Fits(s, L, t) && ColumnsFilled(s, t)
    requires c < L
    requires |s'.table| == |s.table| && s'.table[t] == s.table[t][c := s.table[t][c] + 1]
    requires s'.iface == Mark(s.iface, s.table[t][c], c, L)
    ensures ColumnsFilled(s', t)
  {
    MarkCells(s.iface, s.table[t][c], c, L);
  }

  /** A random deposit adds one particle to row `t`. */
  lemma RaiseKeepsSums(L: nat, s: State, t: nat, l: nat, c: nat, s': State)
    requires Shape(s, L) && t < |s.table| && CountedSums(s.table, L, t, l)
    requires c < L
    requires |s'.table| == |s.table| && s'.table[t] == s.table[t][c := s.table[t][c] + 1]
    requires forall r :: 0 <= r < t ==> s'.table[r] == s.table[r]
    ensures CountedSums(s'.table, L, t, l + 1)
  {
    SumUpdate(s.table[t], c, s.table[t][c] + 1);
  }

  /** The cell a deposit fills is no lower than its column and within
      one row of the interface. */
  lemma DepositCell(v: Variant, L: nat, s: State, t: nat)
    requires 0 < L <= TwoTo31 && Shape(s, L) && t < |s.table| && Fits(s, L, t)
    ensures -(L as int) <= RawSite(Step(s.xn), L) < L
    ensures var row := s.table[t];
      var raw := RawSite(Step(s.xn), L);
      var c := DepositSite(v, row, raw);
      var level := DepositLevel(v, row, raw);
      var s' := Deposit(v, L, s, t);
      c < L && row[c] <= level <= |s.iface| &&
      (v != Ballistic ==> level == row[c]) &&
      s'.table == SetColumn(s.table, t, c, level + 1) && s'.iface == Mark(s.iface, level, c, L)
  {
    DepositEffect(v, L, s, t);
    var row := s.table[t];
    var raw := RawSite(Step(s.xn), L);
    var level := DepositLevel(v, row, raw);
    DepositLevelBounds(v, row, raw);
    assert level <= |s.iface| by {
      var j :| 0 <= j < |row| && level == row[j];
    }
  }

  lemma DepositKeepsRows(v: Variant, L: nat, s: State, t: nat)
    requires 0 < L <= TwoTo31 && Shape(s, L) && t < |s.table| && Fits(s, L, t)
    requires RowsAgreeFrom(s.table, t) && MonotoneUpTo(s.table, t)
    ensures var s' := Deposit(v, L, s, t);
      Shape(s', L) && |s'.table| == |s.table| && RowsAgreeFrom(s'.table, t) && MonotoneUpTo(s'.table, t)
  {
    var row := s.table[t];
    var raw := RawSite(Step(s.xn), L);
    var c := DepositSite(v, row, raw);
    var level := DepositLevel(v, row, raw);
    var s' := Deposit(v, L, s, t);
    assert c < L && row[c] <= level <= |s.iface| && (v != Ballistic ==> level == row[c]) &&
      s'.table == SetColumn(s.table, t, c, level + 1) && s'.iface == Mark(s.iface, level, c, L) by {
      DepositCell(v, L, s, t);
    }
    RaiseKeepsShape(L, s, t, c, level, s');
    RaiseKeepsOrder(L, s, t, c, level, s');
  }

  lemma DepositKeepsTops(v: Variant, L: nat, s: State, t: nat)
    requires 0 < L <= TwoTo31 && Shape(s, L) && t < |s.table| && Fits(s, L, t)
    requires RowsAgreeFrom(s.table, t) && TopsMarked(s, t)
    ensures Fits(Deposit(v, L, s, t), L, t) && TopsMarked(Deposit(v, L, s, t), t)
  {
    var row := s.table[t];
    var raw := RawSite(Step(s.xn), L);
    var c := DepositSite(v, row, raw);
    var level := DepositLevel(v, row, raw);
    var s' := Deposit(v, L, s, t);
    assert c < L && row[c] <= level <= |s.iface| && (v != Ballistic ==> level == row[c]) &&
      s'.table == SetColumn(s.table, t, c, level + 1) && s'.iface == Mark(s.iface, level, c, L) by {
      DepositCell(v, L, s, t);
    }
    RaiseKeepsShape(L, s, t, c, level, s');
    RaiseKeepsFits(L, s, t, c, level, s');
    RaiseKeepsTops(L, s, t, c, level, s');
  }

  lemma DepositKeepsCounts(v: Variant, L: nat, s: State, t: nat, l: nat)
    requires 0 < L <= TwoTo31 && Shape(s, L) && t < |s.table| && Fits(s, L, t) && v != Ballistic
    requires RowsAgreeFrom(s.table, t) && CountedSums(s.table, L, t, l) && ColumnsFilled(s, t)
    ensures CountedSums(Deposit(v, L, s, t).table, L, t, l + 1) && ColumnsFilled(Deposit(v, L, s, t), t)
  {
    var row := s.table[t];
    var raw := RawSite(Step(s.xn), L);
    var c := DepositSite(v, row, raw);
    var level := DepositLevel(v, row, raw);
    var s' := Deposit(v, L, s, t);
    assert c < L && row[c] <= level <= |s.iface| && (v != Ballistic ==> level == row[c]) &&
      s'.table == SetColumn(s.table, t, c, level + 1) && s'.iface == Mark(s.iface, level, c, L) by {
      DepositCell(v, L, s, t);
    }
    RaiseKeepsShape(L, s, t, c, level, s');
    RaiseKeepsFilled(L, s, t, c, s');
    RaiseKeepsSums(L, s, t, l, c, s');
  }

  /** Each deposit keeps the invariant and counts one more particle. */
  lemma DepositKeepsInv(v: Variant, L: nat, s: State, t: nat, l: nat)
    requires Inv(v, L, s, t, l) && 0 < L
    ensures Inv(v, L, Deposit(v, L, s, t), t, l + 1)
  {
    DepositKeepsRows(v, L, s, t);
    DepositKeepsTops(v, L, s, t);
    if v != Ballistic {
      DepositKeepsCounts(v, L, s, t, l);
    }
  }

  lemma {:induction false} ParticlesKeepInv(v: Variant, L: nat, s: State, t: nat, n: nat)
    requires Inv(v, L, s, t, 0) && (n > 0 ==> L > 0)
    ensures Inv(v, L, Particles(v, L, s, t, n), t, n)
  {
    if n > 0 {
      ParticlesKeepInv(v, L, s, t, n - 1);
      DepositKeepsInv(v, L, Particles(v, L, s, t, n - 1), t, n - 1);
    }
  }

  /** Finishing step `t` (all `L` deposits) and taking the copy of step
      `t + 1` starts step `t + 1` in the invariant. */
  lemma StepKeepsInv(v: Variant, L: nat, s: State, t: nat)
    requires Inv(v, L, s, t, L) && t + 1 < |s.table|
    ensures Inv(v, L, Snap(s, t + 1), t + 1, 0)
  {
    var s' := Snap(s, t + 1);
    assert s'.table == s.table && s'.iface == s.iface;
    assert s.table[t + 1] == s.table[t];
    if v != Ballistic {
      assert L * t + L == L * (t + 1) + 0;
    }
  }

  lemma InitialInv(v: Variant, L: nat, T: nat, snaps: map<nat, seq<bool>>, xn: int)
    requires L <= TwoTo31 && 0 < T
    ensures Inv(v, L, Snap(Initial(L, T, snaps, xn), 0), 0, 0)
  {
    var s := Snap(Initial(L, T, snaps, xn), 0);
    assert s.table[0] == ZeroRow(L);
    SumConstant(ZeroRow(L), 0);
  }

  /** A deposit of step `t` never writes rows before `t`. */
  lemma {:induction false} ParticlesKeepEarlierRows(v: Variant, L: nat, s: State, t: nat, n: nat, r: nat)
    requires r < t && r < |s.table|
    ensures Particles(v, L, s, t, n).table[r] == s.table[r]
  {
    if n > 0 {
      var p := Particles(v, L, s, t, n - 1);
      ParticlesKeepEarlierRows(v, L, s, t, n - 1, r);
      assert Deposit(v, L, p, t).table[r] == p.table[r];
    }
  }

  /** Step `t` leaves the earlier rows alone. */
  lemma StepKeepsEarlierRows(v: Variant, L: nat, s: State, t: nat, r: nat)
    requires 0 < |s.iface| && r + 1 < t && r < |s.table|
    ensures RunSteps(v, L, s, t).table[r] == RunSteps(v, L, s, t - 1).table[r]
  {
    var p := RunSteps(v, L, s, t - 1);
    ParticlesKeepEarlierRows(v, L, Snap(p, t - 1), t - 1, L, r);
  }

  /** Step `t` records the last interface row under key `t`. */
  lemma StepSnaps(v: Variant, L: nat, s: State, t: nat)
    requires 0 < |s.iface| && 0 < t
    ensures RunSteps(v, L, s, t).snaps == RunSteps(v, L, s, t - 1).snaps[t - 1 := Last(RunSteps(v, L, s, t - 1).iface)]
  {
  }

  /** A deposit keeps the width of every row. */
  lemma DepositKeepsWidth(v: Variant, L: nat, s: State, t: nat, r: nat)
    requires r < |s.table|
    ensures |Deposit(v, L, s, t).table[r]| == |s.table[r]|
  {
  }

  lemma {:induction false} ParticlesKeepWidth(v: Variant, L: nat, s: State, t: nat, n: nat, r: nat)
    requires r < |s.table|
    ensures |Particles(v, L, s, t, n).table[r]| == |s.table[r]|
  {
    if n > 0 {
      ParticlesKeepWidth(v, L, s, t, n - 1, r);
      DepositKeepsWidth(v, L, Particles(v, L, s, t, n - 1), t, r);
    }
  }

  /** A deposit in a state that can take one advances the generator once. */
  lemma DepositDraws(v: Variant, L: nat, s: State, t: nat)
    requires CanDeposit(L, s, t)
    ensures Deposit(v, L, s, t).xn == Step(s.xn)
  {
  }

  /** `n` deposits of a step advance the generator `n` times. */
  lemma {:induction false} ParticlesDraws(v: Variant, L: nat, s: State, t: nat, n: nat)
    requires n > 0 ==> CanDeposit(L, s, t)
    ensures Particles(v, L, s, t, n).xn == Iterate(s.xn, n)
  {
    if n > 0 {
      ParticlesDraws(v, L, s, t, n - 1);
      ParticlesKeepWidth(v, L, s, t, n - 1, t);
      DepositDraws(v, L, Particles(v, L, s, t, n - 1), t);
    }
  }

  /** From a start state whose copy-taken form is in the invariant of step
      0, every step starts in the invariant: with the copy of step `t`
      taken and none of its deposits done. */
  lemma {:induction false} StepStartInv(v: Variant, L: nat, s: State, t: nat)
    requires 0 < |s.iface| && Inv(v, L, Snap(s, 0), 0, 0) && t < |s.table|
    ensures Inv(v, L, Snap(RunSteps(v, L, s, t), t), t, 0)
  {
    if t > 0 {
      var p := RunSteps(v, L, s, t - 1);
      StepStartInv(v, L, s, t - 1);
      var q := Particles(v, L, Snap(p, t - 1), t - 1, L);
      ParticlesKeepInv(v, L, Snap(p, t - 1), t - 1, L);
      assert RunSteps(v, L, s, t) == q;
      StepKeepsInv(v, L, q, t - 1);
    }
  }

  /** ... and ends in the invariant with all `L` of its deposits done. */
  lemma StepEndInv(v: Variant, L: nat, s: State, t: nat)
    requires 0 < |s.iface| && Inv(v, L, Snap(s, 0), 0, 0) && 0 < t <= |s.table|
    ensures Inv(v, L, RunSteps(v, L, s, t), t - 1, L)
  {
    var p := RunSteps(v, L, s, t - 1);
    var q := Particles(v, L, Snap(p, t - 1), t - 1, L);
    assert RunSteps(v, L, s, t) == q;
    StepStartInv(v, L, s, t - 1);
    ParticlesKeepInv(v, L, Snap(p, t - 1), t - 1, L);
  }
}
