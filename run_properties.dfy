/** What a whole run of `simular` guarantees about the finished height
    table, the interface and the per-step copies. */
module RunProperties {

  import opened Int32Rng
  import opened Growth
  import opened Statistics
  import opened Invariants
  import opened StepProperties

  /** The finished run is in the invariant of its last step with all of
      that step's deposits done. */
  lemma RunInv(v: Variant, L: nat, T: nat, snaps: map<nat, seq<bool>>, xn: int)
    requires L <= TwoTo31 && 0 < T
    ensures Inv(v, L, Run(v, L, T, snaps, xn), T - 1, L)
  {
    InitialInv(v, L, T, snaps, xn);
    StepEndInv(v, L, Initial(L, T, snaps, xn), T);
  }

  /** Before each deposit of any step of a run from the zero table, the
      table has `T` rows and the interface has room for the deposit's
      mark. */
  lemma RunFits(v: Variant, L: nat, T: nat, snaps: map<nat, seq<bool>>, xn: int, t: nat)
    requires L <= TwoTo31 && t < T
    ensures var start := Initial(L, T, snaps, xn);
      forall l :: 0 <= l < L ==>
        var p := Particles(v, L, Snap(RunSteps(v, L, start, t), t), t, l);
        |p.table| == T && Room(p, L, t)
  {
    var start := Initial(L, T, snaps, xn);
    InitialInv(v, L, T, snaps, xn);
    StepStartInv(v, L, start, t);
    forall l | 0 <= l < L
      ensures var p := Particles(v, L, Snap(RunSteps(v, L, start, t), t), t, l);
        |p.table| == T && Room(p, L, t)
    {
      ParticlesKeepInv(v, L, Snap(RunSteps(v, L, start, t), t), t, l);
    }
  }

  /** After the run, no site's height drops from one row to the next. */
  lemma RunHeightsNonDecreasing(v: Variant, L: nat, T: nat, snaps: map<nat, seq<bool>>, xn: int)
    requires L <= TwoTo31
    ensures |Run(v, L, T, snaps, xn).table| == T && Shape(Run(v, L, T, snaps, xn), L)
    ensures var table := Run(v, L, T, snaps, xn).table;
      forall r :: 0 <= r && r + 1 < T ==> Below(table[r], table[r + 1])
  {
    if T > 0 {
      RunInv(v, L, T, snaps, xn);
    }
  }

  /** In the invariant with all deposits of step `t` done, the random
      variants have put exactly `L` particles in each step so far. */
  lemma FullStepSums(v: Variant, L: nat, s: State, t: nat)
    requires Inv(v, L, s, t, L) && v != Ballistic
    ensures forall r :: 0 <= r <= t ==> Sum(s.table[r]) == L * (r + 1)
  {
    assert L * t + L == L * (t + 1);
  }

  /** Heights only grow: any row of the finished table is nowhere above
      any later row, in particular the last one, which `altura_sitio`
      reads when no step is given. */
  lemma {:induction false} RunRowsOrdered(v: Variant, L: nat, T: nat, snaps: map<nat, seq<bool>>, xn: int, r: nat, r': nat)
    requires L <= TwoTo31 && r <= r' < T
    ensures |Run(v, L, T, snaps, xn).table| == T && Shape(Run(v, L, T, snaps, xn), L)
    ensures Below(Run(v, L, T, snaps, xn).table[r], Run(v, L, T, snaps, xn).table[r'])
  {
    RunHeightsNonDecreasing(v, L, T, snaps, xn);
    var table := Run(v, L, T, snaps, xn).table;
    if r < r' {
      RunRowsOrdered(v, L, T, snaps, xn, r, r' - 1);
      assert Below(table[r' - 1], table[r']);
    }
  }

  /** Random and relaxation deposits each add exactly one particle, so
      row `r` of the finished table sums to `L * (r + 1)`. */
  lemma RunRowSums(v: Variant, L: nat, T: nat, snaps: map<nat, seq<bool>>, xn: int)
    requires L <= TwoTo31 && v != Ballistic
    ensures |Run(v, L, T, snaps, xn).table| == T && Shape(Run(v, L, T, snaps, xn), L)
    ensures var table := Run(v, L, T, snaps, xn).table;
      forall r :: 0 <= r < T ==> Sum(table[r]) == L * (r + 1)
  {
    if T > 0 {
      RunInv(v, L, T, snaps, xn);
      FullStepSums(v, L, Run(v, L, T, snaps, xn), T - 1);
    }
  }

  /** Hence `altura_media(r) == r + 1` for the random variants. */
  lemma RunMeanHeight(v: Variant, L: nat, T: nat, snaps: map<nat, seq<bool>>, xn: int, r: nat)
    requires 0 < L <= TwoTo31 && v != Ballistic && r < T
    ensures |Run(v, L, T, snaps, xn).table| == T && Shape(Run(v, L, T, snaps, xn), L)
    ensures Mean(Run(v, L, T, snaps, xn).table[r]) == (r + 1) as real
  {
    var table := Run(v, L, T, snaps, xn).table;
    RunRowSums(v, L, T, snaps, xn);
    assert Sum(table[r]) == |table[r]| * (r + 1);
    MeanFromSum(table[r], r + 1);
  }

  /** On a single site every particle lands on site 0: after step `r` its
      height is `r + 1`. */
  lemma RunSingleSite(v: Variant, T: nat, snaps: map<nat, seq<bool>>, xn: int, r: nat)
    requires v != Ballistic && r < T
    ensures |Run(v, 1, T, snaps, xn).table| == T && Shape(Run(v, 1, T, snaps, xn), 1)
    ensures Run(v, 1, T, snaps, xn).table[r] == [r + 1]
  {
    var table := Run(v, 1, T, snaps, xn).table;
    RunRowSums(v, 1, T, snaps, xn);
    assert table[r] == [table[r][0]];
    assert Sum(table[r]) == table[r][0] + Sum(table[r][1..]);
  }

  /** The finished interface: every height of the last row is at most
      the number of interface rows, marks lie below the column tops and
      each top cell is marked; for the random variants each column is
      marked at exactly the levels below its final height. */
  lemma RunInterface(v: Variant, L: nat, T: nat, snaps: map<nat, seq<bool>>, xn: int)
    requires L <= TwoTo31 && 0 < T
    ensures |Run(v, L, T, snaps, xn).table| == T && Shape(Run(v, L, T, snaps, xn), L)
    ensures Fits(Run(v, L, T, snaps, xn), L, T - 1) && TopsMarked(Run(v, L, T, snaps, xn), T - 1)
    ensures v != Ballistic ==> ColumnsFilled(Run(v, L, T, snaps, xn), T - 1)
  {
    RunInv(v, L, T, snaps, xn);
  }

  /** Row `r` is final once step `r` is over: after any later step `t`
      it still holds the heights it had after step `r`. */
  lemma {:induction false} RowFrozenAfterStep(v: Variant, L: nat, s: State, r: nat, t: nat)
    requires 0 < |s.iface| && r < t && r < |s.table|
    ensures RunSteps(v, L, s, t).table[r] == RunSteps(v, L, s, r + 1).table[r]
  {
    if t > r + 1 {
      RowFrozenAfterStep(v, L, s, r, t - 1);
      StepKeepsEarlierRows(v, L, s, t, r);
    }
  }

  /** The keys of `instantaneos` after `t` steps: the keys it had, and
      every step so far. */
  lemma {:induction false} SnapshotKeys(v: Variant, L: nat, s: State, t: nat)
    requires 0 < |s.iface|
    ensures forall k: nat :: k in RunSteps(v, L, s, t).snaps <==> k in s.snaps || k < t
  {
    if t > 0 {
      SnapshotKeys(v, L, s, t - 1);
      StepSnaps(v, L, s, t);
    }
  }

  /** `instantaneos[k]` holds the interface's last row as it was when
      step `k` began; entries from before the run stay for other keys. */
  lemma {:induction false} SnapshotsRecorded(v: Variant, L: nat, s: State, t: nat)
    requires 0 < |s.iface|
    ensures forall k: nat {:trigger RunSteps(v, L, s, t).snaps[k]} :: k < t ==>
      k in RunSteps(v, L, s, t).snaps && RunSteps(v, L, s, t).snaps[k] == Last(RunSteps(v, L, s, k).iface)
    ensures forall k: nat :: k in s.snaps && t <= k ==>
      k in RunSteps(v, L, s, t).snaps && RunSteps(v, L, s, t).snaps[k] == s.snaps[k]
  {
    if t > 0 {
      SnapshotsRecorded(v, L, s, t - 1);
      StepSnaps(v, L, s, t);
    }
  }

  /** The heights and the generator state a deposit leaves depend only on
      the heights and the generator state before it, never on the
      interface: how the interface is marked cannot change them. */
  lemma DepositIgnoresInterface(v: Variant, L: nat, s1: State, s2: State, t: nat)
    requires s1.table == s2.table && s1.xn == s2.xn
    ensures Deposit(v, L, s1, t).table == Deposit(v, L, s2, t).table
    ensures Deposit(v, L, s1, t).xn == Deposit(v, L, s2, t).xn
  {
  }

  lemma {:induction false} ParticlesIgnoreInterface(v: Variant, L: nat, s1: State, s2: State, t: nat, n: nat)
    requires s1.table == s2.table && s1.xn == s2.xn
    ensures Particles(v, L, s1, t, n).table == Particles(v, L, s2, t, n).table
    ensures Particles(v, L, s1, t, n).xn == Particles(v, L, s2, t, n).xn
  {
    if n > 0 {
      ParticlesIgnoreInterface(v, L, s1, s2, t, n - 1);
      DepositIgnoresInterface(v, L, Particles(v, L, s1, t, n - 1), Particles(v, L, s2, t, n - 1), t);
    }
  }

  /** So the height table and the generator after any number of steps are
      the same whatever the interface and the copies hold. */
  lemma {:induction false} HeightsIgnoreInterface(v: Variant, L: nat, s1: State, s2: State, t: nat)
    requires 0 < |s1.iface| && 0 < |s2.iface| && s1.table == s2.table && s1.xn == s2.xn
    ensures RunSteps(v, L, s1, t).table == RunSteps(v, L, s2, t).table
    ensures RunSteps(v, L, s1, t).xn == RunSteps(v, L, s2, t).xn
  {
    if t > 0 {
      HeightsIgnoreInterface(v, L, s1, s2, t - 1);
      var p1, p2 := RunSteps(v, L, s1, t - 1), RunSteps(v, L, s2, t - 1);
      ParticlesIgnoreInterface(v, L, Snap(p1, t - 1), Snap(p2, t - 1), t - 1, L);
    }
  }

  /** Steps keep the width of every row. */
  lemma {:induction false} StepsKeepWidth(v: Variant, L: nat, s: State, t: nat, r: nat)
    requires 0 < |s.iface| && r < |s.table|
    ensures |RunSteps(v, L, s, t).table[r]| == |s.table[r]|
  {
    if t > 0 {
      StepsKeepWidth(v, L, s, t - 1, r);
      var p := RunSteps(v, L, s, t - 1);
      ParticlesKeepWidth(v, L, Snap(p, t - 1), t - 1, L, r);
    }
  }

  /** `t` steps call the generator exactly `L` times each. */
  lemma {:induction false} StepsDraw(v: Variant, L: nat, s: State, t: nat)
    requires L <= TwoTo31 && 0 < |s.iface| && Shape(s, L) && t <= |s.table|
    ensures RunSteps(v, L, s, t).xn == Iterate(s.xn, t * L)
  {
    if t > 0 {
      var m: nat := (t - 1) * L;
      assert m + L == t * L;
      StepsDraw(v, L, s, t - 1);
      var p := RunSteps(v, L, s, t - 1);
      StepsKeepWidth(v, L, s, t - 1, t - 1);
      calc {
        RunSteps(v, L, s, t).xn;
        Particles(v, L, Snap(p, t - 1), t - 1, L).xn;
        { ParticlesDraws(v, L, Snap(p, t - 1), t - 1, L); }
        Iterate(p.xn, L);
        Iterate(Iterate(s.xn, m), L);
        { IterateAdd(s.xn, m, L); }
        Iterate(s.xn, t * L);
      }
    }
  }

  /** A run of `T` steps leaves the generator `T * L` calls past its seed. */
  lemma RunDraws(v: Variant, L: nat, T: nat, snaps: map<nat, seq<bool>>, xn: int)
    requires L <= TwoTo31
    ensures Run(v, L, T, snaps, xn).xn == Iterate(xn, T * L)
  {
    if T > 0 {
      StepsDraw(v, L, Initial(L, T, snaps, xn), T);
    }
  }
}
