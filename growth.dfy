/** The deposition engine as functions on values: the site draw, the three
    update rules, one particle, one time step and a whole run. The class in
    module Simulation is proved to compute exactly these functions. */
module Growth {

  import opened Int32Rng

  /** The three subclasses of `Deposicao`. */
  datatype Variant = Random | Relaxation | Ballistic

  /** What one simulation holds: the `tempo_maximo x L` height table, the
      interface (one boolean row per height level), the per-step copies of
      the interface's last row, and the generator's state. */
  datatype State = State(table: seq<seq<nat>>, iface: seq<seq<bool>>, snaps: map<nat, seq<bool>>, xn: int)

  function Max(a: nat, b: nat): nat {
    if a < b then b else a
  }

  /** numpy's `abs` on an int32: `abs(-2^31)` wraps back to `-2^31`. */
  function NumpyAbs(x: int): int {
    Wrap32(if x < 0 then -x else x)
  }

  /** Division truncating toward zero, as `np.int32` of a float does. */
  function TruncDiv(a: int, b: nat): int
    requires b > 0
  {
    if a >= 0 then a / b else -((-a) / b)
  }

  /** `np.int32(np.abs(x) * (L / 2**31))`, with the product taken exactly.
      On an int32 state it lies in `[-L, L)`. */
  function RawSite(x: int, L: nat): (raw: int)
    ensures Int32(x) && 0 < L <= TwoTo31 ==> -(L as int) <= raw < L
  {
    var r := TruncDiv(NumpyAbs(x) * L, TwoTo31);
    assert Int32(x) && 0 < L <= TwoTo31 ==> -(L as int) <= r < L by {
      if Int32(x) && 0 < L <= TwoTo31 {
        ScaledAbsBounds(x, L);
      }
    }
    r
  }

  /** numpy's `abs` of an int32 is `-2^31` or lies in `[0, 2^31)`, so the
      scaled index is `-L` or lies in `[0, L)`. */
  lemma ScaledAbsBounds(x: int, L: nat)
    requires Int32(x) && 0 < L <= TwoTo31
    ensures x == -TwoTo31 ==> TruncDiv(NumpyAbs(x) * L, TwoTo31) == -(L as int)
    ensures x != -TwoTo31 ==> 0 <= TruncDiv(NumpyAbs(x) * L, TwoTo31) < L
    ensures x != -TwoTo31 ==> TruncDiv(NumpyAbs(x) * L, TwoTo31) == (if x < 0 then -x else x) * L / TwoTo31
  {
    if x == -TwoTo31 {
      assert NumpyAbs(x) == -TwoTo31;
      assert NumpyAbs(x) * L == -(TwoTo31 * L);
      assert (TwoTo31 * L) / TwoTo31 == L;
    } else {
      var a := if x < 0 then -x else x;
      assert NumpyAbs(x) == a;
      assert 0 <= a < TwoTo31;
      assert a * L <= (TwoTo31 - 1) * L;
      assert a * L < TwoTo31 * L;
      assert 0 <= a * L;
    }
  }

  /** Python's reading of an index into a sequence of length `n`. */
  function PyIndex(k: int, n: nat): int {
    if k < 0 then k + n else k
  }

  /** The drawn index lies in `[0, L)`, except for the state `-2^31`, whose
      index is `-L`, which Python's negative indexing reads as site 0. */
  lemma RawSiteRange(x: int, L: nat)
    requires Int32(x) && 0 < L <= TwoTo31
    ensures -(L as int) <= RawSite(x, L) < L
    ensures RawSite(x, L) < 0 <==> x == -TwoTo31
    ensures x == -TwoTo31 ==> RawSite(x, L) == -(L as int)
    ensures x != -TwoTo31 ==> RawSite(x, L) == (if x < 0 then -x else x) * L / TwoTo31
    ensures 0 <= PyIndex(RawSite(x, L), L) < L
  {
    ScaledAbsBounds(x, L);
  }

  /** `_sortear_sitio` of the relaxation variant on the drawn index `s`:
      start at `s`, move right if the right neighbour is strictly lower,
      then move left if the left neighbour is strictly lower than the
      current choice. */
  function RelaxChoice(h: seq<nat>, s: int): (m: int)
    requires -|h| <= s < |h|
    ensures -|h| <= m < |h|
  {
    var afterRight := if s < |h| - 1 && h[PyIndex(s + 1, |h|)] < h[PyIndex(s, |h|)] then s + 1 else s;
    if s > 0 && h[s - 1] < h[PyIndex(afterRight, |h|)] then s - 1 else afterRight
  }

  /** The chosen site is within one of the drawn site and is lowest among
      the sites of `{i - 1, i, i + 1}` that exist. */
  lemma RelaxChoiceIsLocalMinimum(h: seq<nat>, i: nat)
    requires i < |h|
    ensures var c := RelaxChoice(h, i);
      0 <= c < |h| && i - 1 <= c <= i + 1 &&
      forall j :: 0 <= j < |h| && i - 1 <= j <= i + 1 ==> h[c] <= h[j]
  {
  }

  /** Which of the three sites wins: the drawn site unless a neighbour is
      strictly lower; the right neighbour is compared first, so the left one
      wins only when strictly below it, and a tie goes to the right. */
  lemma RelaxChoiceTieBreak(h: seq<nat>, i: nat)
    requires i < |h|
    ensures var c := RelaxChoice(h, i);
      (c == i <==> (i + 1 < |h| ==> h[i] <= h[i + 1]) && (i > 0 ==> h[i] <= h[i - 1])) &&
      (c == i + 1 <==> i + 1 < |h| && h[i + 1] < h[i] && !(i > 0 && h[i - 1] < h[i + 1])) &&
      (c == i - 1 <==> i > 0 && h[i - 1] < h[i] && (i + 1 < |h| ==> h[i - 1] < h[i + 1]))
  {
  }

  /** Heights `[2, 0, 1]` drawn at 0 go to site 1; `[1, 2, 1]` drawn at 1
      tie between the neighbours and go right. */
  lemma RelaxChoiceExamples()
    ensures RelaxChoice([2, 0, 1], 0) == 1
    ensures RelaxChoice([1, 2, 1], 1) == 2
    ensures RelaxChoice([0, 2, 1], 1) == 0
  {
  }

  /** `max(candidatos)`: the largest of the heights at the sites of
      `{s - 1, s, s + 1}` that exist. */
  function BallisticTop(h: seq<nat>, s: int): (top: nat)
    requires -|h| <= s < |h|
    ensures h[PyIndex(s, |h|)] <= top
    ensures s > 0 ==> h[s - 1] <= top
    ensures s < |h| - 1 ==> h[PyIndex(s + 1, |h|)] <= top
    ensures top == h[PyIndex(s, |h|)] || (s > 0 && top == h[s - 1]) ||
            (s < |h| - 1 && top == h[PyIndex(s + 1, |h|)])
  {
    var mid := h[PyIndex(s, |h|)];
    var withLeft := if s > 0 then Max(h[s - 1], mid) else mid;
    if s < |h| - 1 then Max(withLeft, h[PyIndex(s + 1, |h|)]) else withLeft
  }

  /** On a site index, the ballistic maximum is one of the heights of the
      existing sites of `{i - 1, i, i + 1}` and bounds all of them. */
  lemma BallisticTopIsMaximum(h: seq<nat>, i: nat)
    requires i < |h|
    ensures var top := BallisticTop(h, i);
      (forall j :: 0 <= j < |h| && i - 1 <= j <= i + 1 ==> h[j] <= top) &&
      exists j :: 0 <= j < |h| && i - 1 <= j <= i + 1 && h[j] == top
  {
    var top := BallisticTop(h, i);
    if top == h[i] {
    } else if i > 0 && top == h[i - 1] {
    } else {
      assert top == h[i + 1];
    }
  }

  /** The drawn index `-L` (from state `-2^31`) chooses exactly what site 0
      would choose, under both neighbour rules. */
  lemma NegativeIndexActsAsSiteZero(h: seq<nat>)
    requires |h| > 0
    ensures PyIndex(RelaxChoice(h, -|h|), |h|) == RelaxChoice(h, 0)
    ensures BallisticTop(h, -|h|) == BallisticTop(h, 0)
  {
  }

  /** `altura_sitios[t:, i] = v` (a row without a column `i` stays as it
      is; the run has none). */
  function SetColumn(table: seq<seq<nat>>, t: nat, i: nat, v: nat): (r: seq<seq<nat>>)
    ensures |r| == |table|
  {
    seq(|table|, k requires 0 <= k < |table| => if t <= k && i < |table[k]| then table[k][i := v] else table[k])
  }

  function Zeros(L: nat): seq<bool> {
    seq(L, _ => false)
  }

  function ZeroRow(L: nat): seq<nat> {
    seq(L, _ => 0)
  }

  predicate Rows(iface: seq<seq<bool>>, L: nat) {
    forall k :: 0 <= k < |iface| ==> |iface[k]| == L
  }

  /** `interface[level][col] = True`, after appending a zero row when
      `level` reaches the interface's length. A cell the grown interface
      does not have (which a run never asks for) is left alone. */
  function Mark(iface: seq<seq<bool>>, level: nat, col: nat, L: nat): (r: seq<seq<bool>>)
    ensures |r| == if level >= |iface| then |iface| + 1 else |iface|
  {
    var grown := if level >= |iface| then iface + [Zeros(L)] else iface;
    if level < |grown| && col < |grown[level]| then grown[level := grown[level][col := true]] else grown
  }

  /** Within the interface plus one row, marking sets exactly the one cell
      and keeps every row `L` wide. */
  lemma MarkCells(iface: seq<seq<bool>>, level: nat, col: nat, L: nat)
    requires level <= |iface| && col < L && Rows(iface, L)
    ensures var r := Mark(iface, level, col, L);
      Rows(r, L) &&
      forall k, c :: 0 <= k < |r| && 0 <= c < L ==>
        r[k][c] == ((k == level && c == col) || (k < |iface| && iface[k][c]))
  {
  }

  /** The ballistic mark as written: `interface[altura_particula - 1]`. */
  function BallisticMarkAsWritten(iface: seq<seq<bool>>, top: nat, col: nat, L: nat): (r: seq<seq<bool>>)
    requires 0 < |iface| && top <= |iface| && col < L && Rows(iface, L)
    ensures |r| == if top == |iface| then |iface| + 1 else |iface|
  {
    var grown := if top >= |iface| then iface + [Zeros(L)] else iface;
    var level := PyIndex(top - 1, |grown|);
    grown[level := grown[level][col := true]]
  }

  /** The column's new height is `top + 1`, so its top cell is at level
      `top`; the mark as written touches level `top - 1` (or the last row
      when `top` is 0) and leaves the top cell as it was. */
  lemma BallisticMarkAsWrittenMissesTop(iface: seq<seq<bool>>, top: nat, col: nat, L: nat)
    requires 0 < |iface| && top <= |iface| && col < L && Rows(iface, L)
    requires top > 0
    ensures var r := BallisticMarkAsWritten(iface, top, col, L);
      top < |r| && r[top][col] == (top < |iface| && iface[top][col])
    ensures Mark(iface, top, col, L)[top][col]
  {
    MarkCells(iface, top, col, L);
  }

  /** One site, one particle already down (height 1, level 0 marked): the
      next ballistic particle makes the height 2 but, as written, leaves
      level 1 empty. */
  lemma BallisticMarkCounterexample()
    ensures BallisticMarkAsWritten([[true]], 1, 0, 1) == [[true], [false]]
    ensures Mark([[true]], 1, 0, 1) == [[true], [true]]
  {
    var one: seq<seq<bool>> := [[true]];
    assert Zeros(1) == [false];
    var grown := one + [Zeros(1)];
    assert grown == [[true], [false]];
    assert PyIndex(1 - 1, 2) == 0;
    assert grown[0][0 := true] == [true];
    assert grown[1][0 := true] == [true];
    assert grown[0 := [true]] == [[true], [false]];
    assert grown[1 := [true]] == [[true], [true]];
  }

  predicate Shape(s: State, L: nat) {
    forall r :: 0 <= r < |s.table| ==> |s.table[r]| == L
  }

  /** The site the particle ends at. */
  function DepositSite(v: Variant, row: seq<nat>, raw: int): (c: nat)
    requires -|row| <= raw < |row|
    ensures c < |row|
  {
    if v == Relaxation then PyIndex(RelaxChoice(row, raw), |row|) else PyIndex(raw, |row|)
  }

  /** The level of the cell the particle fills: the site's own height for
      the random variants, the neighbourhood's maximum for ballistic. */
  function DepositLevel(v: Variant, row: seq<nat>, raw: int): (level: nat)
    requires -|row| <= raw < |row|
    ensures level >= row[DepositSite(v, row, raw)]
  {
    if v == Ballistic then BallisticTop(row, raw) else row[DepositSite(v, row, raw)]
  }

  /** The level is no lower than the chosen site and is one of the row's
      heights. */
  lemma DepositLevelBounds(v: Variant, row: seq<nat>, raw: int)
    requires -|row| <= raw < |row|
    ensures DepositLevel(v, row, raw) >= row[DepositSite(v, row, raw)]
    ensures exists j :: 0 <= j < |row| && DepositLevel(v, row, raw) == row[j]
  {
    if v == Ballistic {
      NegativeIndexActsAsSiteZero(row);
      BallisticTopIsMaximum(row, DepositSite(v, row, raw));
    }
  }

  /** Whether step `t` of an `L`-site run can draw a site in `s`: the row
      exists and has `L` sites. It holds in every state a run reaches. */
  predicate CanDeposit(L: nat, s: State, t: nat) {
    0 < L <= TwoTo31 && t < |s.table| && |s.table[t]| == L
  }

  /** `_depositar_particula(t)`: draw, choose the site, raise rows `t..` of
      its column to `level + 1`, and mark the filled cell. A state without
      row `t` of `L` sites, which no run reaches, is returned as it is. */
  function Deposit(v: Variant, L: nat, s: State, t: nat): (s': State)
    ensures |s'.table| == |s.table| && s'.snaps == s.snaps
    ensures |s.iface| <= |s'.iface| <= |s.iface| + 1
  {
    if CanDeposit(L, s, t) then
      var x := Step(s.xn);
      var row := s.table[t];
      var raw := RawSite(x, L);
      var c := DepositSite(v, row, raw);
      var level := DepositLevel(v, row, raw);
      State(SetColumn(s.table, t, c, level + 1), Mark(s.iface, level, c, L), s.snaps, x)
    else
      s
  }

  /** The last row of a nonempty sequence, `xs[-1]`. */
  function Last<T>(xs: seq<T>): T
    requires 0 < |xs|
  {
    xs[|xs| - 1]
  }

  /** `instantaneos[t] = interface[-1]`, at the start of step `t`. */
  function Snap(s: State, t: nat): (s': State)
    requires 0 < |s.iface|
    ensures s'.table == s.table && s'.iface == s.iface && s'.xn == s.xn
  {
    s.(snaps := s.snaps[t := Last(s.iface)])
  }

  /** The first `n` deposits of step `t`. */
  function Particles(v: Variant, L: nat, s: State, t: nat, n: nat): (s': State)
    ensures |s'.table| == |s.table| && s'.snaps == s.snaps && |s.iface| <= |s'.iface|
  {
    if n == 0 then s else Deposit(v, L, Particles(v, L, s, t, n - 1), t)
  }

  /** The first `t` steps of `simular`: step `k` records the interface's
      last row, then deposits `L` particles. */
  function RunSteps(v: Variant, L: nat, s: State, t: nat): (s': State)
    requires 0 < |s.iface|
    ensures |s'.table| == |s.table| && |s.iface| <= |s'.iface|
  {
    if t == 0 then s
    else
      var p := RunSteps(v, L, s, t - 1);
      Particles(v, L, Snap(p, t - 1), t - 1, L)
  }

  /** The state `simular` starts from: a zero table and one zero interface
      row. */
  function Initial(L: nat, T: nat, snaps: map<nat, seq<bool>>, xn: int): (s: State)
    ensures Shape(s, L) && |s.table| == T && |s.iface| == 1
  {
    State(seq(T, _ => ZeroRow(L)), [Zeros(L)], snaps, xn)
  }

  /** The whole of `simular`. */
  function Run(v: Variant, L: nat, T: nat, snaps: map<nat, seq<bool>>, xn: int): (s: State)
    ensures |s.table| == T && 0 < |s.iface|
  {
    RunSteps(v, L, Initial(L, T, snaps, xn), T)
  }
}
