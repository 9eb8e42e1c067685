/** The invariant of `simular`'s loops, over the values of module Growth:
    the shape of the height table and of the interface, the agreement of
    the rows not yet finished, the ordering of the finished rows, the
    particle count and what the interface marks. */
module Invariants {

  import opened Int32Rng
  import opened Growth
  import opened Statistics

  /** The interface has at least one row, all of width `L`, and every height
      in rows `t..` is at most the number of rows: the mark at a site's
      height needs at most one new row. */
  predicate Fits(s: State, L: nat, t: nat) {
    0 < |s.iface| && Rows(s.iface, L) &&
    forall r, c :: t <= r < |s.table| && 0 <= c < |s.table[r]| ==> s.table[r][c] <= |s.iface|
  }

  /** What the next deposit of step `t` needs: an interface of rows `L`
      wide, and no height in row `t` above its number of rows. */
  predicate Room(s: State, L: nat, t: nat)
    requires t < |s.table|
  {
    0 < |s.iface| && Rows(s.iface, L) &&
    forall c :: 0 <= c < |s.table[t]| ==> s.table[t][c] <= |s.iface|
  }

  /** Rows `t..` of the table all equal row `t`. */
  predicate RowsAgreeFrom(table: seq<seq<nat>>, t: nat)
    requires t < |table|
  {
    forall r {:trigger table[r]} :: t <= r < |table| ==> table[r] == table[t]
  }

  /** Row `a` is nowhere above row `b`. */
  predicate Below(a: seq<nat>, b: seq<nat>) {
    forall c :: 0 <= c < |a| && c < |b| ==> a[c] <= b[c]
  }

  /** No height drops from one row to the next, among rows `0..t`. */
  predicate MonotoneUpTo(table: seq<seq<nat>>, t: nat) {
    forall r :: 0 <= r < t && r + 1 < |table| ==> Below(table[r], table[r + 1])
  }

  /** Every finished row `r` holds `L * (r + 1)` particles, and row `t`
      holds `L * t + l` after `l` deposits of step `t`. */
  predicate CountedSums(table: seq<seq<nat>>, L: nat, t: nat, l: nat)
    requires t < |table|
  {
    (forall r :: 0 <= r < t ==> Sum(table[r]) == L * (r + 1)) && Sum(table[t]) == L * t + l
  }

  /** Marks lie below each column's top, and each nonempty column's top
      cell is marked. */
  predicate TopsMarked(s: State, t: nat)
    requires t < |s.table|
  {
    (forall k, c :: 0 <= k < |s.iface| && 0 <= c < |s.iface[k]| && c < |s.table[t]| && s.iface[k][c] ==>
       k < s.table[t][c]) &&
    (forall c :: 0 <= c < |s.table[t]| && s.table[t][c] > 0 ==>
       s.table[t][c] - 1 < |s.iface| && c < |s.iface[s.table[t][c] - 1]| && s.iface[s.table[t][c] - 1][c])
  }

  /** Each column is marked at exactly the levels below its height. */
  predicate ColumnsFilled(s: State, t: nat)
    requires t < |s.table|
  {
    forall k, c :: 0 <= k < |s.iface| && 0 <= c < |s.iface[k]| && c < |s.table[t]| ==>
      (s.iface[k][c] <==> k < s.table[t][c])
  }

  /** The invariant of step `t` after `l` of its deposits. */
  predicate Inv(v: Variant, L: nat, s: State, t: nat, l: nat) {
    L <= TwoTo31 && Shape(s, L) && t < |s.table| && Fits(s, L, t) &&
    RowsAgreeFrom(s.table, t) && MonotoneUpTo(s.table, t) && TopsMarked(s, t) &&
    (v != Ballistic ==> CountedSums(s.table, L, t, l) && ColumnsFilled(s, t))
  }
}
