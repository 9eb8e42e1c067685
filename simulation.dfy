/** The class `Deposicao` and its three subclasses, as one class tagged by
    its `Variant`: the `tempo_maximo x L` height table is a two-dimensional
    array written in place, the interface and the per-step copies are
    fields the methods reassign, and the generator is the `Urand` object
    passed in. Every method is proved to compute the functions of module
    Growth, so the lemmas of modules StepProperties and RunProperties
    speak about the object. */
module Simulation {

  import opened Wrap
  import opened Int32Rng
  import opened Growth
  import opened Statistics
  import opened Invariants
  import opened StepProperties
  import opened RunProperties

  class Deposition {
    const L: nat
    const T: nat
    const variant: Variant
    const rng: Urand
    /** `altura_sitios`: row `t` holds the heights after step `t`. */
    const table: array2<nat>
    /** `interface`: one row of occupied cells per height level. */
    var iface: seq<seq<bool>>
    /** `instantaneos`: the interface's last row at the start of each step. */
    var snaps: map<nat, seq<bool>>

    /** The table has `T` rows of `L` sites. */
    ghost predicate Shaped() {
      table.Length0 == T && table.Length1 == L
    }

    ghost predicate Valid()
      reads rng
    {
      Shaped() && L <= TwoTo31 && rng.Valid()
    }

    /** Row `t` of the height table. */
    function Row(t: nat): (row: seq<nat>)
      reads table
      requires t < table.Length0
      ensures |row| == table.Length1
      ensures forall c :: 0 <= c < |row| ==> row[c] == table[t, c]
    {
      seq(table.Length1, c requires 0 <= c < table.Length1 reads table => table[t, c])
    }

    /** The whole height table, row by row. */
    ghost function Table(): (m: seq<seq<nat>>)
      reads table
      ensures |m| == table.Length0
      ensures forall r :: 0 <= r < |m| ==> m[r] == Row(r)
    {
      seq(table.Length0, r requires 0 <= r < table.Length0 reads table => Row(r))
    }

    /** The object's state as a value of module Growth. */
    ghost function Abs(): State
      reads this, table, rng
    {
      State(Table(), iface, snaps, rng.xn)
    }

    /** `Deposicao.__init__`: a zero table of `T` rows and `L` sites, an
        empty interface and no copies; the generator is the one passed in. */
    constructor (L: nat, rng: Urand, T: nat, variant: Variant)
      requires L <= TwoTo31 && rng.Valid()
      ensures Valid() && fresh(table)
      ensures this.L == L && this.T == T && this.rng == rng && this.variant == variant
      ensures iface == [] && snaps == map[]
      ensures forall r, c :: 0 <= r < T && 0 <= c < L ==> table[r, c] == 0
    {
      this.L := L;
      this.T := T;
      this.variant := variant;
      this.rng := rng;
      table := new nat[T, L]((_, _) => 0);
      iface := [];
      snaps := map[];
    }

    /** `altura_sitio(i, t)`: the height of site `i` after step `t`, or
        after the last step when `t` is absent. */
    function HeightAt(i: nat, t: Option<nat>): (h: nat)
      reads table
      requires Shaped() && i < L
      requires if t.Some? then t.value < T else 0 < T
      ensures h == Row(if t.Some? then t.value else T - 1)[i]
    {
      table[if t.Some? then t.value else T - 1, i]
    }

    /** `_sortear_sitio(t)`: one call of the generator, mapped to an index
        in `[-L, L)`; the relaxation variant then moves to a strictly
        lower neighbour in row `t`, comparing the right one first. */
    method DrawSite(t: nat) returns (site: int)
      requires Valid() && 0 < L && t < T
      modifies rng
      ensures Valid() && rng.xn == Step(old(rng.xn)) && rng.calls == old(rng.calls) + 1
      ensures -(L as int) <= site < L && -(L as int) <= RawSite(rng.xn, L) < L
      ensures site == if variant == Relaxation then RelaxChoice(Row(t), RawSite(rng.xn, L)) else RawSite(rng.xn, L)
    {
      var x := rng.Next(TwoTo32, None, None);
      site := RawSite(x, L);
      if variant == Relaxation {
        ghost var h := Row(t);
        var drawn := site;
        var minimo := drawn;
        if drawn < L - 1 {
          if table[t, PyIndex(drawn + 1, L)] < table[t, PyIndex(minimo, L)] {
            minimo := drawn + 1;
          }
        }
        ghost var afterRight := minimo;
        assert afterRight == if drawn < L - 1 && h[PyIndex(drawn + 1, L)] < h[PyIndex(drawn, L)] then drawn + 1 else drawn;
        if drawn > 0 {
          if table[t, drawn - 1] < table[t, PyIndex(minimo, L)] {
            minimo := drawn - 1;
          }
        }
        assert minimo == if drawn > 0 && h[drawn - 1] < h[PyIndex(afterRight, L)] then drawn - 1 else afterRight;
        site := minimo;
      }
    }

    /** The slice assignment `altura_sitios[t:, i] = v`: rows `t..` of
        column `i` become `v`, every other cell stays. */
    method SetColumnFrom(t: nat, i: nat, v: nat)
      requires Shaped() && i < L
      modifies table
      ensures Table() == SetColumn(old(Table()), t, i, v)
    {
      var r := t;
      while r < T
        invariant t <= r || T <= t
        invariant forall k, c :: 0 <= k < T && 0 <= c < L ==>
          table[k, c] == if t <= k < r && c == i then v else old(table[k, c])
      {
        table[r, i] := v;
        r := r + 1;
      }
      ghost var expected := SetColumn(old(Table()), t, i, v);
      forall k | 0 <= k < T
        ensures Table()[k] == expected[k]
      {
        assert |Table()[k]| == |expected[k]| == L;
      }
    }

    /** `_depositar_particula(t)`: draw a site, take the level of the cell
        the particle fills (the site's height, or for the ballistic variant
        the highest of the existing sites `i - 1, i, i + 1`), mark that cell
        in the interface, growing it by a row when needed, and set rows
        `t..` of the site's column to one above that level. The invariant
        of step `t` guarantees every index is in range. */
    method DepositParticle(t: nat)
      requires Valid() && 0 < L && t < T && Room(Abs(), L, t)
      modifies this`iface, table, rng
      ensures Valid() && Abs() == Deposit(variant, L, old(Abs()), t)
    {
      ghost var before := Abs();
      var site, level := DrawCell(t);
      DepositLevelFits(variant, L, before, t, RawSite(rng.xn, L));
      MarkCell(level, site);
      SetColumnFrom(t, site, level + 1);
      assert |before.table[t]| == L;
      DepositUnfold(variant, L, before, t, site, level);
    }

    /** The site and the level of the cell the next particle fills:
        `indice_sitio` and `altura_particula` of `_depositar_particula`. */
    method DrawCell(t: nat) returns (site: nat, level: nat)
      requires Valid() && 0 < L && t < T
      modifies rng
      ensures Valid() && rng.xn == Step(old(rng.xn)) && rng.calls == old(rng.calls) + 1
      ensures -(L as int) <= RawSite(rng.xn, L) < L
      ensures site == DepositSite(variant, Row(t), RawSite(rng.xn, L))
      ensures level == DepositLevel(variant, Row(t), RawSite(rng.xn, L))
    {
      ghost var row := Row(t);
      var raw := DrawSite(t);
      ghost var drawn := RawSite(rng.xn, L);
      site := PyIndex(raw, L);
      level := table[t, site];
      if variant == Ballistic {
        if raw > 0 {
          level := Max(table[t, raw - 1], level);
        }
        if raw < L - 1 {
          level := Max(level, table[t, PyIndex(raw + 1, L)]);
        }
      }
      NegativeIndexActsAsSiteZero(row);
    }

    /** `interface[level][site] = 1`, after appending a zero row when
        `level` reaches the interface's length. */
    method MarkCell(level: nat, site: nat)
      requires level <= |iface| && site < L && Rows(iface, L)
      modifies this`iface
      ensures iface == Mark(old(iface), level, site, L)
    {
      if level >= |iface| {
        iface := iface + [Zeros(L)];
      }
      iface := iface[level := iface[level][site := true]];
    }

    /** One pass of the outer loop of `simular`: record the interface's
        last row under key `t`, then deposit `L` particles. Each deposit
        must find an interface its cell fits in, which a run from the zero
        table guarantees (lemma RunFits). */
    method RunStep(t: nat)
      requires Valid() && t < T && 0 < |iface|
      requires forall l :: 0 <= l < L ==> Room(Particles(variant, L, Snap(Abs(), t), t, l), L, t)
      modifies this`iface, this`snaps, table, rng
      ensures Valid() && Abs() == Particles(variant, L, Snap(old(Abs()), t), t, L)
    {
      snaps := snaps[t := iface[|iface| - 1]];
      ghost var stepStart := Abs();
      assert stepStart == Snap(old(Abs()), t);
      var l := 0;
      while l < L
        invariant 0 <= l <= L && Valid()
        invariant Abs() == Particles(variant, L, stepStart, t, l)
      {
        DepositParticle(t);
        l := l + 1;
      }
    }

    /** The loops of `simular` and `__construir_interface`: start the
        interface with one zero row; for each step `t` record the
        interface's last row under key `t`, then deposit `L` particles.
        The table must be the zero table of a fresh object (a second run
        over a full table can index past the new interface). */
    method Simulate() returns (iface': seq<seq<bool>>, snaps': map<nat, seq<bool>>)
      requires Valid()
      requires forall r, c :: 0 <= r < T && 0 <= c < L ==> table[r, c] == 0
      modifies this`iface, this`snaps, table, rng
      ensures Valid()
      ensures Abs() == Run(variant, L, T, old(snaps), old(rng.xn))
      ensures rng.xn == Iterate(old(rng.xn), T * L)
      ensures iface' == iface && snaps' == snaps
    {
      iface := [Zeros(L)];
      assert Abs() == Initial(L, T, old(snaps), old(rng.xn)) by {
        forall r | 0 <= r < T
          ensures Table()[r] == ZeroRow(L)
        {
        }
      }
      var t := 0;
      while t < T
        invariant 0 <= t <= T && Valid()
        invariant Abs() == RunSteps(variant, L, Initial(L, T, old(snaps), old(rng.xn)), t)
      {
        RunFits(variant, L, T, old(snaps), old(rng.xn), t);
        RunStep(t);
        t := t + 1;
      }
      RunDraws(variant, L, T, old(snaps), old(rng.xn));
      iface', snaps' := iface, snaps;
    }

    /** `construir_interface(processo_detalhado)`: both private versions
        run the loops of `simular`; they differ only in progress output. */
    method BuildInterface(detailed: bool) returns (iface': seq<seq<bool>>, snaps': map<nat, seq<bool>>)
      requires Valid()
      requires forall r, c :: 0 <= r < T && 0 <= c < L ==> table[r, c] == 0
      modifies this`iface, this`snaps, table, rng
      ensures Valid()
      ensures Abs() == Run(variant, L, T, old(snaps), old(rng.xn))
      ensures iface' == iface && snaps' == snaps
    {
      iface', snaps' := Simulate();
    }

    /** `altura_media(t)`: the mean of row `t`. */
    function MeanHeight(t: nat): (m: real)
      reads table
      requires Shaped() && 0 < L && t < T
      ensures m * (L as real) == Sum(Row(t)) as real
    {
      Mean(Row(t))
    }

    /** `altura_media()`: one mean per row, in row order. */
    function MeanHeights(): (ms: seq<real>)
      reads table
      requires Shaped() && 0 < L
      ensures |ms| == T
      ensures forall t :: 0 <= t < T ==> ms[t] * (L as real) == Sum(Row(t)) as real
    {
      seq(T, t requires 0 <= t < T reads table => MeanHeight(t))
    }

    /** `rugosidade(t)`: the population variance of row `t`; never
        negative, and zero exactly when every site of the row has the same
        height. */
    function RoughnessAt(t: nat): (w: real)
      reads table
      requires Shaped() && 0 < L && t < T
      ensures w >= 0.0
      ensures w == 0.0 <==> forall c :: 0 <= c < L ==> table[t, c] == table[t, 0]
    {
      RoughnessZeroIffFlat(Row(t));
      Roughness(Row(t))
    }

    /** `rugosidade()`: one roughness per row, in row order. */
    function Roughnesses(): (ws: seq<real>)
      reads table
      requires Shaped() && 0 < L
      ensures |ws| == T
      ensures forall t :: 0 <= t < T ==> ws[t] >= 0.0 && (ws[t] == 0.0 <==> forall c :: 0 <= c < L ==> table[t, c] == table[t, 0])
    {
      seq(T, t requires 0 <= t < T reads table => RoughnessAt(t))
    }

    /** `__momento(ordem, t)`: the central moment of row `t`; the first
        vanishes and the second is the roughness. */
    function MomentAt(order: nat, t: nat): (m: real)
      reads table
      requires Shaped() && 0 < L && t < T
      ensures order == 1 ==> m == 0.0
      ensures order == 2 ==> m == RoughnessAt(t)
    {
      MomentOneIsZero(Row(t));
      MomentTwoIsRoughness(Row(t));
      Moment(Row(t), order)
    }
  }
}
