# Surface growth by particle deposition, in Dafny

This project models the simulation engine of a one-dimensional surface
growth simulator. A lattice of `L` sites receives `L` particles per time
step for `tempo_maximo` steps. Three variants decide where each particle
lands:

- random deposition (`DeposicaoAleatoria`): the particle lands on the drawn
  site;
- random deposition with surface relaxation
  (`DeposicaoAleatoriaRelaxacaoSuperficial`): the particle moves to a
  strictly lower neighbour, with the right neighbour compared first;
- ballistic deposition (`DeposicaoBalistica`): the drawn site rises to one
  above the highest of itself and its existing neighbours.

The engine keeps a `tempo_maximo x L` height table (`altura_sitios`). A
deposit during step `t` overwrites rows `t..` of the chosen column, so row
`t` ends up holding the heights after step `t`. It also keeps an interface
(one boolean row per height level) and a copy of the interface's last row
at the start of every step (`instantaneos`). Sites are drawn from
`RNG_URAND`, a linear congruential generator on a signed 32-bit state. Mean
height, roughness (the population variance of a row) and central moments
are computed over the table.

Modules:

- `Wrap` (`wrap.dfy`): the `Option` type, for arguments the source may
  leave as `None`.
- `Int32Rng` (`rng.dfy`): the int32 wrap, the step `x <- int32(A*x + B)`,
  its unsigned recurrence, its n-fold iterate and skip-ahead closed form.
  Also the class `Urand`, whose method `Next` reassigns the state field.
- `Statistics` (`statistics.dfy`): sum, mean, roughness and central
  moments of a row, evaluated exactly over the reals.
- `Growth` (`growth.dfy`): the engine as functions on values. It covers
  the site draw, the relaxation choice, the ballistic maximum, one
  deposit, one step and a whole run.
- `Invariants`, `StepProperties`, `RunProperties`: the loop invariant of
  `simular`, and what one deposit, one step and a whole run guarantee.
- `Simulation` (`simulation.dfy`): the class `Deposition`. It has the
  height table as a two-dimensional array written in place, and the
  interface and copies as fields the methods reassign. Its methods are
  proved to compute the functions of `Growth`, so every lemma about
  `Growth.Run` speaks about the object after `Simulate`.

Points worth noting about the code, all of which the model keeps:

- The height table has one row per step. Row `t` holds the heights after
  step `t`.
- The ballistic height is `1 + max` of the existing heights among
  `i - 1, i, i + 1`.
- Deposits within a step are sequential for every variant, including pure
  random deposition. Each deposit sees the heights written by the earlier
  ones.
- At the lattice edges a missing neighbour is simply not a candidate.
- The site index is `int32(|x| * L / 2^31)` of the generator's new state.
  The state `-2^31` has `abs(-2^31) == -2^31` in int32 arithmetic, so its
  index is `-L`, which Python's negative indexing reads as site 0. The
  model keeps this index and proves it behaves as site 0 under every rule
  (`Growth.NegativeIndexActsAsSiteZero`).

## Model

| member | source | states |
|---|---|---|
| `Int32Rng.Wrap32` | rng.py:19 | the wrapped value is an int32, congruent to the input modulo 2^32, and equal to it when it is already an int32 |
| `Int32Rng.StepIsSingleWrap` | rng.py:23 | the int32 product then the int32 sum with `B` equal one wrap of the exact `A * x + B` |
| `Int32Rng.UnsignedRecurrence` | rng.py:16-23 | read as unsigned residues, the states follow `x' = (843314861 * x + 453816693) mod 2^32` |
| `Int32Rng.Step` | rng.py:23 | every state after a call lies in `[-2^31, 2^31)` |
| `Int32Rng.Iterate` | rng.py:21-24 | every state reached by at least one call is an int32 |
| `Int32Rng.IterateAdd` | rng.py:21-24 | `n` calls after `m` calls leave the same state as `m + n` calls |
| `Int32Rng.Outputs` | rng.py:21-24 | the first `n` returned values are the iterates `1..n` of the start state |
| `Int32Rng.OutputsSkip` | rng.py:21-24 | skipping `m` values then drawing `n` gives the last `n` of `m + n` draws |
| `Int32Rng.ClosedForm` | rng.py:16-24 | the state after `n` calls is `A^n x + B (1 + A + ... + A^(n-1)) mod 2^32`, the skip-ahead formula |
| `Int32Rng.Urand.constructor` | rng.py:18-19 | the state is the seed wrapped to int32, and no call has happened yet |
| `Int32Rng.Urand.Next` | rng.py:21-24 | the state becomes the int32 step of the old state and is returned; the arguments play no part; after `n` calls the state is the `n`-th iterate of the seed, so equal seeds give equal sequences |
| `Growth.RawSiteRange` | deposicao.py:116 | the drawn index lies in `[0, L)` and equals `abs(x) * L div 2^31` for every int32 state other than `-2^31`, whose index is `-L`, read as site 0 |
| `Growth.RawSite` | deposicao.py:116 | on an int32 state and `0 < L <= 2^31`, the index lies in `[-L, L)`, the range Python's indexing accepts for a row of `L` sites |
| `Growth.RelaxChoice` | deposicao.py:134-142 | the relaxation choice stays within the indices Python accepts for the row |
| `Growth.RelaxChoiceIsLocalMinimum` | deposicao.py:134-142 | the chosen site is in `[0, L)`, within one of the drawn site, and no higher than any existing site of `{i-1, i, i+1}` |
| `Growth.RelaxChoiceTieBreak` | deposicao.py:135-141 | the drawn site is kept unless a neighbour is strictly lower; the right wins unless the left is strictly below it; the left wins only when strictly below both the drawn site and the right |
| `Growth.RelaxChoiceExamples` | deposicao.py:134-142 | heights `[2,0,1]` drawn at 0 go to site 1; a left/right tie goes right |
| `Growth.BallisticTop` | deposicao.py:153-160 | `max(candidatos)` is at least the height of the drawn site and of each existing neighbour, and equals one of them |
| `Growth.BallisticTopIsMaximum` | deposicao.py:153-160 | the ballistic level is one of the neighbourhood's heights and bounds all of them, so the new height exceeds each existing neighbour and the site's own old height |
| `Growth.NegativeIndexActsAsSiteZero` | deposicao.py:116-120 | the index `-L` chooses the same site and level as site 0 under the relaxation and ballistic rules |
| `Growth.SetColumn` | deposicao.py:127 | the slice assignment keeps the number of rows |
| `Growth.Mark` | deposicao.py:121-123 | marking grows the interface by one row exactly when the level reaches its length |
| `Growth.MarkCells` | deposicao.py:121-123 | within one row past the interface, marking sets exactly the one cell and keeps every row `L` wide |
| `Growth.BallisticMarkAsWritten` | deposicao.py:161-163 | the ballistic mark as written grows the interface by one row exactly when the level reaches its length |
| `Growth.BallisticMarkAsWrittenMissesTop` | deposicao.py:161-167 | as written, the ballistic mark leaves the new top cell (level `max`) as it was, while the corrected mark sets it |
| `Growth.BallisticMarkCounterexample` | deposicao.py:161-163 | on one site at height 1, the as-written mark leaves level 1 empty while the height becomes 2 |
| `Growth.DepositSite` | deposicao.py:119 | the site a particle ends at is a valid site |
| `Growth.DepositLevel` | deposicao.py:160 | the level a particle fills is never below the chosen site's own height |
| `Growth.DepositLevelBounds` | deposicao.py:120 | the level a particle fills is one of the row's heights and no lower than the chosen site's height |
| `Growth.Deposit` | deposicao.py:118-127 | a deposit keeps the number of rows and the copies, and grows the interface by at most one row |
| `Growth.Particles` | deposicao.py:39-40 | the deposits of a step keep the number of rows and the copies, and never shrink the interface |
| `Growth.Snap` | deposicao.py:38 | `instantaneos[t]` becomes the interface's last row; the other keys, the table, the interface and the generator are unchanged |
| `Growth.RunSteps` | deposicao.py:35-40 | the steps of a run keep the number of rows and never shrink the interface |
| `Growth.Initial` | deposicao.py:22 | the start of a run has `T` rows of `L` sites and an interface of one row |
| `Growth.Run` | deposicao.py:33-43 | the finished run keeps `T` rows and a nonempty interface; its other properties are the `RunProperties` lemmas below |
| `StepProperties.DepositEffect` | deposicao.py:118-127 | one deposit sets rows `t..` of the chosen column to `level + 1` and leaves every other cell, including all rows before `t`, unchanged; the random variants use the drawn site's height, relaxation the relaxed site's, ballistic the neighbourhood maximum; the interface gets the cell (level, site) marked |
| `StepProperties.DepositKeepsInv` | deposicao.py:118-127 | each deposit keeps the loop invariant: rows `t..` agree, earlier rows are ordered, heights fit the interface, tops are marked, and the random variants count one more particle |
| `StepProperties.StepKeepsInv` | deposicao.py:35-40 | finishing a step with its `L` deposits starts the next one in the invariant |
| `StepProperties.ParticlesKeepEarlierRows` | deposicao.py:127 | the deposits of step `t` never write a row before `t` |
| `StepProperties.ParticlesDraws` | deposicao.py:39-40 | `n` deposits call the generator exactly `n` times |
| `RunProperties.RunHeightsNonDecreasing` | deposicao.py:35-40 | after the run, no site's height drops from one row to the next |
| `RunProperties.RunRowsOrdered` | deposicao.py:24-28 | any row is nowhere above any later row, in particular the last row that `altura_sitio` reads by default |
| `RunProperties.RunRowSums` | deposicao.py:39-40 | for random and relaxation deposition, row `r` of the finished table sums to `L * (r + 1)` |
| `RunProperties.RunMeanHeight` | deposicao.py:70-72 | for random and relaxation deposition, `altura_media(r)` is `r + 1` |
| `RunProperties.RunSingleSite` | deposicao.py:115-127 | on one site, random and relaxation deposition reach height `r + 1` after step `r` |
| `RunProperties.RunInterface` | deposicao.py:121-123 | after the run every height fits the interface, marks lie below the column tops, each top cell is marked, and for the random variants each column is marked at exactly the levels below its height |
| `RunProperties.RunFits` | deposicao.py:121-123 | before each of the `L` deposits of any step, the interface has `L`-wide rows and no height of row `t` exceeds its number of rows, so the mark is always in range after at most one append |
| `RunProperties.RowFrozenAfterStep` | deposicao.py:127 | row `r` is final once step `r` is over |
| `RunProperties.SnapshotKeys` | deposicao.py:38 | after `t` steps the copies hold a key for every step so far, and the keys they had before |
| `RunProperties.SnapshotsRecorded` | deposicao.py:38 | the copy for step `k` is the interface's last row as it was when step `k` began |
| `RunProperties.DepositIgnoresInterface` | deposicao.py:118-127 | the heights and the generator state after a deposit depend only on the heights and the generator state before it, not on the interface |
| `RunProperties.ParticlesIgnoreInterface` | deposicao.py:39-40 | the same holds for the deposits of a step |
| `RunProperties.HeightsIgnoreInterface` | deposicao.py:35-40 | the same holds for any number of steps: how the interface is marked never changes the height table or the generator |
| `RunProperties.RunDraws` | deposicao.py:35-40 | a run leaves the generator `T * L` calls past its start state |
| `Statistics.Mean` | deposicao.py:72 | the mean times the number of sites is the sum of the row |
| `Statistics.MeanFromSum` | deposicao.py:72 | a row summing to `L * k` has mean `k` |
| `Statistics.Roughness` | deposicao.py:77-80 | the roughness is never negative |
| `Statistics.RoughnessZeroIffFlat` | deposicao.py:76-88 | the roughness is zero exactly when all heights of the row are equal |
| `Statistics.MomentTwoIsRoughness` | deposicao.py:90-94 | the second central moment equals the roughness |
| `Statistics.MomentOneIsZero` | deposicao.py:90-94 | the first central moment is zero |
| `Statistics.Moment` | deposicao.py:90-94 | the moment of order zero is one and every even-order moment is non-negative |
| `Statistics.FlatMoments` | deposicao.py:90-94 | every central moment from order one on vanishes on a flat row |
| `Statistics.SumUpdate` | deposicao.py:127 | overwriting one site changes the row sum by the difference |
| `Statistics.SumConstant` | deposicao.py:72 | a row whose sites all hold `c` sums to `L * c` |
| `Simulation.Deposition.constructor` | deposicao.py:15-22 | a fresh zero table of `T` rows and `L` sites, an empty interface, no copies, and the generator passed in |
| `Simulation.Deposition.HeightAt` | deposicao.py:24-28 | the height of site `i` in row `t`, or in the last row when `t` is absent |
| `Simulation.Deposition.DrawSite` | deposicao.py:115-116 | one generator call; the index lies in `[-L, L)`; for relaxation it is the sequential right-then-left choice on row `t` |
| `Simulation.Deposition.DrawCell` | deposicao.py:150-160 | one generator call; the site and the level of the cell to fill are those `Growth.Deposit` uses for the variant (the neighbourhood maximum for ballistic, the site's height otherwise) |
| `Simulation.Deposition.MarkCell` | deposicao.py:121-123 | the interface after the mark is `Growth.Mark` of the old one |
| `Simulation.Deposition.SetColumnFrom` | deposicao.py:127 | rows `t..` of column `i` of the array become `v`, all other cells stay |
| `Simulation.Deposition.DepositParticle` | deposicao.py:118-127 | the object's new state is `Growth.Deposit` of its old state |
| `Simulation.Deposition.RunStep` | deposicao.py:38-40 | one pass of the outer loop takes the copy and performs `L` deposits |
| `Simulation.Deposition.Simulate` | deposicao.py:33-43 | from a zero table, the object ends in `Growth.Run`, and the generator is `T * L` calls further on |
| `Simulation.Deposition.BuildInterface` | deposicao.py:45-68 | both private loops compute the same run as `simular` |
| `Simulation.Deposition.MeanHeight` | deposicao.py:70-72 | the mean times `L` is the row sum |
| `Simulation.Deposition.MeanHeights` | deposicao.py:73-74 | one mean per row, in row order |
| `Simulation.Deposition.RoughnessAt` | deposicao.py:76-86 | the roughness is never negative and is zero exactly on a flat row |
| `Simulation.Deposition.Roughnesses` | deposicao.py:87-88 | one roughness per row, in row order, with the same properties |
| `Simulation.Deposition.MomentAt` | deposicao.py:90-94 | the first central moment is zero and the second is the roughness |

## Findings

| source | as written | input that shows it | evidently intended | confidence | as-written member | corrected member |
|---|---|---|---|---|---|---|
| deposicao.py:163 | the ballistic rule marks `interface[altura_particula - 1][i]`, one level below the cell the particle fills (and the last row when the maximum is 0) | one site with height 1 and level 0 marked: the next particle raises the height to 2 but leaves level 1 unmarked | two readings: (a) mark `interface[altura_particula][i]`, the new top cell, as the random rule does, which the model follows; (b) the usual ballistic rule, new height `max(h[i] + 1, h[i-1], h[i+1])`, under which the mark at line 163 is the filled cell when a neighbour is strictly highest and the `+ 1` at line 167 is the slip (when the drawn site itself is highest, line 163 misses the filled cell under both readings) | medium, not executed | `Growth.BallisticMarkCounterexample` | `RunProperties.RunInterface` |

The rest of the model uses the corrected mark (`Growth.Mark`) for all three
variants. `Growth.BallisticMarkAsWritten` keeps the code as written, and
`Growth.BallisticMarkAsWrittenMissesTop` shows what it misses. The height
table and the generator do not depend on the mark
(`RunProperties.HeightsIgnoreInterface`), so only the interface and the
copies of a ballistic run differ from the code's.

## Left out

- `Growth.Deposit`, `Simulation.Deposition.DepositParticle` and
  `Simulation.Deposition.Simulate`: for ballistic deposition the interface
  and the `instantaneos` copies follow the corrected mark (the filled cell
  at level `altura_particula`), not the mark at `altura_particula - 1` of
  deposicao.py:163. The as-written mark is `Growth.BallisticMarkAsWritten`;
  the ballistic height table, mean heights, roughness and moments are
  those of the code, since heights never depend on the interface.
- `Int32Rng.Urand.constructor`: wraps every integer seed into int32. numpy
  instead raises `OverflowError` in `np.int32(xn)` for a seed outside the
  C `long` range, and recent numpy versions reject or warn on any seed
  outside int32. That error path is not modelled.

- Progress output of `simular` and `__construir_interface_com_detalhamento`
  is left out. It uses the float test `t % (tempo_maximo / 20)` and
  `print`, which are I/O, not logic. The `verbose` flag therefore has no
  counterpart.
- `__simular_com_detalhamento` (deposicao.py:30-31) has no right-hand side
  and no body. The model treats it as absent.
- `assimetria` and `curtose` are left out. They call `self.momento`, which
  does not exist, so they always fail, and they use fractional float
  powers.
- `__momento` with `t = None` is left out. It recurses without its `ordem`
  argument, so it always fails.
- `RNG_PCG` is left out. It wraps numpy's PCG64 generator, a foreign
  library.
- The unused `altura_interface` array of `__init__` is left out.
- The float product `abs(x) * (L / 2**31)` is modelled as exact integer
  arithmetic. This is exact for `L < 2^22`. Larger lattices may round.
- `Simulation.Deposition.constructor`: requires `L <= 2^31`, which keeps
  the drawn index an int32. Default argument values are not modelled.
- Heights are natural numbers. numpy's `uint32` wrap-around after 2^32
  particles on one site is not modelled.
- `Simulation.Deposition.Simulate`: requires the zero table of a fresh
  object. A second run restarts the interface at one row over a full
  table, and the mark can then index past it.
- `Simulation.Deposition.HeightAt`: takes `t` as a natural number.
  Python's negative row indices are not modelled.
- Statistics functions require `L > 0`. numpy returns NaN for the mean of
  an empty row.
- Interface rows are `seq<bool>` values, and `instantaneos` is a map of
  copies. numpy's in-place aliasing of array rows plays no part, since
  each copy is taken with `np.array(...)`.
