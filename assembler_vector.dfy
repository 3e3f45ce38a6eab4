/**
 * Vector assembly, lifting of boundary values and `set_bc`
 * (cpp/dolfin/fem/Assembler.cpp: `assemble(Eigen::Ref, Form)`, `apply_bc`,
 * `set_bc`).
 *
 * A vector is an array of reals indexed by local dof.  Each cell supplies its
 * dof list and its element vector (for `apply_bc`, its test and trial dof
 * lists and its element matrix).
 */
module VectorAssembly {
  import opened BoundaryValues
  import opened MatrixAssembly

  /** One cell of a linear form: its dofs and its tabulated element vector. */
  datatype CellVector = CellVector(dofs: seq<nat>, values: seq<real>)

  predicate InRange(dofs: seq<nat>, size: nat) {
    forall i :: 0 <= i < |dofs| ==> dofs[i] < size
  }

  /** Every cell's element vector matches its dof list, and every dof indexes the vector. */
  predicate CellsFit(cells: seq<CellVector>, size: nat) {
    forall k :: 0 <= k < |cells| ==> |cells[k].values| == |cells[k].dofs| && InRange(cells[k].dofs, size)
  }

  /** `b` after `b[dofs[i]] += be[i]` for every position `i`, in order. */
  function ScatterAdd(b: seq<real>, dofs: seq<nat>, be: seq<real>): (r: seq<real>)
    requires |be| == |dofs| && InRange(dofs, |b|)
    ensures |r| == |b|
  {
    if |dofs| == 0 then b
    else
      var n := |dofs| - 1;
      var prev := ScatterAdd(b, dofs[..n], be[..n]);
      prev[dofs[n] := prev[dofs[n]] + be[n]]
  }

  /** The sum of the element entries whose dof is `k`. */
  function Contribution(dofs: seq<nat>, be: seq<real>, k: nat): real
    requires |be| == |dofs|
  {
    if |dofs| == 0 then 0.0
    else
      var n := |dofs| - 1;
      Contribution(dofs[..n], be[..n], k) + (if dofs[n] == k then be[n] else 0.0)
  }

  /** Scatter-adding leaves every entry at its old value plus the entries aimed at it. */
  lemma {:induction false} ScatterAddEntries(b: seq<real>, dofs: seq<nat>, be: seq<real>)
    requires |be| == |dofs| && InRange(dofs, |b|)
    ensures forall k :: 0 <= k < |b| ==> ScatterAdd(b, dofs, be)[k] == b[k] + Contribution(dofs, be, k)
  {
    if |dofs| > 0 {
      ScatterAddEntries(b, dofs[..|dofs| - 1], be[..|dofs| - 1]);
    }
  }

  /** A dof that no position holds receives nothing. */
  lemma {:induction false} ContributionElsewhere(dofs: seq<nat>, be: seq<real>, k: nat)
    requires |be| == |dofs| && k !in dofs
    ensures Contribution(dofs, be, k) == 0.0
  {
    if |dofs| > 0 {
      ContributionElsewhere(dofs[..|dofs| - 1], be[..|dofs| - 1], k);
    }
  }

  /** The vector after the cell loop of `assemble(b, L)`. */
  function AssembledVector(b: seq<real>, cells: seq<CellVector>): (r: seq<real>)
    requires CellsFit(cells, |b|)
    ensures |r| == |b|
  {
    if |cells| == 0 then b
    else
      var n := |cells| - 1;
      ScatterAdd(AssembledVector(b, cells[..n]), cells[n].dofs, cells[n].values)
  }

  /** The sum over all cells of the element entries whose dof is `k`. */
  function TotalContribution(cells: seq<CellVector>, k: nat): real
    requires forall c :: 0 <= c < |cells| ==> |cells[c].values| == |cells[c].dofs|
  {
    if |cells| == 0 then 0.0
    else
      var n := |cells| - 1;
      TotalContribution(cells[..n], k) + Contribution(cells[n].dofs, cells[n].values, k)
  }

  /** The cell loop: `b[dmap[i]] += be[i]` for every dof of every cell. */
  method AssembleVector(b: array<real>, cells: seq<CellVector>)
    requires CellsFit(cells, b.Length)
    modifies b
    ensures b[..] == AssembledVector(old(b[..]), cells)
  {
    ghost var start := b[..];
    for c := 0 to |cells|
      invariant b[..] == AssembledVector(start, cells[..c])
    {
      var dmap, be := cells[c].dofs, cells[c].values;
      ghost var before := b[..];
      for i := 0 to |dmap|
        invariant b[..] == ScatterAdd(before, dmap[..i], be[..i])
      {
        assert dmap[..i + 1][..i] == dmap[..i] && be[..i + 1][..i] == be[..i];
        b[dmap[i]] := b[dmap[i]] + be[i];
      }
      assert dmap[..|dmap|] == dmap && be[..|be|] == be;
      assert cells[..c + 1][..c] == cells[..c];
    }
    assert cells[..|cells|] == cells;
  }

  /**
   * After the cell loop every entry is its initial value plus the sum of the
   * element entries scattered to it; an entry no cell touches is unchanged.
   */
  lemma {:induction false} AssembledVectorEntries(b: seq<real>, cells: seq<CellVector>, k: nat)
    requires CellsFit(cells, |b|) && k < |b|
    ensures AssembledVector(b, cells)[k] == b[k] + TotalContribution(cells, k)
    ensures (forall c :: 0 <= c < |cells| ==> k !in cells[c].dofs) ==> AssembledVector(b, cells)[k] == b[k]
  {
    if |cells| > 0 {
      var n := |cells| - 1;
      assert CellsFit(cells[..n], |b|) by {
        forall c | 0 <= c < n ensures |cells[..n][c].values| == |cells[..n][c].dofs| && InRange(cells[..n][c].dofs, |b|) {
          assert cells[..n][c] == cells[c];
        }
      }
      AssembledVectorEntries(b, cells[..n], k);
      ScatterAddEntries(AssembledVector(b, cells[..n]), cells[n].dofs, cells[n].values);
      if forall c :: 0 <= c < |cells| ==> k !in cells[c].dofs {
        ContributionElsewhere(cells[n].dofs, cells[n].values, k);
        assert forall c :: 0 <= c < n ==> k !in cells[..n][c].dofs;
      }
    }
  }

  /** Some trial dof of the cell carries a boundary value. */
  predicate HasBc(dofs1: seq<nat>, bc: map<nat, real>) {
    exists j :: 0 <= j < |dofs1| && dofs1[j] in bc
  }

  /** The early-exit search of `apply_bc` for a constrained trial dof. */
  method HasBoundaryDof(dofs1: seq<nat>, bc: map<nat, real>) returns (hasBc: bool)
    ensures hasBc <==> HasBc(dofs1, bc)
  {
    hasBc := false;
    for i := 0 to |dofs1|
      invariant !hasBc
      invariant forall j :: 0 <= j < i ==> dofs1[j] !in bc
    {
      if dofs1[i] in bc {
        hasBc := true;
        break;
      }
    }
  }

  /** One entry of the lifting: `be[i] -= Ae[i][j] * g(dofs1[j])` over the constrained columns `j`. */
  function LiftedEntry(row: seq<real>, dofs1: seq<nat>, bc: map<nat, real>): real
    requires |row| == |dofs1|
  {
    if |row| == 0 then 0.0
    else
      var n := |row| - 1;
      LiftedEntry(row[..n], dofs1[..n], bc) - (if dofs1[n] in bc then row[n] * bc[dofs1[n]] else 0.0)
  }

  /** The element lifting vector: one lifted entry per row of the element matrix. */
  function Lifting(values: seq<seq<real>>, dofs1: seq<nat>, bc: map<nat, real>): (be: seq<real>)
    requires forall i :: 0 <= i < |values| ==> |values[i]| == |dofs1|
    ensures |be| == |values|
  {
    seq(|values|, i requires 0 <= i < |values| => LiftedEntry(values[i], dofs1, bc))
  }

  /** The boundary values seen by the cell's trial dofs, 0 at the free ones. */
  function CellBoundaryValues(dofs1: seq<nat>, bc: map<nat, real>): (g: seq<real>)
    ensures |g| == |dofs1|
  {
    seq(|dofs1|, j requires 0 <= j < |dofs1| => if dofs1[j] in bc then bc[dofs1[j]] else 0.0)
  }

  function Dot(row: seq<real>, g: seq<real>): real
    requires |row| == |g|
  {
    if |row| == 0 then 0.0 else Dot(row[..|row| - 1], g[..|row| - 1]) + row[|row| - 1] * g[|row| - 1]
  }

  /** A lifted entry is minus the element row applied to the cell's boundary values. */
  lemma {:induction false} LiftedEntryIsMinusRowTimesValues(row: seq<real>, dofs1: seq<nat>, bc: map<nat, real>)
    requires |row| == |dofs1|
    ensures LiftedEntry(row, dofs1, bc) == -Dot(row, CellBoundaryValues(dofs1, bc))
  {
    if |row| > 0 {
      var n := |row| - 1;
      LiftedEntryIsMinusRowTimesValues(row[..n], dofs1[..n], bc);
      assert CellBoundaryValues(dofs1, bc)[..n] == CellBoundaryValues(dofs1[..n], bc);
    }
  }

  /** Without a constrained trial dof every lifted entry is zero. */
  lemma {:induction false} LiftedEntryWithoutBc(row: seq<real>, dofs1: seq<nat>, bc: map<nat, real>)
    requires |row| == |dofs1| && !HasBc(dofs1, bc)
    ensures LiftedEntry(row, dofs1, bc) == 0.0
  {
    if |row| > 0 {
      var n := |row| - 1;
      assert !HasBc(dofs1[..n], bc) by {
        forall j | 0 <= j < n ensures dofs1[..n][j] !in bc {
          assert dofs1[..n][j] == dofs1[j];
        }
      }
      LiftedEntryWithoutBc(row[..n], dofs1[..n], bc);
    }
  }

  /**
   * The lifting loop: `be` starts at zero and, for each constrained trial dof
   * `j` in turn, loses column `j` of the element matrix times the boundary
   * value.
   */
  method ComputeLifting(values: seq<seq<real>>, dofs1: seq<nat>, bc: map<nat, real>) returns (be: array<real>)
    requires forall i :: 0 <= i < |values| ==> |values[i]| == |dofs1|
    ensures fresh(be)
    ensures be[..] == Lifting(values, dofs1, bc)
  {
    be := new real[|values|](i => 0.0);
    for j := 0 to |dofs1|
      invariant forall i :: 0 <= i < be.Length ==> be[i] == LiftedEntry(values[i][..j], dofs1[..j], bc)
    {
      SubtractColumn(be, values, dofs1, bc, j);
    }
    forall i | 0 <= i < be.Length ensures be[i] == Lifting(values, dofs1, bc)[i] {
      assert values[i][..|dofs1|] == values[i] && dofs1[..|dofs1|] == dofs1;
    }
  }

  /** One column step of the lifting loop: `be -= Ae.col(j) * g` when trial dof `j` is constrained. */
  method SubtractColumn(be: array<real>, values: seq<seq<real>>, dofs1: seq<nat>, bc: map<nat, real>, j: nat)
    requires be.Length == |values| && j < |dofs1|
    requires forall i :: 0 <= i < |values| ==> |values[i]| == |dofs1|
    requires forall i :: 0 <= i < be.Length ==> be[i] == LiftedEntry(values[i][..j], dofs1[..j], bc)
    modifies be
    ensures forall i :: 0 <= i < be.Length ==> be[i] == LiftedEntry(values[i][..j + 1], dofs1[..j + 1], bc)
  {
    if dofs1[j] in bc {
      var g := bc[dofs1[j]];
      for i := 0 to be.Length
        invariant forall p :: 0 <= p < i ==> be[p] == LiftedEntry(values[p][..j + 1], dofs1[..j + 1], bc)
        invariant forall p :: i <= p < be.Length ==> be[p] == LiftedEntry(values[p][..j], dofs1[..j], bc)
      {
        assert values[i][..j + 1][..j] == values[i][..j] && dofs1[..j + 1][..j] == dofs1[..j];
        be[i] := be[i] - values[i][j] * g;
      }
    } else {
      forall p | 0 <= p < be.Length
        ensures be[p] == LiftedEntry(values[p][..j + 1], dofs1[..j + 1], bc)
      {
        assert values[p][..j + 1][..j] == values[p][..j] && dofs1[..j + 1][..j] == dofs1[..j];
      }
    }
  }

  /**
   * Every cell's element matrix is shaped and every test dof indexes the
   * vector; the trial dofs index the trial space, which may be larger.
   */
  predicate LiftCellsFit(cells: seq<CellMatrix>, size: nat) {
    forall k :: 0 <= k < |cells| ==>
      Shaped(cells[k].values, cells[k].dofs0, cells[k].dofs1) && InRange(cells[k].dofs0, size)
  }

  /**
   * `apply_bc` with the lifting added at the cell's test dofs: cells without
   * a constrained trial dof are skipped.
   */
  function AppliedBc(b: seq<real>, cells: seq<CellMatrix>, bc: map<nat, real>): (r: seq<real>)
    requires LiftCellsFit(cells, |b|)
    ensures |r| == |b|
  {
    if |cells| == 0 then b
    else
      var n := |cells| - 1;
      var prev := AppliedBc(b, cells[..n], bc);
      var cell := cells[n];
      if HasBc(cell.dofs1, bc) then ScatterAdd(prev, cell.dofs0, Lifting(cell.values, cell.dofs1, bc))
      else prev
  }

  /**
   * `apply_bc` as written: the list named `dmap0` is fetched from the trial
   * dofmap, so the element matrix gets as many rows as trial dofs and the
   * lifting is added at the trial dofs.
   */
  function AppliedBcAsWritten(b: seq<real>, cells: seq<CellMatrix>, bc: map<nat, real>): (r: seq<real>)
    requires LiftCellsFit(cells, |b|)
    requires forall k :: 0 <= k < |cells| ==> |cells[k].dofs0| == |cells[k].dofs1| && InRange(cells[k].dofs1, |b|)
    ensures |r| == |b|
  {
    if |cells| == 0 then b
    else
      var n := |cells| - 1;
      var prev := AppliedBcAsWritten(b, cells[..n], bc);
      var cell := cells[n];
      if HasBc(cell.dofs1, bc) then ScatterAdd(prev, cell.dofs1, Lifting(cell.values, cell.dofs1, bc))
      else prev
  }

  /**
   * A test space whose cell dofs differ from the trial space's: the lifting
   * `-2 * 1` belongs at test dof 0, but the code as written adds it at trial
   * dof 1.
   */
  lemma ApplyBcRowsFromTrialDofs()
    ensures var cells := [CellMatrix([0], [1], [[2.0]])];
      && AppliedBcAsWritten([0.0, 0.0], cells, map[1 := 1.0]) == [0.0, -2.0]
      && AppliedBc([0.0, 0.0], cells, map[1 := 1.0]) == [-2.0, 0.0]
  {
    var cells := [CellMatrix([0], [1], [[2.0]])];
    var bc := map[1 := 1.0];
    assert cells[..0] == [];
    assert HasBc(cells[0].dofs1, bc) by {
      assert cells[0].dofs1[0] in bc;
    }
    assert Lifting(cells[0].values, cells[0].dofs1, bc) == [-2.0] by {
      assert [2.0][..0] == [] && [1][..0] == [];
    }
    assert [0][..0] == [] && [1][..0] == [] && [-2.0][..0] == [];
  }

  /** The cells whose lifting is applied, and what each adds at dof `k`. */
  function LiftingAt(cells: seq<CellMatrix>, bc: map<nat, real>, k: nat): real
    requires AllShaped(cells)
  {
    if |cells| == 0 then 0.0
    else
      var n := |cells| - 1;
      LiftingAt(cells[..n], bc, k)
        + Contribution(cells[n].dofs0, Lifting(cells[n].values, cells[n].dofs1, bc), k)
  }

  /**
   * After `apply_bc` every entry is its old value plus, over all cells, the
   * lifted entries of the cell rows whose test dof is that entry; skipping
   * the cells without a constrained trial dof loses nothing.
   */
  lemma {:induction false} AppliedBcEntries(b: seq<real>, cells: seq<CellMatrix>, bc: map<nat, real>, k: nat)
    requires LiftCellsFit(cells, |b|) && k < |b|
    ensures AppliedBc(b, cells, bc)[k] == b[k] + LiftingAt(cells, bc, k)
  {
    if |cells| > 0 {
      var n := |cells| - 1;
      assert LiftCellsFit(cells[..n], |b|) by {
        forall c | 0 <= c < n
          ensures Shaped(cells[..n][c].values, cells[..n][c].dofs0, cells[..n][c].dofs1)
          ensures InRange(cells[..n][c].dofs0, |b|)
        {
          assert cells[..n][c] == cells[c];
        }
      }
      AppliedBcEntries(b, cells[..n], bc, k);
      var cell := cells[n];
      var be := Lifting(cell.values, cell.dofs1, bc);
      var prev := AppliedBc(b, cells[..n], bc);
      if HasBc(cell.dofs1, bc) {
        ScatterAddEntries(prev, cell.dofs0, be);
      } else {
        forall i | 0 <= i < |be| ensures be[i] == 0.0 {
          LiftedEntryWithoutBc(cell.values[i], cell.dofs1, bc);
        }
        ContributionOfZeros(cell.dofs0, be, k);
      }
    }
  }

  lemma {:induction false} ContributionOfZeros(dofs: seq<nat>, be: seq<real>, k: nat)
    requires |be| == |dofs| && forall i :: 0 <= i < |be| ==> be[i] == 0.0
    ensures Contribution(dofs, be, k) == 0.0
  {
    if |dofs| > 0 {
      ContributionOfZeros(dofs[..|dofs| - 1], be[..|dofs| - 1], k);
    }
  }

  /**
   * `apply_bc(b, a, bcs)`: gather the boundary map of the trial space, then
   * for every cell with a constrained trial dof compute the lifting and add
   * it at the cell's test dofs.
   */
  method ApplyBc(b: array<real>, cells: seq<CellMatrix>, space1: nat,
                 bcs: seq<DirichletBC>, contains: (nat, nat) -> bool)
    requires LiftCellsFit(cells, b.Length)
    modifies b
    ensures b[..] == AppliedBc(old(b[..]), cells, Collected(space1, bcs, contains))
  {
    var bc := CollectBoundaryValues(space1, bcs, contains);
    ghost var start := b[..];
    for c := 0 to |cells|
      invariant b[..] == AppliedBc(start, cells[..c], bc)
    {
      assert cells[..c + 1][..c] == cells[..c];
      var cell := cells[c];
      var hasBc := HasBoundaryDof(cell.dofs1, bc);
      if hasBc {
        var lifted := ComputeLifting(cell.values, cell.dofs1, bc);
        var be := lifted[..];
        ghost var before := b[..];
        for i := 0 to |cell.dofs0|
          invariant b[..] == ScatterAdd(before, cell.dofs0[..i], be[..i])
        {
          assert cell.dofs0[..i + 1][..i] == cell.dofs0[..i] && be[..i + 1][..i] == be[..i];
          b[cell.dofs0[i]] := b[cell.dofs0[i]] + be[i];
        }
        assert cell.dofs0[..|cell.dofs0|] == cell.dofs0 && be[..|be|] == be;
      }
    }
    assert cells[..|cells|] == cells;
  }

  /** `b` with every boundary dof inside it set to its value. */
  function WithBoundaryValues(b: seq<real>, bc: map<nat, real>): (r: seq<real>)
    ensures |r| == |b|
  {
    seq(|b|, k requires 0 <= k < |b| => if k in bc then bc[k] else b[k])
  }

  /**
   * The loop of `set_bc` over the boundary map, on the window
   * `b[offset .. offset + size)` it is handed: a boundary dof `d < size` sets
   * entry `offset + d`, larger dofs are ignored and nothing else changes.
   */
  method SetBc(b: array<real>, offset: nat, size: nat, bc: map<nat, real>)
    requires offset + size <= b.Length
    modifies b
    ensures forall p :: 0 <= p < b.Length ==>
      b[p] == if offset <= p < offset + size && p - offset in bc then bc[p - offset] else old(b[p])
    ensures b[offset..offset + size] == WithBoundaryValues(old(b[offset..offset + size]), bc)
  {
    var todo := bc.Keys;
    while todo != {}
      invariant todo <= bc.Keys
      invariant forall p :: 0 <= p < b.Length ==>
        b[p] == if offset <= p < offset + size && p - offset in bc && p - offset !in todo
                then bc[p - offset] else old(b[p])
      decreases |todo|
    {
      var dof :| dof in todo;
      if dof < size {
        b[offset + dof] := bc[dof];
      }
      todo := todo - {dof};
    }
  }

  /**
   * `set_bc(b, L, bcs)`: gather the boundary map of the test space of `L`,
   * then set the boundary values in the window it is handed.
   */
  method SetBcForm(b: array<real>, offset: nat, size: nat, space0: nat,
                   bcs: seq<DirichletBC>, contains: (nat, nat) -> bool)
    requires offset + size <= b.Length
    modifies b
    ensures b[offset..offset + size] == WithBoundaryValues(old(b[offset..offset + size]), Collected(space0, bcs, contains))
    ensures b[..offset] == old(b[..offset]) && b[offset + size..] == old(b[offset + size..])
  {
    var bc := CollectBoundaryValues(space0, bcs, contains);
    SetBc(b, offset, size, bc);
  }

  /** Setting the boundary values a second time changes nothing. */
  lemma SetBcIdempotent(b: seq<real>, bc: map<nat, real>)
    ensures WithBoundaryValues(WithBoundaryValues(b, bc), bc) == WithBoundaryValues(b, bc)
  {
  }

  /**
   * The single vector path: the local form (owned entries, then ghosts) is
   * assembled, and `set_bc` is applied to the window of the `owned` entries.
   */
  function SingleVector(b: seq<real>, cells: seq<CellVector>, owned: nat, bc: map<nat, real>): (r: seq<real>)
    requires CellsFit(cells, |b|) && owned <= |b|
    ensures |r| == |b|
  {
    var assembled := AssembledVector(b, cells);
    WithBoundaryValues(assembled[..owned], bc) + assembled[owned..]
  }

  /**
   * `assemble(b)` for one linear form: the cell loop on the local form, then
   * `set_bc` on the owned entries.
   */
  method AssembleSingleVector(b: array<real>, cells: seq<CellVector>, owned: nat, space0: nat,
                              bcs: seq<DirichletBC>, contains: (nat, nat) -> bool)
    requires CellsFit(cells, b.Length) && owned <= b.Length
    modifies b
    ensures b[..] == SingleVector(old(b[..]), cells, owned, Collected(space0, bcs, contains))
  {
    AssembleVector(b, cells);
    ghost var assembled := b[..];
    SetBcForm(b, 0, owned, space0, bcs, contains);
    assert b[..] == b[..0] + b[0..owned] + b[owned..];
    assert assembled[..owned] == assembled[0..owned];
  }

  /**
   * On the single path an owned boundary dof ends with its boundary value,
   * whatever the cells scattered to it; every other entry, ghost entries with
   * a boundary value included, is its initial value plus the sum of the
   * element entries scattered to it.
   */
  lemma SetBcOverridesAssembly(b: seq<real>, cells: seq<CellVector>, owned: nat, bc: map<nat, real>, k: nat)
    requires CellsFit(cells, |b|) && owned <= |b| && k < |b|
    ensures SingleVector(b, cells, owned, bc)[k] ==
      if k < owned && k in bc then bc[k] else b[k] + TotalContribution(cells, k)
  {
    AssembledVectorEntries(b, cells, k);
  }
}
