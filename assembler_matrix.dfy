/**
 * Matrix assembly with Dirichlet elimination
 * (cpp/dolfin/fem/Assembler.cpp, `assemble(PETScMatrix&, const Form&, bcs)`
 * and the placement of unit diagonals in `assemble(PETScMatrix&, BlockType)`).
 *
 * A global matrix (or the sub-matrix of one block) is a function from
 * (row, column) to its entry.  Each cell supplies its test and trial dof
 * lists and its element tensor; the tensor's rows and columns whose global
 * dof is constrained are zeroed before the tensor is added into the global
 * matrix.
 */
module MatrixAssembly {
  import opened BoundaryValues
  import opened Results
  import AssemblerLayout

  type Matrix = (nat, nat) -> real

  /** One cell: test dofs, trial dofs and the tabulated element tensor (row-major). */
  datatype CellMatrix = CellMatrix(dofs0: seq<nat>, dofs1: seq<nat>, values: seq<seq<real>>)

  /** The element tensor has one row per test dof and one column per trial dof. */
  predicate Shaped(values: seq<seq<real>>, dofs0: seq<nat>, dofs1: seq<nat>) {
    |values| == |dofs0| && forall i :: 0 <= i < |values| ==> |values[i]| == |dofs1|
  }

  predicate AllShaped(cells: seq<CellMatrix>) {
    forall k :: 0 <= k < |cells| ==> Shaped(cells[k].values, cells[k].dofs0, cells[k].dofs1)
  }

  /** The element tensor with every constrained row and every constrained column zeroed. */
  function Eliminated(values: seq<seq<real>>, dofs0: seq<nat>, dofs1: seq<nat>,
                      bc0: map<nat, real>, bc1: map<nat, real>): seq<seq<real>>
    requires Shaped(values, dofs0, dofs1)
  {
    seq(|values|, i requires 0 <= i < |values| =>
      seq(|dofs1|, j requires 0 <= j < |dofs1| =>
        if dofs0[i] in bc0 || dofs1[j] in bc1 then 0.0 else values[i][j]))
  }

  /**
   * Zero, in place, every row of the element tensor whose test dof is in
   * `bc0`, then every column whose trial dof is in `bc1`.
   */
  method EliminateRowsAndColumns(ae: array2<real>, dofs0: seq<nat>, dofs1: seq<nat>,
                                 bc0: map<nat, real>, bc1: map<nat, real>)
    requires ae.Length0 == |dofs0| && ae.Length1 == |dofs1|
    modifies ae
    ensures forall i, j :: 0 <= i < ae.Length0 && 0 <= j < ae.Length1 ==>
      ae[i, j] == if dofs0[i] in bc0 || dofs1[j] in bc1 then 0.0 else old(ae[i, j])
  {
    for i := 0 to ae.Length0
      invariant forall p, q :: 0 <= p < ae.Length0 && 0 <= q < ae.Length1 ==>
        ae[p, q] == if p < i && dofs0[p] in bc0 then 0.0 else old(ae[p, q])
    {
      if dofs0[i] in bc0 {
        for j := 0 to ae.Length1
          invariant forall p, q :: 0 <= p < ae.Length0 && 0 <= q < ae.Length1 ==>
            ae[p, q] == if (p < i && dofs0[p] in bc0) || (p == i && q < j) then 0.0 else old(ae[p, q])
        {
          ae[i, j] := 0.0;
        }
      }
    }
    for j := 0 to ae.Length1
      invariant forall p, q :: 0 <= p < ae.Length0 && 0 <= q < ae.Length1 ==>
        ae[p, q] == if dofs0[p] in bc0 || (q < j && dofs1[q] in bc1) then 0.0 else old(ae[p, q])
    {
      if dofs1[j] in bc1 {
        for i := 0 to ae.Length0
          invariant forall p, q :: 0 <= p < ae.Length0 && 0 <= q < ae.Length1 ==>
            ae[p, q] == if dofs0[p] in bc0 || (q < j && dofs1[q] in bc1) || (q == j && p < i)
                        then 0.0 else old(ae[p, q])
        {
          ae[i, j] := 0.0;
        }
      }
    }
  }

  /** The sum of the entries of an element row whose trial dof is `col`. */
  function RowSum(row: seq<real>, dofs1: seq<nat>, col: nat): real
    requires |row| == |dofs1|
  {
    if |row| == 0 then 0.0
    else
      var n := |row| - 1;
      RowSum(row[..n], dofs1[..n], col) + (if dofs1[n] == col then row[n] else 0.0)
  }

  /** What `add_local` adds at global entry (r, c): the element entries whose dofs are (r, c). */
  function EntrySum(values: seq<seq<real>>, dofs0: seq<nat>, dofs1: seq<nat>, r: nat, c: nat): real
    requires Shaped(values, dofs0, dofs1)
  {
    if |values| == 0 then 0.0
    else
      var n := |values| - 1;
      EntrySum(values[..n], dofs0[..n], dofs1, r, c)
        + (if dofs0[n] == r then RowSum(values[n], dofs1, c) else 0.0)
  }

  /** The global matrix after `add_local` of one element tensor. */
  function AddLocal(A: Matrix, values: seq<seq<real>>, dofs0: seq<nat>, dofs1: seq<nat>): Matrix
    requires Shaped(values, dofs0, dofs1)
  {
    (r: nat, c: nat) => A(r, c) + EntrySum(values, dofs0, dofs1, r, c)
  }

  /** The global matrix after the cell loop: every cell's eliminated tensor added in turn. */
  function Assembled(A0: Matrix, cells: seq<CellMatrix>, bc0: map<nat, real>, bc1: map<nat, real>): Matrix
    requires AllShaped(cells)
  {
    if |cells| == 0 then A0
    else
      var n := |cells| - 1;
      var cell := cells[n];
      AddLocal(Assembled(A0, cells[..n], bc0, bc1),
               Eliminated(cell.values, cell.dofs0, cell.dofs1, bc0, bc1), cell.dofs0, cell.dofs1)
  }

  /** The raw (uneliminated) contributions of all cells at entry (r, c). */
  function RawSum(cells: seq<CellMatrix>, r: nat, c: nat): real
    requires AllShaped(cells)
  {
    if |cells| == 0 then 0.0
    else
      var n := |cells| - 1;
      RawSum(cells[..n], r, c) + EntrySum(cells[n].values, cells[n].dofs0, cells[n].dofs1, r, c)
  }

  /**
   * The cell loop: tabulate (the tensor is given), zero the constrained rows
   * and columns in place, add into the global matrix.
   */
  method AssembleCells(A0: Matrix, cells: seq<CellMatrix>, bc0: map<nat, real>, bc1: map<nat, real>)
    returns (A: Matrix)
    requires AllShaped(cells)
    ensures forall r, c :: A(r, c) == Assembled(A0, cells, bc0, bc1)(r, c)
  {
    A := A0;
    for k := 0 to |cells|
      invariant forall r, c :: A(r, c) == Assembled(A0, cells[..k], bc0, bc1)(r, c)
    {
      var cell := cells[k];
      var rows, cols := |cell.dofs0|, |cell.dofs1|;
      var ae := new real[rows, cols]((i: nat, j: nat) requires i < rows && j < cols => cell.values[i][j]);
      assert forall i, j :: 0 <= i < rows && 0 <= j < cols ==> ae[i, j] == cell.values[i][j];
      EliminateRowsAndColumns(ae, cell.dofs0, cell.dofs1, bc0, bc1);
      var tensor := seq(rows, i requires 0 <= i < rows reads ae =>
                      seq(cols, j requires 0 <= j < cols reads ae => ae[i, j]));
      ghost var eliminated := Eliminated(cell.values, cell.dofs0, cell.dofs1, bc0, bc1);
      assert |tensor| == |eliminated|;
      forall i | 0 <= i < rows ensures tensor[i] == eliminated[i] {
        assert |tensor[i]| == |eliminated[i]|;
        forall j | 0 <= j < cols ensures tensor[i][j] == eliminated[i][j] {
          assert tensor[i][j] == ae[i, j];
        }
      }
      assert tensor == eliminated;
      assert cells[..k + 1][..k] == cells[..k];
      var prev := A;
      A := (r: nat, c: nat) => prev(r, c) + EntrySum(tensor, cell.dofs0, cell.dofs1, r, c);
    }
    assert cells[..|cells|] == cells;
  }

  /**
   * `assemble(A, a, bcs)`: the boundary map of each axis is gathered from the
   * conditions whose space that axis's space contains, then the cell loop
   * runs with those maps.
   */
  method AssembleForm(A0: Matrix, cells: seq<CellMatrix>, space0: nat, space1: nat,
                      bcs: seq<DirichletBC>, contains: (nat, nat) -> bool)
    returns (A: Matrix)
    requires AllShaped(cells)
    ensures forall r, c ::
      A(r, c) == Assembled(A0, cells, Collected(space0, bcs, contains), Collected(space1, bcs, contains))(r, c)
  {
    var bc0 := CollectBoundaryValues(space0, bcs, contains);
    var bc1 := CollectBoundaryValues(space1, bcs, contains);
    A := AssembleCells(A0, cells, bc0, bc1);
  }

  /** A row whose entries at the trial dof `col` are all zero sums to zero there. */
  lemma {:induction false} RowSumOfZeros(row: seq<real>, dofs1: seq<nat>, col: nat)
    requires |row| == |dofs1|
    requires forall j :: 0 <= j < |row| && dofs1[j] == col ==> row[j] == 0.0
    ensures RowSum(row, dofs1, col) == 0.0
  {
    if |row| > 0 {
      RowSumOfZeros(row[..|row| - 1], dofs1[..|row| - 1], col);
    }
  }

  /** Two rows agreeing at the trial dof `col` have the same sum there. */
  lemma {:induction false} RowSumAgrees(row: seq<real>, other: seq<real>, dofs1: seq<nat>, col: nat)
    requires |row| == |dofs1| && |other| == |dofs1|
    requires forall j :: 0 <= j < |row| && dofs1[j] == col ==> row[j] == other[j]
    ensures RowSum(row, dofs1, col) == RowSum(other, dofs1, col)
  {
    if |row| > 0 {
      var n := |row| - 1;
      RowSumAgrees(row[..n], other[..n], dofs1[..n], col);
    }
  }

  /**
   * At an entry whose row or column is constrained the eliminated tensor
   * adds nothing; at any other entry it adds what the raw tensor adds.
   */
  lemma {:induction false} EliminatedEntrySum(values: seq<seq<real>>, dofs0: seq<nat>, dofs1: seq<nat>,
                                              bc0: map<nat, real>, bc1: map<nat, real>, r: nat, c: nat)
    requires Shaped(values, dofs0, dofs1)
    ensures (r in bc0 || c in bc1) ==> EntrySum(Eliminated(values, dofs0, dofs1, bc0, bc1), dofs0, dofs1, r, c) == 0.0
    ensures (r !in bc0 && c !in bc1) ==>
      EntrySum(Eliminated(values, dofs0, dofs1, bc0, bc1), dofs0, dofs1, r, c) == EntrySum(values, dofs0, dofs1, r, c)
  {
    if |values| > 0 {
      var n := |values| - 1;
      var e := Eliminated(values, dofs0, dofs1, bc0, bc1);
      assert e[..n] == Eliminated(values[..n], dofs0[..n], dofs1, bc0, bc1);
      EliminatedEntrySum(values[..n], dofs0[..n], dofs1, bc0, bc1, r, c);
      if dofs0[n] == r {
        if r in bc0 || c in bc1 {
          RowSumOfZeros(e[n], dofs1, c);
        } else {
          RowSumAgrees(e[n], values[n], dofs1, c);
        }
      }
    }
  }

  /** Constrained rows and constrained columns receive nothing from the cell loop. */
  lemma {:induction false} ConstrainedEntriesUntouched(A0: Matrix, cells: seq<CellMatrix>,
                                                       bc0: map<nat, real>, bc1: map<nat, real>, r: nat, c: nat)
    requires AllShaped(cells) && (r in bc0 || c in bc1)
    ensures Assembled(A0, cells, bc0, bc1)(r, c) == A0(r, c)
  {
    if |cells| > 0 {
      var n := |cells| - 1;
      assert AllShaped(cells[..n]) by {
        forall k | 0 <= k < n ensures Shaped(cells[..n][k].values, cells[..n][k].dofs0, cells[..n][k].dofs1) {
          assert cells[..n][k] == cells[k];
        }
      }
      ConstrainedEntriesUntouched(A0, cells[..n], bc0, bc1, r, c);
      EliminatedEntrySum(cells[n].values, cells[n].dofs0, cells[n].dofs1, bc0, bc1, r, c);
    }
  }

  /** An entry with free row and free column receives exactly the raw element contributions. */
  lemma {:induction false} FreeEntriesReceiveRawSums(A0: Matrix, cells: seq<CellMatrix>,
                                                     bc0: map<nat, real>, bc1: map<nat, real>, r: nat, c: nat)
    requires AllShaped(cells) && r !in bc0 && c !in bc1
    ensures Assembled(A0, cells, bc0, bc1)(r, c) == A0(r, c) + RawSum(cells, r, c)
  {
    if |cells| > 0 {
      var n := |cells| - 1;
      assert AllShaped(cells[..n]) by {
        forall k | 0 <= k < n ensures Shaped(cells[..n][k].values, cells[..n][k].dofs0, cells[..n][k].dofs1) {
          assert cells[..n][k] == cells[k];
        }
      }
      FreeEntriesReceiveRawSums(A0, cells[..n], bc0, bc1, r, c);
      EliminatedEntrySum(cells[n].values, cells[n].dofs0, cells[n].dofs1, bc0, bc1, r, c);
    }
  }

  /**
   * How a unit diagonal is placed at the boundary rows: the nested and the
   * single paths set the entry to 1 (`set_local`); the monolithic path adds
   * 1 (`add_local`), and only at rows below the block's owned size.
   */
  datatype DiagonalRule = SetOne | AddOneBelow(owned: nat)

  /** The matrix after placing the unit diagonal at the rows `rows`. */
  function WithDiagonal(A: Matrix, rows: set<nat>, rule: DiagonalRule): Matrix {
    (r: nat, c: nat) =>
      if r == c && r in rows then
        match rule
        case SetOne => 1.0
        case AddOneBelow(owned) => if r < owned then A(r, c) + 1.0 else A(r, c)
      else A(r, c)
  }

  /** The loop over the boundary map placing the diagonal entry of each boundary row. */
  method PlaceDiagonal(A0: Matrix, boundaryValues: map<nat, real>, rule: DiagonalRule) returns (A: Matrix)
    ensures forall r, c :: A(r, c) == WithDiagonal(A0, boundaryValues.Keys, rule)(r, c)
  {
    A := A0;
    var todo := boundaryValues.Keys;
    while todo != {}
      invariant todo <= boundaryValues.Keys
      invariant forall r, c :: A(r, c) == WithDiagonal(A0, boundaryValues.Keys - todo, rule)(r, c)
      decreases |todo|
    {
      var row :| row in todo;
      var prev := A;
      match rule {
        case SetOne =>
          A := (r: nat, c: nat) => if r == row && c == row then 1.0 else prev(r, c);
        case AddOneBelow(owned) =>
          if row < owned {
            A := (r: nat, c: nat) => if r == row && c == row then prev(r, c) + 1.0 else prev(r, c);
          }
      }
      todo := todo - {row};
    }
  }

  /**
   * `A` is the block assembled from `A0` with both axes' boundary maps and,
   * when its test and trial spaces are the same, the unit diagonal placed at
   * the rows of that space's boundary map by `rule`.
   */
  ghost predicate BlockAssembled(A: Matrix, A0: Matrix, cells: seq<CellMatrix>, space0: nat, space1: nat,
                                 bcs: seq<DirichletBC>, contains: (nat, nat) -> bool, rule: DiagonalRule)
    requires AllShaped(cells)
  {
    var assembled := Assembled(A0, cells, Collected(space0, bcs, contains), Collected(space1, bcs, contains));
    forall r, c :: A(r, c) ==
      if space0 == space1 then WithDiagonal(assembled, Collected(space0, bcs, contains).Keys, rule)(r, c)
      else assembled(r, c)
  }

  /**
   * One block of `assemble(A, block_type)`: assemble the form, then, when its
   * test and trial spaces are the same, place the unit diagonal at the rows
   * of that space's boundary map.
   */
  method AssembleBlock(A0: Matrix, cells: seq<CellMatrix>, space0: nat, space1: nat,
                       bcs: seq<DirichletBC>, contains: (nat, nat) -> bool, rule: DiagonalRule)
    returns (A: Matrix)
    requires AllShaped(cells)
    ensures BlockAssembled(A, A0, cells, space0, space1, bcs, contains, rule)
  {
    A := AssembleForm(A0, cells, space0, space1, bcs, contains);
    if space0 == space1 {
      var boundaryValues := CollectBoundaryValues(space0, bcs, contains);
      A := PlaceDiagonal(A, boundaryValues, rule);
    }
  }

  /**
   * The diagonal rule of each path: the monolithic path adds 1 below the
   * owned size of the block's test space; the nested and single paths set 1.
   */
  function RuleFor(path: AssemblerLayout.Layout, f: AssemblerLayout.Form): DiagonalRule {
    if path == AssemblerLayout.MonolithicLayout then AddOneBelow(f.space0.indexMap.owned) else SetOne
  }

  /** Block `block` after its turn in the block loop: assembled by the path's rule, or left alone when missing. */
  ghost predicate BlockDone(A: Matrix, A0: Matrix, block: Option<AssemblerLayout.Form>, cells: seq<CellMatrix>,
                            path: AssemblerLayout.Layout, bcs: seq<DirichletBC>, contains: (nat, nat) -> bool)
    requires AllShaped(cells)
  {
    match block
    case None => A == A0
    case Some(f) => BlockAssembled(A, A0, cells, f.space0.id, f.space1.id, bcs, contains, RuleFor(path, f))
  }

  /** A row of blocks of the same length as its forms, every cell list shaped. */
  predicate RowFits(A0: seq<Matrix>, row: seq<Option<AssemblerLayout.Form>>, cells: seq<seq<CellMatrix>>) {
    |A0| == |row| == |cells| && forall j :: 0 <= j < |cells| ==> AllShaped(cells[j])
  }

  /** Every block of a row is done. */
  ghost predicate RowDone(A: seq<Matrix>, A0: seq<Matrix>, row: seq<Option<AssemblerLayout.Form>>,
                          cells: seq<seq<CellMatrix>>, path: AssemblerLayout.Layout,
                          bcs: seq<DirichletBC>, contains: (nat, nat) -> bool)
    requires RowFits(A0, row, cells) && |A| == |row|
  {
    forall j :: 0 <= j < |row| ==> BlockDone(A[j], A0[j], row[j], cells[j], path, bcs, contains)
  }

  /**
   * One block row of the nested or monolithic loop: each present block is
   * assembled by the path's diagonal rule; a missing block is skipped on the
   * nested path and stops the monolithic path with an error.
   */
  method AssembleBlockRow(A0: seq<Matrix>, row: seq<Option<AssemblerLayout.Form>>, cells: seq<seq<CellMatrix>>,
                          path: AssemblerLayout.Layout, bcs: seq<DirichletBC>, contains: (nat, nat) -> bool)
    returns (A: seq<Matrix>, ok: bool)
    requires RowFits(A0, row, cells)
    ensures |A| == |row|
    ensures ok <==> path == AssemblerLayout.NestLayout || AssemblerLayout.Complete(row)
    ensures ok ==> RowDone(A, A0, row, cells, path, bcs, contains)
  {
    A := A0;
    for j := 0 to |row|
      invariant |A| == |row|
      invariant forall t :: 0 <= t < j ==> BlockDone(A[t], A0[t], row[t], cells[t], path, bcs, contains)
      invariant path != AssemblerLayout.NestLayout ==> forall t :: 0 <= t < j ==> row[t].Some?
      invariant forall t :: j <= t < |row| ==> A[t] == A0[t]
    {
      match row[j]
      case Some(f) =>
        var block := AssembleBlock(A0[j], cells[j], f.space0.id, f.space1.id, bcs, contains, RuleFor(path, f));
        A := A[j := block];
      case None =>
        if path != AssemblerLayout.NestLayout {
          ok := false;
          return;
        }
    }
    ok := true;
  }

  /**
   * The block loop of `assemble(A, block_type)` on the nested and the
   * monolithic path, over the local sub-matrix of each block.
   */
  method AssembleBlocks(A0: seq<seq<Matrix>>, a: seq<seq<Option<AssemblerLayout.Form>>>, cells: seq<seq<seq<CellMatrix>>>,
                        path: AssemblerLayout.Layout, bcs: seq<DirichletBC>, contains: (nat, nat) -> bool)
    returns (A: seq<seq<Matrix>>, ok: bool)
    requires |A0| == |a| == |cells| && forall i :: 0 <= i < |a| ==> RowFits(A0[i], a[i], cells[i])
    ensures |A| == |a|
    ensures ok <==> path == AssemblerLayout.NestLayout || forall i :: 0 <= i < |a| ==> AssemblerLayout.Complete(a[i])
    ensures ok ==> forall i :: 0 <= i < |a| ==> |A[i]| == |a[i]| && RowDone(A[i], A0[i], a[i], cells[i], path, bcs, contains)
  {
    A := A0;
    for i := 0 to |a|
      invariant |A| == |a|
      invariant forall t :: 0 <= t < i ==> |A[t]| == |a[t]|
      invariant forall t :: 0 <= t < i ==> RowDone(A[t], A0[t], a[t], cells[t], path, bcs, contains)
      invariant path != AssemblerLayout.NestLayout ==> forall t :: 0 <= t < i ==> AssemblerLayout.Complete(a[t])
    {
      var row, rowOk := AssembleBlockRow(A0[i], a[i], cells[i], path, bcs, contains);
      if !rowOk {
        ok := false;
        return;
      }
      A := A[i := row];
    }
    ok := true;
  }

  /**
   * At a boundary row of a square block, the nested and single paths leave
   * exactly 1 on the diagonal; the monolithic path adds 1 to the entry it
   * started from at an owned row, and leaves a ghost row as it started.
   */
  lemma DiagonalByPath(A: Matrix, A0: Matrix, f: AssemblerLayout.Form, cells: seq<CellMatrix>,
                       path: AssemblerLayout.Layout, bcs: seq<DirichletBC>, contains: (nat, nat) -> bool, r: nat)
    requires AllShaped(cells) && f.space0.id == f.space1.id
    requires BlockDone(A, A0, Some(f), cells, path, bcs, contains) && r in Collected(f.space0.id, bcs, contains)
    ensures path != AssemblerLayout.MonolithicLayout ==> A(r, r) == 1.0
    ensures path == AssemblerLayout.MonolithicLayout ==>
      A(r, r) == A0(r, r) + if r < f.space0.indexMap.owned then 1.0 else 0.0
  {
    var bc := Collected(f.space0.id, bcs, contains);
    ConstrainedEntriesUntouched(A0, cells, bc, bc, r, r);
  }

  /** On the monolithic path the diagonal placement never changes a ghost row. */
  lemma MonolithicGhostRowsAssembledOnly(A: Matrix, A0: Matrix, f: AssemblerLayout.Form, cells: seq<CellMatrix>,
                                         bcs: seq<DirichletBC>, contains: (nat, nat) -> bool, r: nat, c: nat)
    requires AllShaped(cells)
    requires BlockDone(A, A0, Some(f), cells, AssemblerLayout.MonolithicLayout, bcs, contains)
    requires r >= f.space0.indexMap.owned
    ensures A(r, c) == Assembled(A0, cells, Collected(f.space0.id, bcs, contains), Collected(f.space1.id, bcs, contains))(r, c)
  {
  }

  function Zero(): Matrix {
    (r: nat, c: nat) => 0.0
  }

  /**
   * Starting from a zero matrix with the same space on both axes, a boundary
   * row and a boundary column become those of the identity: 1 on the
   * diagonal (on the monolithic path only for owned rows) and 0 elsewhere.
   */
  lemma BoundaryRowsAndColumnsOfIdentity(cells: seq<CellMatrix>, bc: map<nat, real>, rule: DiagonalRule,
                                         r: nat, c: nat)
    requires AllShaped(cells) && (r in bc || c in bc)
    ensures WithDiagonal(Assembled(Zero(), cells, bc, bc), bc.Keys, rule)(r, c) ==
      if r == c && (rule.SetOne? || r < rule.owned) then 1.0 else 0.0
  {
    ConstrainedEntriesUntouched(Zero(), cells, bc, bc, r, c);
  }
}
