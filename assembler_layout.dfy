/**
 * Storage-layout choice and block placement of the block assembler
 * (cpp/dolfin/fem/Assembler.cpp).
 *
 * The assembler holds a rectangular array of bilinear forms `a[i][j]` (a
 * missing block is `None`) and a list of linear forms.  A matrix or vector
 * that is still empty is created with a storage chosen from the requested
 * block type; the storage of the container (new or given) then selects one
 * of three assembly paths.  On the monolithic path every block is placed at
 * prefix-sum offsets inside the one big matrix.
 */
module AssemblerLayout {
  import opened Results

  /** The block structure requested by the caller. */
  datatype BlockType = Monolithic | Nested

  /** The storage of a matrix or vector, and the assembly path it selects. */
  datatype Layout = NestLayout | MonolithicLayout | SingleLayout

  /** The sizes of a dof index map: the owned entries come first, then the ghosts. */
  datatype IndexMap = IndexMap(owned: nat, ghosts: nat)

  /** The size `MapSize::ALL` of an index map. */
  function AllSize(m: IndexMap): nat {
    m.owned + m.ghosts
  }

  /** A function space: its identity (pointer equality in the source) and its index map. */
  datatype Space = Space(id: nat, indexMap: IndexMap)

  /** A form with its test space (axis 0) and trial space (axis 1); linear forms use axis 0 only. */
  datatype Form = Form(space0: Space, space1: Space)

  datatype AssemblyError = NullLinearForm

  /** The forms make a block matrix: more than one block row or more than one block column. */
  predicate IsBlockMatrix(a: seq<seq<Option<Form>>>)
    requires |a| >= 1
  {
    |a| > 1 || |a[0]| > 1
  }

  /** The storage given to a matrix that is still empty. */
  function NewMatrixLayout(a: seq<seq<Option<Form>>>, blockType: BlockType): Layout
    requires |a| >= 1
  {
    if blockType == Nested then NestLayout
    else if IsBlockMatrix(a) && blockType == Monolithic then MonolithicLayout
    else SingleLayout
  }

  /**
   * The assembly path of `assemble(A, block_type)`: the storage of `A` (the
   * given one, or a new one when `A` is empty) decides between the nested
   * path and the others; a non-nested matrix takes the monolithic path iff
   * the forms make a block matrix.
   */
  function MatrixPath(a: seq<seq<Option<Form>>>, blockType: BlockType, existing: Option<Layout>): Layout
    requires |a| >= 1
  {
    var storage := if existing.None? then NewMatrixLayout(a, blockType) else existing.value;
    if storage == NestLayout then NestLayout
    else if IsBlockMatrix(a) then MonolithicLayout
    else SingleLayout
  }

  /**
   * An empty matrix becomes nested iff nested blocks are requested,
   * monolithic iff monolithic blocks are requested for a block matrix, and
   * single otherwise; it is then assembled along the path of its own storage.
   */
  lemma NewMatrixRule(a: seq<seq<Option<Form>>>, blockType: BlockType)
    requires |a| >= 1
    ensures NewMatrixLayout(a, blockType) == NestLayout <==> blockType == Nested
    ensures NewMatrixLayout(a, blockType) == MonolithicLayout <==> blockType == Monolithic && IsBlockMatrix(a)
    ensures NewMatrixLayout(a, blockType) == SingleLayout <==> blockType == Monolithic && !IsBlockMatrix(a)
    ensures MatrixPath(a, blockType, None) == NewMatrixLayout(a, blockType)
  {
  }

  /** A given non-nested matrix follows the shape of the forms, whatever its storage. */
  lemma ExistingMatrixPath(a: seq<seq<Option<Form>>>, blockType: BlockType, storage: Layout)
    requires |a| >= 1 && storage != NestLayout
    ensures MatrixPath(a, blockType, Some(storage)) == if IsBlockMatrix(a) then MonolithicLayout else SingleLayout
  {
  }

  /** The storage given to a vector that is still empty. */
  function NewVectorLayout(l: seq<Option<Form>>, blockType: BlockType): Layout {
    if blockType == Nested then NestLayout
    else if |l| > 1 && blockType == Monolithic then MonolithicLayout
    else SingleLayout
  }

  /**
   * The assembly path of `assemble(b, block_type)`: a missing linear form is
   * an error before any other work; otherwise the rule of the matrix with
   * "block" meaning more than one linear form.
   */
  function VectorPath(l: seq<Option<Form>>, blockType: BlockType, existing: Option<Layout>)
    : Result<Layout, AssemblyError>
  {
    if exists i :: 0 <= i < |l| && l[i].None? then Failure(NullLinearForm)
    else
      var storage := if existing.None? then NewVectorLayout(l, blockType) else existing.value;
      Success(if storage == NestLayout then NestLayout
              else if |l| > 1 then MonolithicLayout
              else SingleLayout)
  }

  /**
   * The vector path fails iff some linear form is missing; an empty vector
   * follows the matrix rule with one block column, and then its own storage.
   */
  lemma VectorRule(l: seq<Option<Form>>, blockType: BlockType)
    requires |l| >= 1
    ensures VectorPath(l, blockType, None).Failure? <==> exists i :: 0 <= i < |l| && l[i].None?
    ensures VectorPath(l, blockType, None).Success? ==>
      && VectorPath(l, blockType, None).value == NewVectorLayout(l, blockType)
      && NewVectorLayout(l, blockType) == NewMatrixLayout(seq(|l|, i requires 0 <= i < |l| => [l[i]]), blockType)
  {
  }

  /** Every block of a block row is present. */
  predicate Complete(row: seq<Option<Form>>) {
    forall j :: 0 <= j < |row| ==> row[j].Some?
  }

  /** The first `i` block rows are non-empty and complete. */
  predicate RowsComplete(a: seq<seq<Option<Form>>>, i: nat) {
    i <= |a| && forall k :: 0 <= k < i ==> |a[k]| > 0 && Complete(a[k])
  }

  /** The height of block row `i`: the full size of the test space of its first block. */
  function RowHeight(a: seq<seq<Option<Form>>>, i: nat): nat
    requires i < |a| && |a[i]| > 0 && a[i][0].Some?
  {
    AllSize(a[i][0].value.space0.indexMap)
  }

  /** The first row of block row `i`: the heights of the block rows above it. */
  function RowOffset(a: seq<seq<Option<Form>>>, i: nat): nat
    requires RowsComplete(a, i)
  {
    if i == 0 then 0 else RowOffset(a, i - 1) + RowHeight(a, i - 1)
  }

  /** The width of block `row[j]`: the full size of its trial space. */
  function ColWidth(row: seq<Option<Form>>, j: nat): nat
    requires j < |row| && row[j].Some?
  {
    AllSize(row[j].value.space1.indexMap)
  }

  /** The first column of block `j` of a block row: the widths of the blocks to its left. */
  function ColOffset(row: seq<Option<Form>>, j: nat): nat
    requires j <= |row| && forall k :: 0 <= k < j ==> row[k].Some?
  {
    if j == 0 then 0 else ColOffset(row, j - 1) + ColWidth(row, j - 1)
  }

  /** The index ranges `[rowStart, rowStart + rowCount)` x `[colStart, colStart + colCount)` of one block. */
  datatype Placement = Placement(row: nat, col: nat, rowStart: nat, rowCount: nat, colStart: nat, colCount: nat)

  /** Where block (i, j) goes: its own space sizes at the row and column offsets. */
  function BlockPlacement(a: seq<seq<Option<Form>>>, i: nat, j: nat): Placement
    requires RowsComplete(a, i) && i < |a| && j < |a[i]|
    requires forall k :: 0 <= k <= j ==> a[i][k].Some?
  {
    Placement(i, j, RowOffset(a, i), AllSize(a[i][j].value.space0.indexMap),
              ColOffset(a[i], j), ColWidth(a[i], j))
  }

  /** The placements of the first `j` blocks of block row `i`. */
  function RowPlacements(a: seq<seq<Option<Form>>>, i: nat, j: nat): seq<Placement>
    requires RowsComplete(a, i) && i < |a| && j <= |a[i]|
    requires forall k :: 0 <= k < j ==> a[i][k].Some?
  {
    if j == 0 then [] else RowPlacements(a, i, j - 1) + [BlockPlacement(a, i, j - 1)]
  }

  /** The placements of all blocks of the first `i` block rows, row by row. */
  function PlacementsBefore(a: seq<seq<Option<Form>>>, i: nat): seq<Placement>
    requires RowsComplete(a, i)
  {
    if i == 0 then [] else PlacementsBefore(a, i - 1) + RowPlacements(a, i - 1, |a[i - 1]|)
  }

  /** Block (i, j) is the first missing block in row-major order. */
  predicate FirstMissing(a: seq<seq<Option<Form>>>, i: nat, j: nat) {
    && RowsComplete(a, i) && i < |a| && j < |a[i]| && a[i][j].None?
    && forall k :: 0 <= k < j ==> a[i][k].Some?
  }

  /**
   * The monolithic path's placement of the blocks: `offset_col` restarts at
   * 0 for each block row and grows by each block's trial-space size;
   * `offset_row` grows by the test-space size of the row's first block.  A
   * missing block stops the assembly with an error, carrying the blocks
   * placed before it.
   */
  method MonolithicBlocks(a: seq<seq<Option<Form>>>) returns (r: Result<seq<Placement>, seq<Placement>>)
    requires forall i :: 0 <= i < |a| ==> |a[i]| > 0
    ensures r.Success? <==> RowsComplete(a, |a|)
    ensures r.Success? ==> r.value == PlacementsBefore(a, |a|)
    ensures r.Failure? ==>
      exists i, j :: FirstMissing(a, i, j) && r.error == PlacementsBefore(a, i) + RowPlacements(a, i, j)
  {
    var placed: seq<Placement> := [];
    var offsetRow: nat := 0;
    for i := 0 to |a|
      invariant RowsComplete(a, i)
      invariant placed == PlacementsBefore(a, i)
      invariant offsetRow == RowOffset(a, i)
    {
      var offsetCol: nat := 0;
      for j := 0 to |a[i]|
        invariant forall k :: 0 <= k < j ==> a[i][k].Some?
        invariant placed == PlacementsBefore(a, i) + RowPlacements(a, i, j)
        invariant offsetCol == ColOffset(a[i], j)
      {
        if a[i][j].None? {
          assert FirstMissing(a, i, j);
          return Failure(placed);
        }
        var form := a[i][j].value;
        var rowCount := AllSize(form.space0.indexMap);
        var colCount := AllSize(form.space1.indexMap);
        placed := placed + [Placement(i, j, offsetRow, rowCount, offsetCol, colCount)];
        offsetCol := offsetCol + colCount;
      }
      offsetRow := offsetRow + AllSize(a[i][0].value.space0.indexMap);
    }
    return Success(placed);
  }

  /** Column ranges of different blocks of one block row do not overlap. */
  lemma {:induction false} ColumnRangesDisjoint(row: seq<Option<Form>>, j1: nat, j2: nat)
    requires j1 < j2 <= |row| && forall k :: 0 <= k < j2 ==> row[k].Some?
    ensures ColOffset(row, j1) + ColWidth(row, j1) <= ColOffset(row, j2)
  {
    if j2 > j1 + 1 {
      ColumnRangesDisjoint(row, j1, j2 - 1);
    }
  }

  /** Row ranges of different block rows do not overlap. */
  lemma {:induction false} RowRangesDisjoint(a: seq<seq<Option<Form>>>, i1: nat, i2: nat)
    requires i1 < i2 && RowsComplete(a, i2)
    ensures RowOffset(a, i1) + RowHeight(a, i1) <= RowOffset(a, i2)
  {
    if i2 > i1 + 1 {
      RowRangesDisjoint(a, i1, i2 - 1);
    }
  }

  /**
   * With every block present, the placements are exactly one per block, and
   * each lies at its row's and column's prefix-sum offsets.
   */
  lemma {:induction false} PlacementsCoverBlocks(a: seq<seq<Option<Form>>>, n: nat)
    requires RowsComplete(a, n)
    ensures forall p :: p in PlacementsBefore(a, n) <==>
      exists i, j :: 0 <= i < n && 0 <= j < |a[i]| && p == BlockPlacement(a, i, j)
  {
    if n > 0 {
      PlacementsCoverBlocks(a, n - 1);
      RowPlacementsCover(a, n - 1, |a[n - 1]|);
      forall p | p in PlacementsBefore(a, n)
        ensures exists i, j :: 0 <= i < n && 0 <= j < |a[i]| && p == BlockPlacement(a, i, j)
      {
        if p in PlacementsBefore(a, n - 1) {
          var i, j :| 0 <= i < n - 1 && 0 <= j < |a[i]| && p == BlockPlacement(a, i, j);
          assert RowsComplete(a, i);
        }
      }
      forall i, j | 0 <= i < n && 0 <= j < |a[i]|
        ensures BlockPlacement(a, i, j) in PlacementsBefore(a, n)
      {
        if i < n - 1 {
          assert RowsComplete(a, n - 1);
          assert BlockPlacement(a, i, j) in PlacementsBefore(a, n - 1);
        } else {
          assert BlockPlacement(a, i, j) in RowPlacements(a, n - 1, |a[n - 1]|);
        }
      }
    }
  }

  /** A block row's placements are those of its first `j` blocks. */
  lemma {:induction false} RowPlacementsCover(a: seq<seq<Option<Form>>>, i: nat, j: nat)
    requires RowsComplete(a, i) && i < |a| && j <= |a[i]|
    requires forall k :: 0 <= k < j ==> a[i][k].Some?
    ensures forall p :: p in RowPlacements(a, i, j) <==> exists k :: 0 <= k < j && p == BlockPlacement(a, i, k)
  {
    if j > 0 {
      RowPlacementsCover(a, i, j - 1);
    }
  }
}
