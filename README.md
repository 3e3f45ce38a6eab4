# Finite-element assembly, element dof layouts and multi-point constraints in Dafny

This project models three pieces of the DOLFIN/DOLFINx finite-element library and proves properties of them.

- **The assembler** (`cpp/dolfin/fem/Assembler.cpp`). It turns bilinear and linear forms into a global matrix and a right-hand-side vector. The model covers:
  - the choice of storage and assembly path (nested, monolithic block, single);
  - the block offsets of the monolithic path;
  - the zeroing of constrained rows and columns of each element tensor;
  - the scatter-add of element vectors;
  - the copy of block vectors into one local vector;
  - the lifting of Dirichlet values into the right-hand side (`apply_bc`);
  - `set_bc`;
  - the unit diagonal placed on boundary rows on each path.

  Element tensors, cell dof lists, index-map sizes and the "space contains space" relation are inputs. The global matrix is a function from (row, column) to a real; vectors are arrays of reals.
  - Files: `results.dfy`, `boundary_values.dfy`, `assembler_layout.dfy`, `assembler_matrix.dfy`, `assembler_vector.dfy`, `assembler_blocks.dfy`.
- **The element dof layout** (`cpp/dolfinx/fem/ElementDofLayout.cpp`). For each topological dimension and each entity of the reference cell, it records the dofs on the entity and on its closure. The model covers:
  - the dof counts;
  - the check on the shape of the base-permutation array;
  - sub-layouts (`sub_dofmap`);
  - views (`sub_view`), which compose parent maps.

  A layout never changes after construction, so it is a datatype. The constructor is a method with the source's loops, proved equal to the function `Layout`.
  - File: `element_dof_layout.dfy`.
- **Multi-point constraints** (`cpp/dolfinx/fem/MultiPointConstraint.cpp`). A slave dof is expressed through master dofs and their coefficients. The object classifies cells into slave cells and normal cells and stores the slave entries of each slave cell in compressed-row (CSR) form. It then rewrites cell dof lists for the sparsity pattern.
  - The object is a class whose methods update its list fields.
  - The cell dof lists stand in for the mesh and dofmap.
  - The sparsity pattern is replaced by a log of the `insert_local` calls.
  - File: `multi_point_constraint.dfy`.

## Model

| member | source | states |
|---|---|---|
| AssemblerLayout.NewMatrixRule | cpp/dolfin/fem/Assembler.cpp:45-69 | An empty matrix becomes nested iff nested blocks are requested. It becomes monolithic iff monolithic blocks are requested and there is more than one block row or block column. Otherwise it is single. It is then assembled along the path of its new storage. |
| AssemblerLayout.ExistingMatrixPath | cpp/dolfin/fem/Assembler.cpp:71-77 | A given non-nested matrix takes the monolithic path iff the forms make a block matrix, whatever storage it has, and the single path otherwise. |
| AssemblerLayout.VectorRule | cpp/dolfin/fem/Assembler.cpp:278-309 | Vector assembly fails iff some linear form is missing. Otherwise an empty vector follows the matrix rule with one block column, where "block" means more than one linear form. |
| AssemblerLayout.MonolithicBlocks | cpp/dolfin/fem/Assembler.cpp:131-224 | The monolithic loop succeeds iff every block is present. On success its placements are one per block, at the prefix sums of the row heights and column widths. On failure it stops at the first missing block in row-major order and carries the placements made before it. |
| AssemblerLayout.ColumnRangesDisjoint | cpp/dolfin/fem/Assembler.cpp:138-211 | The column ranges of different blocks of one block row do not overlap. |
| AssemblerLayout.RowRangesDisjoint | cpp/dolfin/fem/Assembler.cpp:134-223 | The row ranges of different block rows do not overlap. |
| AssemblerLayout.PlacementsCoverBlocks | cpp/dolfin/fem/Assembler.cpp:135-219 | With every block present, a placement is produced iff it is the placement of some block (i, j). |
| AssemblerLayout.RowPlacementsCover | cpp/dolfin/fem/Assembler.cpp:139-212 | A block row's placements are exactly those of its blocks, in order. |
| BoundaryValues.CollectBoundaryValues | cpp/dolfin/fem/Assembler.cpp:474-497 | The loop over the conditions builds the boundary map from every condition whose space the target space contains, in order. |
| BoundaryValues.CollectedEntries | cpp/dolfin/fem/Assembler.cpp:474-497 | A dof is in the boundary map iff some contained condition supplies it. Its value is the one supplied by the last such condition. |
| MatrixAssembly.EliminateRowsAndColumns | cpp/dolfin/fem/Assembler.cpp:527-541 | After the in-place pass, an element-tensor entry is zero iff its test dof or its trial dof is constrained. Every other entry keeps its value. |
| MatrixAssembly.AssembleCells | cpp/dolfin/fem/Assembler.cpp:504-565 | The cell loop leaves the global matrix equal, entry by entry, to the initial matrix plus every cell's eliminated tensor added in turn. |
| MatrixAssembly.AssembleForm | cpp/dolfin/fem/Assembler.cpp:449-596 | `assemble(A, a, bcs)` collects each axis's boundary map from the conditions that axis's space contains. The result is the cell loop run with those two maps. |
| MatrixAssembly.EliminatedEntrySum | cpp/dolfin/fem/Assembler.cpp:527-562 | At a constrained row or column, the eliminated tensor adds nothing. At any other entry it adds exactly what the raw tensor adds. |
| MatrixAssembly.ConstrainedEntriesUntouched | cpp/dolfin/fem/Assembler.cpp:527-562 | After the cell loop, every entry in a constrained row or column keeps its initial value. |
| MatrixAssembly.FreeEntriesReceiveRawSums | cpp/dolfin/fem/Assembler.cpp:504-562 | After the cell loop, an entry with free row and free column is its initial value plus all raw element contributions to it. |
| MatrixAssembly.PlaceDiagonal | cpp/dolfin/fem/Assembler.cpp:194-200 | For a given rule, the loop over the boundary map sets 1 at (row, row) for each boundary row, or adds 1 there only when the row is below the owned size. No other entry changes. |
| MatrixAssembly.AssembleBlock | cpp/dolfin/fem/Assembler.cpp:166-201 | One block is assembled with both axes' boundary maps. The unit diagonal is placed by the given rule at the boundary rows exactly when the test and trial spaces are the same. |
| MatrixAssembly.AssembleBlockRow | cpp/dolfin/fem/Assembler.cpp:82-219 | One block row of the nested or monolithic loop. Each present block is assembled with its path's rule: set 1 on the nested path, add 1 below the test space's owned size on the monolithic path. A missing block is left alone on the nested path. On the monolithic path a missing block is an error. |
| MatrixAssembly.AssembleBlocks | cpp/dolfin/fem/Assembler.cpp:78-224 | The block loop succeeds iff the path is nested or every block is present. On success every block is either assembled with its path's rule or, when missing, unchanged. |
| MatrixAssembly.DiagonalByPath | cpp/dolfin/fem/Assembler.cpp:117-121 | At a boundary row of a square block, the nested and single paths leave exactly 1 on the diagonal. The monolithic path adds 1 to the starting entry at an owned row and leaves a ghost row's diagonal as it started (lines 194-199). |
| MatrixAssembly.MonolithicGhostRowsAssembledOnly | cpp/dolfin/fem/Assembler.cpp:194-199 | On the monolithic path every entry of a ghost row of a block is exactly the assembled entry: the diagonal placement never touches it. |
| MatrixAssembly.BoundaryRowsAndColumnsOfIdentity | cpp/dolfin/fem/Assembler.cpp:172-200 | Start from zero with one space on both axes. A boundary row or boundary column then becomes a row or column of the identity: 1 on the diagonal (on the monolithic path only for owned rows) and 0 elsewhere. |
| VectorAssembly.ScatterAddEntries | cpp/dolfin/fem/Assembler.cpp:655-656 | Scatter-adding an element vector leaves each entry at its old value plus the element entries aimed at it. |
| VectorAssembly.AssembleVector | cpp/dolfin/fem/Assembler.cpp:635-657 | The nested cell loop leaves the vector equal to the scatter-add of every cell's element vector, in order. |
| VectorAssembly.AssembledVectorEntries | cpp/dolfin/fem/Assembler.cpp:635-657 | Every entry is its initial value plus the sum of all element entries scattered to it. An entry that no cell touches is unchanged. |
| VectorAssembly.HasBoundaryDof | cpp/dolfin/fem/Assembler.cpp:705-714 | The early-exit search reports true iff some trial dof of the cell is in the boundary map. |
| VectorAssembly.LiftedEntryIsMinusRowTimesValues | cpp/dolfin/fem/Assembler.cpp:749-757 | A lifted entry is minus the element row applied to the cell's boundary values, with 0 at the free trial dofs. |
| VectorAssembly.LiftedEntryWithoutBc | cpp/dolfin/fem/Assembler.cpp:705-718 | Without a constrained trial dof, every lifted entry is zero, so skipping such cells changes nothing. |
| VectorAssembly.ComputeLifting | cpp/dolfin/fem/Assembler.cpp:746-757 | The column loop leaves the fresh element vector equal to the lifting: each row minus its constrained columns times their values. |
| VectorAssembly.SubtractColumn | cpp/dolfin/fem/Assembler.cpp:749-757 | One column step extends the lifting of every row by trial dof `j`. |
| VectorAssembly.ApplyBcRowsFromTrialDofs | cpp/dolfin/fem/Assembler.cpp:725 | On a one-cell example with different test and trial dofs, the code as written adds the lifting at the trial dof. The corrected version adds it at the test dof. |
| VectorAssembly.AppliedBcEntries | cpp/dolfin/fem/Assembler.cpp:696-761 | After `apply_bc`, each entry is its old value plus the lifted entries of all cell rows whose test dof is that entry. The lifted entries are summed over all cells, including the skipped ones. |
| VectorAssembly.ApplyBc | cpp/dolfin/fem/Assembler.cpp:660-766 | `apply_bc` leaves the vector equal to the lifting of the trial space's boundary map, added at the test dofs. |
| VectorAssembly.SetBc | cpp/dolfin/fem/Assembler.cpp:794-798 | On the window `[offset, offset + size)` it is handed, a boundary dof `d < size` sets entry `offset + d` to its value and larger dofs are ignored. The window becomes `WithBoundaryValues` of its old contents. Nothing else changes. |
| VectorAssembly.SetBcForm | cpp/dolfin/fem/Assembler.cpp:768-799 | `set_bc(b, L, bcs)` collects the boundary map from the conditions that the test space of `L` contains, then sets those values in the window. Entries outside the window are unchanged. |
| VectorAssembly.AssembleSingleVector | cpp/dolfin/fem/Assembler.cpp:412-434 | The single vector path assembles the local form (owned entries, then ghosts) and applies `set_bc` only to the owned entries. |
| VectorAssembly.SetBcIdempotent | cpp/dolfin/fem/Assembler.cpp:794-798 | Setting the boundary values twice is the same as setting them once. |
| VectorAssembly.SetBcOverridesAssembly | cpp/dolfin/fem/Assembler.cpp:412-434 | On the single path, an owned boundary dof ends with its boundary value, whatever was scattered to it. Every other entry is its initial value plus all element entries scattered to it; this includes a ghost entry that has a boundary value. |
| BlockVector.TotalsGrow | cpp/dolfin/fem/Assembler.cpp:361-371 | The owned and ghost windows of an earlier block end before those of a later block begin. |
| BlockVector.BlockOffsets | cpp/dolfin/fem/Assembler.cpp:361-371 | `offset0` is the sum of the owned sizes of the earlier blocks. `offset1` is the total owned size plus the ghost sizes of the earlier blocks. |
| BlockVector.CopyRange | cpp/dolfin/fem/Assembler.cpp:385-388 | The copy loop writes the source into the window starting at the offset and changes nothing else. |
| BlockVector.CopyBlock | cpp/dolfin/fem/Assembler.cpp:384-388 | A block's owned entries land from `offset0` on and its ghost entries from `offset1` on. Nothing else changes. |
| BlockVector.CopyNext | cpp/dolfin/fem/Assembler.cpp:355-389 | One pass of the block loop extends the copied owned and ghost prefixes by block `i` and leaves the tail alone. |
| BlockVector.CopyBlocks | cpp/dolfin/fem/Assembler.cpp:355-389 | The local vector holds the owned entries of all blocks, block after block, then the ghost entries of all blocks, block after block. The tail is unchanged. |
| BlockVector.OwnedPartsAt | cpp/dolfin/fem/Assembler.cpp:385-386 | Owned entry `k` of block `i` sits at the owned sizes of the earlier blocks plus `k`. |
| BlockVector.GhostPartsAt | cpp/dolfin/fem/Assembler.cpp:387-388 | Ghost entry `k` of block `i` sits after all owned entries, at the ghost sizes of the earlier blocks plus `k`. |
| BlockVector.SetBcBlocks | cpp/dolfin/fem/Assembler.cpp:397-410 | Each block's boundary values land in that block's window of owned entries only. Entries past the owned part are unchanged. |
| DofLayouts.SubDofsMembers | cpp/dolfinx/fem/ElementDofLayout.cpp:49-61 | A dof is among the listed sub-entities' dofs iff one listed sub-entity carries it. |
| DofLayouts.ClosureMembers | cpp/dolfinx/fem/ElementDofLayout.cpp:42-62 | An entity's closure set holds its own dofs and the dofs of every sub-entity listed for it, and nothing else. |
| DofLayouts.InsertAll | cpp/dolfinx/fem/ElementDofLayout.cpp:53-59 | The insert loop over the sub-entities of one dimension adds exactly their dofs. |
| DofLayouts.InsertEntry | cpp/dolfinx/fem/ElementDofLayout.cpp:43-61 | One closure entry grows only its own entity's set, by its sub-entities' dofs. |
| DofLayouts.ComputeClosure | cpp/dolfinx/fem/ElementDofLayout.cpp:42-62 | The loop over the closure map produces the closure sets. |
| DofLayouts.CountDofs | cpp/dolfinx/fem/ElementDofLayout.cpp:64-79 | The counting loop gives, per dimension, the first entity's set size (0 for absent dimensions) for both dofs and closure dofs, and the sum of all entity set sizes. |
| DofLayouts.TotalDofsUniform | cpp/dolfinx/fem/ElementDofLayout.cpp:68-79 | When all entities of a dimension carry equally many dofs, `num_dofs` is the sum over dimensions of the dofs per entity times the entity count. |
| DofLayouts.PermCountByCell | cpp/dolfinx/fem/ElementDofLayout.cpp:82-89 | The expected number of permutation rows is 0 for an interval, the number of edges for a 2D cell, and edges plus twice the faces for a 3D cell. |
| DofLayouts.Build | cpp/dolfinx/fem/ElementDofLayout.cpp:19-99 | The constructor's loops give exactly the layout, or the shape error, that `Layout` describes. |
| DofLayouts.BuildChecksPermutationShape | cpp/dolfinx/fem/ElementDofLayout.cpp:81-98 | Construction fails iff the permutation array does not have `PermCount` rows and `num_dofs` columns. A built layout has `num_dofs` equal to the column count and is a view iff it was given a parent map. |
| DofLayouts.BuiltCounts | cpp/dolfinx/fem/ElementDofLayout.cpp:110-118 | On a built layout, `num_entity_dofs(dim)` and `num_entity_closure_dofs(dim)` are the first entity's set sizes for the dimensions present, 0 for the other dimensions below 4, and out of range otherwise. |
| DofLayouts.Copy | cpp/dolfinx/fem/ElementDofLayout.cpp:101-106 | A copy is not a view and equals the original except for its parent map. |
| DofLayouts.SortedElements | cpp/dolfinx/fem/ElementDofLayout.cpp:125-126 | A set's elements come out strictly increasing, each exactly once. |
| DofLayouts.EntityDofs | cpp/dolfinx/fem/ElementDofLayout.cpp:120-128 | The entity's dofs are returned in ascending order, with length equal to the set size, iff dimension and index are in range. Otherwise the result is out of range. |
| DofLayouts.EntityClosureDofs | cpp/dolfinx/fem/ElementDofLayout.cpp:130-139 | The same as `EntityDofs`, for the closure sets. |
| DofLayouts.DescendAppend | cpp/dolfinx/fem/ElementDofLayout.cpp:156-169 | Following a component path in two parts is following the second part from where the first ends. |
| DofLayouts.SubDofmap | cpp/dolfinx/fem/ElementDofLayout.cpp:155-169 | An empty component is an error. Otherwise each index selects from the sub-layouts of the layout reached so far, and the result is out of range at the first bad index. |
| DofLayouts.SubDofmapNestedPath | cpp/dolfinx/fem/ElementDofLayout.cpp:162-166 | On a two-level path, the code as written returns the first-level layout again. The corrected version returns the second-level layout. |
| DofLayouts.ViewStepIs | cpp/dolfinx/fem/ElementDofLayout.cpp:187-190 | A view step's list is `new[j] = old[parent_map[j]]` for every dof `j` of the sub-layout. |
| DofLayouts.SubView | cpp/dolfinx/fem/ElementDofLayout.cpp:171-194 | `sub_view` starts from `[0, num_dofs * block_size)` and rebuilds the list once per index. The result is "invalid component" at an index at or beyond the sub-layout count. |
| DofLayouts.ViewFailureSticks | cpp/dolfinx/fem/ElementDofLayout.cpp:179-191 | An error at some index of the component is the result of the whole call. |
| DofLayouts.ViewAtIsSubLayout | cpp/dolfinx/fem/ElementDofLayout.cpp:171-194 | A successful view ends at the layout `sub_dofmap` gives for the same path. It has one entry per dof of that layout, and every entry is a dof of the blocked parent list. |
| DofLayouts.SingleComponentView | cpp/dolfinx/fem/ElementDofLayout.cpp:175-190 | A one-index view is the sub-layout's parent map restricted to its `num_dofs` entries. |
| DofLayouts.ViewOfCopy | cpp/dolfinx/fem/ElementDofLayout.cpp:101-106 | A copy has the same views as the original, for every non-empty component. |
| DofLayouts.SubViewNestedPath | cpp/dolfinx/fem/ElementDofLayout.cpp:185 | On a two-level path, the code as written selects with the first-level parent map twice and gives `[0, 1]`. The corrected version gives `[1]`. |
| MultiPointConstraints.OccurrencesFacts | cpp/dolfinx/fem/MultiPointConstraint.cpp:85-93 | The entries recorded for one slave are all that slave, and there is one iff the slave occurs in the cell. |
| MultiPointConstraints.SlaveHitsFacts | cpp/dolfinx/fem/MultiPointConstraint.cpp:83-94 | Every entry recorded for a cell is a slave, and there is one iff the cell holds some slave dof. |
| MultiPointConstraints.ClassifyExtend | cpp/dolfinx/fem/MultiPointConstraint.cpp:77-104 | Classifying one more cell appends it to the slave cells (with its entries and a new offset) or to the normal cells. |
| MultiPointConstraints.AppendDecide | cpp/dolfinx/fem/MultiPointConstraint.cpp:95-103 | A cell's decision applied after an earlier run's lists equals the earlier lists followed by the decision applied to the new run. |
| MultiPointConstraints.CsrStep | cpp/dolfinx/fem/MultiPointConstraint.cpp:95-99 | Appending a slave cell with its entries keeps the offsets a valid CSR encoding and keeps the earlier cells' slices. |
| MultiPointConstraints.ClassifyCsr | cpp/dolfinx/fem/MultiPointConstraint.cpp:75-104 | The offsets start at 0, increase strictly, and have one more entry than the slave cells. The last offset is the entry count. The slice of slave cell `i` is exactly that cell's slave entries. |
| MultiPointConstraints.ClassifyBounds | cpp/dolfinx/fem/MultiPointConstraint.cpp:77-104 | The two lists together have one entry per cell, and every entry is a cell index. |
| MultiPointConstraints.ClassifyEntries | cpp/dolfinx/fem/MultiPointConstraint.cpp:83-94 | Every recorded cell-to-slave entry is a slave. |
| MultiPointConstraints.ClassifyOrdered | cpp/dolfinx/fem/MultiPointConstraint.cpp:77-104 | Both lists are strictly increasing, in iteration order. |
| MultiPointConstraints.ClassifyMembership | cpp/dolfinx/fem/MultiPointConstraint.cpp:77-104 | A cell is a slave cell iff entries were recorded for it, and a normal cell iff none were. |
| MultiPointConstraints.ClassifyPartition | cpp/dolfinx/fem/MultiPointConstraint.cpp:77-104 | Every cell is in exactly one list: the slave cells iff one of its dofs is a slave. |
| MultiPointConstraints.RunCached | cpp/dolfinx/fem/MultiPointConstraint.cpp:67-76 | Re-running the classification while no slave cell exists appends another copy of the normal cells and of the leading offset. |
| MultiPointConstraints.MultiPointConstraint.constructor | cpp/dolfinx/fem/MultiPointConstraint.cpp:18-27 | The constructor stores its inputs and classifies once. |
| MultiPointConstraints.MultiPointConstraint.CellClassification | cpp/dolfinx/fem/MultiPointConstraint.cpp:62-106 | With slave cells already present, the call returns the cached lists and changes nothing. Otherwise it appends a full classification run to the lists. |
| MultiPointConstraints.MultiPointConstraint.RunClassification | cpp/dolfinx/fem/MultiPointConstraint.cpp:73-104 | The cell loop appends the classification of all cells to the four lists. |
| MultiPointConstraints.MultiPointConstraint.ClassifyCell | cpp/dolfinx/fem/MultiPointConstraint.cpp:79-103 | One pass of the cell loop applies that cell's decision to the lists: a cell with slave entries becomes a slave cell and closes its range at the new counter, any other cell becomes a normal cell. |
| MultiPointConstraints.MultiPointConstraint.RecordSlaveHits | cpp/dolfinx/fem/MultiPointConstraint.cpp:81-94 | The slave-major double loop appends the cell's slave entries, advances the counter by their number, and flags the cell iff there was one. |
| MultiPointConstraints.MultiPointConstraint.RecordOccurrences | cpp/dolfinx/fem/MultiPointConstraint.cpp:85-93 | The dof loop appends the slave once per dof equal to it, advances the counter by that number, and reports whether there was one. |
| MultiPointConstraints.MultiPointConstraint.CellToSlaveMapping | cpp/dolfinx/fem/MultiPointConstraint.cpp:108-112 | The call returns the stored entries and offsets. |
| MultiPointConstraints.MultiPointConstraint.Masters | cpp/dolfinx/fem/MultiPointConstraint.cpp:29-41 | The masters of slave `i` are the slice between `offsets[i]` and `offsets[i+1]`, empty when that range is empty. |
| MultiPointConstraints.MultiPointConstraint.Coefficients | cpp/dolfinx/fem/MultiPointConstraint.cpp:43-53 | The coefficients of slave `i` are the same slice of the coefficient list. |
| MultiPointConstraints.LastIndex | cpp/dolfinx/fem/MultiPointConstraint.cpp:139-148 | The slave index is the last position holding the dof, or 0 when the dof is not a slave. |
| MultiPointConstraints.SlaveIndex | cpp/dolfinx/fem/MultiPointConstraint.cpp:139-148 | The search loop finds that last position. |
| MultiPointConstraints.MasterSlavePairsFacts | cpp/dolfinx/fem/MultiPointConstraint.cpp:173-185 | Each occurrence of the slave in the cell contributes a (master, slave) pair, master first. |
| MultiPointConstraints.RewriteCellDofs | cpp/dolfinx/fem/MultiPointConstraint.cpp:163-186 | The rewritten dof list replaces every occurrence of the slave by the master and keeps every other dof. The pair list has two entries per occurrence. |
| MultiPointConstraints.InsertForMasters | cpp/dolfinx/fem/MultiPointConstraint.cpp:153-190 | Each master of a slave leads to two insertions: the rewritten dof lists, then the (master, slave) pairs. |
| MultiPointConstraints.InsertForCell | cpp/dolfinx/fem/MultiPointConstraint.cpp:137-191 | The insertions for one cell are those of each slave entry of the cell, each slave entry paired with its masters through the slave index. |
| MultiPointConstraints.MultiPointConstraint.GenerateSparsityPattern | cpp/dolfinx/fem/MultiPointConstraint.cpp:114-195 | On a classified object, the insertion log is the insertions for every slave cell in order, read through its CSR slice. The stored CSR arrays are in range. |
| MultiPointConstraints.CachedRanges | cpp/dolfinx/fem/MultiPointConstraint.cpp:62-106 | Whatever the number of runs, the cached lists form valid CSR ranges over the cells, and every recorded entry is a slave. |
| MultiPointConstraints.CachedWhenSlaveCellsExist | cpp/dolfinx/fem/MultiPointConstraint.cpp:67-71 | When some cell holds a slave dof, the first classification finds a slave cell, so later calls return the cache. |
| MultiPointConstraints.NoSlaveCells | cpp/dolfinx/fem/MultiPointConstraint.cpp:67-104 | Without slave dofs in any cell, a run lists every cell as normal, in order, and records nothing. A rerun therefore lists every cell twice. |

## Left out

- MPI: the `gather` of boundary values and the ghost updates (`VecGhostUpdateBegin/End`, `apply`) are communication. The model is one process, and the ghost entries are only copied.
- PETSc objects: matrix and vector types, `MatNest` sub-matrices, index sets, `MatGetLocalSubMatrix` and block sizes of index sets are storage. The storage type is an input to the path choice.
- `MatrixAssembly.AssembleBlocks`: each block is assembled into its own sub-matrix, given as an input. On the monolithic path that sub-matrix is the local view at the block's offsets; where the view sits is stated by `AssemblerLayout.MonolithicBlocks`, but writing through the view into the one big matrix is not modelled.
- `MatrixAssembly.AssembleBlocks`: after the monolithic path throws at a missing block, the contents of the blocks assembled before it are not stated. Which placements were made before the throw is stated by `AssemblerLayout.MonolithicBlocks`.
- The single matrix path is `MatrixAssembly.AssembleBlock` on `a[0][0]` with `MatrixAssembly.RuleFor(SingleLayout, …)`. It has no separate member. A missing `a[0][0]` is a null dereference there and is not modelled.
- `tabulate_tensor`, the mesh, cell coordinates and the dofmaps are external. Element tensors and cell dof lists are inputs.
- `DirichletBC::get_boundary_values` is external. A condition is its dof-to-value map, merged into the target map so that a later condition overrides an earlier one. Whether a space contains another is an input relation.
- The nested vector path calls the same single-vector assembly and `set_bc` per block. It has no separate member.
- The convenience overload `assemble(A, b)` only calls the two assemblies in turn.
- The constructor of the assembler only asserts non-empty input.
- Floating point: all values are `real`, so rounding is not modelled.
- Integer widths: counts and offsets are unbounded. A 32-bit `int` offset overflow is not modelled.
- Entries of the base-permutation array are stored but not examined; the source checks only its shape.
- `mesh::cell_entity_closure` is external. The closure map is given as a sequence of entries in key order.
- The source's assertions on the closure map are preconditions of `DofLayouts.Build`, and so is the non-empty first entity of every dimension.
- `DofLayouts.Build` requires between 1 and 4 dimensions of entity dofs. The source keeps the counts in arrays of 4 and reads `entity_dofs.size() - 1` as the cell dimension (`cpp/dolfinx/fem/ElementDofLayout.cpp:82-83`); any other size is undefined behaviour there.
- `entity_dofs_all`, `entity_closure_dofs_all`, `num_sub_dofmaps`, `block_size` and `num_dofs` only read a field.
- The sub-layout pointers are values. Sharing between layouts is not modelled.
- `DofLayouts.ViewAt`: a parent-map read beyond the parent map or beyond the current list is undefined behaviour in the source. It is reported as `ParentMapOutOfRange`.
- `MultiPointConstraints.MultiPointConstraint.Masters` requires `offsets[i+1]` to exist and the slice to lie inside the master list. The source's own assertion compares `i` with the master count, which does not guard these reads. `Coefficients` is treated the same way.
- `MultiPointConstraints.MultiPointConstraint.GenerateSparsityPattern` requires a classified object. Its call to `slave_cells()` only reads the list. The two dofmaps are inputs, one cell dof list per cell. It also requires the master offsets to form valid ranges over the master list (`MasterOffsetsValid`); the source reads the masters through these offsets without checking them, and a bad offset is an out-of-bounds read there.
- `SparsityPattern::insert_local` is external. Each call is recorded in a log.
- `MultiPointConstraint`: the debug output in `masters` and the remaining getters (`slave_cells`, `slaves`, `masters_and_coefficients`) are not modelled.
- The comment at `cpp/dolfinx/fem/ElementDofLayout.cpp:30-32` counts `4*num_volumes` permutation rows. The loop never reaches the cell's own dimension, and the model follows the loop.

## Findings

| source | as written | input that shows it | evidently intended | confidence | as-written member | corrected member |
|---|---|---|---|---|---|---|
| cpp/dolfin/fem/Assembler.cpp:725 | `apply_bc` fetches `dmap0` from `dofmap1`. The lifting is sized by, and added at, the trial dofs. | One cell, test dofs `[0]`, trial dofs `[1]`, tensor `[[2]]`, boundary value 1 at dof 1, `b = [0, 0]`. As written `b = [0, -2]`. Lemma `VectorAssembly.ApplyBcRowsFromTrialDofs`. | Fetch `dmap0` from `dofmap0`, giving `b = [-2, 0]`. | not executed; the two agree whenever test and trial spaces share a dofmap | VectorAssembly.AppliedBcAsWritten | VectorAssembly.AppliedBc |
| cpp/dolfinx/fem/ElementDofLayout.cpp:162-166 | `sub_dofmap` selects every index of the component from this layout's own sub-layouts. | `Top()` with component `[0, 0]` returns `Middle()`, not `Leaf()`. Lemma `DofLayouts.SubDofmapNestedPath`. | Select each index from the layout reached so far. | not executed | DofLayouts.SubDofmapAsWritten | DofLayouts.SubDofmap |
| cpp/dolfinx/fem/ElementDofLayout.cpp:185 | `sub_view` checks the index against the current layout but steps to `_sub_dofmaps.at(i)` of this layout. | `Top()` with component `[0, 0]` gives `[0, 1]`, not `[1]`. Lemma `DofLayouts.SubViewNestedPath`. | Step to the current layout's sub-layout `i`. | not executed | DofLayouts.ViewAtAsWritten | DofLayouts.SubView |
