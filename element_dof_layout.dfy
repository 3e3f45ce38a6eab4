/**
 * The dof layout of one finite element (cpp/dolfinx/fem/ElementDofLayout.cpp).
 *
 * A layout records, for each topological dimension of the reference cell and
 * each entity of that dimension, the set of local dofs attached to the
 * entity (`entityDofs`) and the set attached to the entity's closure
 * (`entityClosureDofs`).  A layout of a mixed or blocked element also holds
 * the layouts of its sub-elements; a layout that is a view into a parent
 * layout has a non-empty parent map.  Layouts are never changed after
 * construction, so they are values here.
 */
module DofLayouts {
  import opened Results

  /** The shape and entries of the base permutation array. */
  datatype PermutationArray = PermutationArray(rows: nat, cols: nat, entries: seq<int>)

  datatype ElementDofLayout = ElementDofLayout(
    blockSize: nat,
    parentMap: seq<int>,
    numDofs: nat,
    entityDofs: seq<seq<set<nat>>>,
    entityClosureDofs: seq<seq<set<nat>>>,
    numEntityDofs: seq<nat>,
    numEntityClosureDofs: seq<nat>,
    subDofmaps: seq<ElementDofLayout>,
    basePermutations: PermutationArray)

  /**
   * The exceptions the source throws: the permutation shape check, an empty
   * component, an invalid component, an `.at` out of range, and an index read
   * through a parent map that falls outside the list it selects from.
   */
  datatype LayoutError =
    | WrongPermutationShape(expectedRows: nat, expectedCols: nat)
    | NoSubDofmap
    | InvalidComponent
    | OutOfRange
    | ParentMapOutOfRange

  /**
   * One entry of the reference cell's closure map: entity `index` of
   * dimension `dim`, and for each sub-dimension the entities in its closure.
   */
  datatype ClosureEntry = ClosureEntry(dim: nat, index: nat, subEntities: seq<set<nat>>)

  // ---------------------------------------------------------------------------
  // Closure sets
  // ---------------------------------------------------------------------------

  /** A closure entry names entities that exist in `entityDofs`. */
  predicate EntryFits(entityDofs: seq<seq<set<nat>>>, e: ClosureEntry) {
    && e.dim < |entityDofs| && e.index < |entityDofs[e.dim]|
    && |e.subEntities| <= |entityDofs|
    && forall subdim, i :: 0 <= subdim < |e.subEntities| && i in e.subEntities[subdim] ==> i < |entityDofs[subdim]|
  }

  predicate ClosureFits(entityDofs: seq<seq<set<nat>>>, entries: seq<ClosureEntry>) {
    forall k :: 0 <= k < |entries| ==> EntryFits(entityDofs, entries[k])
  }

  /** The dofs of the entities `idxs` of one dimension, united. */
  function UnionOf(level: seq<set<nat>>, idxs: set<nat>): set<nat>
    requires forall i :: i in idxs ==> i < |level|
  {
    set i, d | i in idxs && d in level[i] :: d
  }

  /** The dofs of the listed sub-entities, over all sub-dimensions. */
  function SubDofs(entityDofs: seq<seq<set<nat>>>, subs: seq<set<nat>>): set<nat>
    requires |subs| <= |entityDofs|
    requires forall subdim, i :: 0 <= subdim < |subs| && i in subs[subdim] ==> i < |entityDofs[subdim]|
  {
    if |subs| == 0 then {}
    else
      var n := |subs| - 1;
      SubDofs(entityDofs, subs[..n]) + UnionOf(entityDofs[n], subs[n])
  }

  /**
   * The closure sets after the first `|entries|` closure entries: each entry
   * adds its sub-entities' dofs to its own entity's set.
   */
  function Closure(entityDofs: seq<seq<set<nat>>>, entries: seq<ClosureEntry>): (r: seq<seq<set<nat>>>)
    requires ClosureFits(entityDofs, entries)
    ensures |r| == |entityDofs| && forall dim :: 0 <= dim < |r| ==> |r[dim]| == |entityDofs[dim]|
  {
    if |entries| == 0 then entityDofs
    else
      var n := |entries| - 1;
      var prev := Closure(entityDofs, entries[..n]);
      var e := entries[n];
      prev[e.dim := prev[e.dim][e.index := prev[e.dim][e.index] + SubDofs(entityDofs, e.subEntities)]]
  }

  /** A dof is in the listed sub-entities' dofs iff one of them carries it. */
  lemma {:induction false} SubDofsMembers(entityDofs: seq<seq<set<nat>>>, subs: seq<set<nat>>, d: nat)
    requires |subs| <= |entityDofs|
    requires forall subdim, i :: 0 <= subdim < |subs| && i in subs[subdim] ==> i < |entityDofs[subdim]|
    ensures d in SubDofs(entityDofs, subs) <==>
      exists subdim, i :: 0 <= subdim < |subs| && i in subs[subdim] && d in entityDofs[subdim][i]
  {
    if |subs| > 0 {
      var n := |subs| - 1;
      SubDofsMembers(entityDofs, subs[..n], d);
      if d in SubDofs(entityDofs, subs[..n]) {
        var subdim, i :| 0 <= subdim < n && i in subs[..n][subdim] && d in entityDofs[subdim][i];
        assert subs[..n][subdim] == subs[subdim];
      }
      if exists subdim, i :: 0 <= subdim < |subs| && i in subs[subdim] && d in entityDofs[subdim][i] {
        var subdim, i :| 0 <= subdim < |subs| && i in subs[subdim] && d in entityDofs[subdim][i];
        if subdim < n {
          assert subs[..n][subdim] == subs[subdim];
        }
      }
    }
  }

  /**
   * The closure set of an entity holds its own dofs and the dofs of every
   * sub-entity listed for it in the closure map, and nothing else.
   */
  lemma {:induction false} ClosureMembers(entityDofs: seq<seq<set<nat>>>, entries: seq<ClosureEntry>, dim: nat, index: nat, d: nat)
    requires ClosureFits(entityDofs, entries) && dim < |entityDofs| && index < |entityDofs[dim]|
    ensures d in Closure(entityDofs, entries)[dim][index] <==>
      || d in entityDofs[dim][index]
      || exists k :: && 0 <= k < |entries| && entries[k].dim == dim && entries[k].index == index
                     && d in SubDofs(entityDofs, entries[k].subEntities)
  {
    if |entries| > 0 {
      var n := |entries| - 1;
      assert ClosureFits(entityDofs, entries[..n]) by {
        forall k | 0 <= k < n ensures EntryFits(entityDofs, entries[..n][k]) {
          assert entries[..n][k] == entries[k];
        }
      }
      ClosureMembers(entityDofs, entries[..n], dim, index, d);
      forall k | 0 <= k < n ensures entries[..n][k] == entries[k] { }
    }
  }

  // ---------------------------------------------------------------------------
  // Counts and the permutation shape
  // ---------------------------------------------------------------------------

  /** The sizes of the dof sets of one dimension, summed. */
  function DimDofs(level: seq<set<nat>>): nat {
    if |level| == 0 then 0 else DimDofs(level[..|level| - 1]) + |level[|level| - 1]|
  }

  /** The sizes of all entity dof sets, summed over all dimensions. */
  function TotalDofs(entityDofs: seq<seq<set<nat>>>): nat {
    if |entityDofs| == 0 then 0
    else TotalDofs(entityDofs[..|entityDofs| - 1]) + DimDofs(entityDofs[|entityDofs| - 1])
  }

  /** Per dimension (four of them), the size of the first entity's set; 0 for absent dimensions. */
  function Counts(sets: seq<seq<set<nat>>>): seq<nat> {
    seq(4, dim requires 0 <= dim < 4 => if dim < |sets| && |sets[dim]| > 0 then |sets[dim][0]| else 0)
  }

  /** Base permutations per entity of each dimension. */
  const PermsPerDim: seq<nat> := [0, 1, 2, 4]

  /** The expected number of permutation rows over the first `n` dimensions. */
  function PermSum(entityDofs: seq<seq<set<nat>>>, n: nat): nat
    requires n <= |entityDofs| && n <= 4
  {
    if n == 0 then 0 else PermSum(entityDofs, n - 1) + PermsPerDim[n - 1] * |entityDofs[n - 1]|
  }

  /** The expected number of permutation rows: every dimension below the cell's own. */
  function PermCount(entityDofs: seq<seq<set<nat>>>): nat
    requires 1 <= |entityDofs| <= 4
  {
    PermSum(entityDofs, |entityDofs| - 1)
  }

  /**
   * The rows expected per cell dimension: none for an interval, one per edge
   * for a 2D cell, one per edge plus two per face for a 3D cell.  The cell's
   * own dimension never contributes.
   */
  lemma PermCountByCell(entityDofs: seq<seq<set<nat>>>)
    requires 1 <= |entityDofs| <= 4
    ensures |entityDofs| <= 2 ==> PermCount(entityDofs) == 0
    ensures |entityDofs| == 3 ==> PermCount(entityDofs) == |entityDofs[1]|
    ensures |entityDofs| == 4 ==> PermCount(entityDofs) == |entityDofs[1]| + 2 * |entityDofs[2]|
  {
    assert PermSum(entityDofs, 1) == 0;
    if |entityDofs| >= 3 {
      assert PermSum(entityDofs, 2) == |entityDofs[1]|;
    }
  }

  /** Entities of one dimension all carry as many dofs as the first. */
  predicate Uniform(entityDofs: seq<seq<set<nat>>>) {
    forall dim, e :: 0 <= dim < |entityDofs| && 0 <= e < |entityDofs[dim]| ==> |entityDofs[dim][e]| == |entityDofs[dim][0]|
  }

  /** The sum over dimensions of (dofs per entity) times (number of entities). */
  function CountTimesEntities(entityDofs: seq<seq<set<nat>>>): nat
    requires forall dim :: 0 <= dim < |entityDofs| ==> |entityDofs[dim]| > 0
  {
    if |entityDofs| == 0 then 0
    else
      var n := |entityDofs| - 1;
      CountTimesEntities(entityDofs[..n]) + |entityDofs[n][0]| * |entityDofs[n]|
  }

  lemma {:induction false} DimDofsUniform(level: seq<set<nat>>, size: nat)
    requires forall e :: 0 <= e < |level| ==> |level[e]| == size
    ensures DimDofs(level) == size * |level|
  {
    if |level| > 0 {
      DimDofsUniform(level[..|level| - 1], size);
    }
  }

  /**
   * When every entity of a dimension carries the same number of dofs, the
   * total is the sum over dimensions of that number times the entity count.
   */
  lemma {:induction false} TotalDofsUniform(entityDofs: seq<seq<set<nat>>>)
    requires forall dim :: 0 <= dim < |entityDofs| ==> |entityDofs[dim]| > 0
    requires Uniform(entityDofs)
    ensures TotalDofs(entityDofs) == CountTimesEntities(entityDofs)
  {
    if |entityDofs| > 0 {
      var n := |entityDofs| - 1;
      var init := entityDofs[..n];
      assert Uniform(init) by {
        forall dim, e | 0 <= dim < n && 0 <= e < |init[dim]| ensures |init[dim][e]| == |init[dim][0]| {
          assert init[dim] == entityDofs[dim];
        }
      }
      TotalDofsUniform(init);
      DimDofsUniform(entityDofs[n], |entityDofs[n][0]|);
    }
  }

  // ---------------------------------------------------------------------------
  // Construction
  // ---------------------------------------------------------------------------

  /**
   * What the source's constructor demands of its arguments (its assertions):
   * one to four dimensions, every dimension with at least one entity, and a
   * closure map naming existing entities only.
   */
  predicate ValidInput(entityDofs: seq<seq<set<nat>>>, entries: seq<ClosureEntry>) {
    && 1 <= |entityDofs| <= 4
    && (forall dim :: 0 <= dim < |entityDofs| ==> |entityDofs[dim]| > 0)
    && ClosureFits(entityDofs, entries)
  }

  /** The layout the constructor builds, or the shape error it throws. */
  function Layout(blockSize: nat, entityDofs: seq<seq<set<nat>>>, parentMap: seq<int>,
                  subDofmaps: seq<ElementDofLayout>, entries: seq<ClosureEntry>,
                  perms: PermutationArray): Result<ElementDofLayout, LayoutError>
    requires ValidInput(entityDofs, entries)
  {
    var rows, cols := PermCount(entityDofs), TotalDofs(entityDofs);
    if perms.rows != rows || perms.cols != cols then Failure(WrongPermutationShape(rows, cols))
    else
      var closure := Closure(entityDofs, entries);
      Success(ElementDofLayout(blockSize, parentMap, cols, entityDofs, closure,
                               Counts(entityDofs), Counts(closure), subDofmaps, perms))
  }

  /** Adds the dofs of the entities `idxs` of one dimension to `dofs`. */
  method InsertAll(dofs: set<nat>, level: seq<set<nat>>, idxs: set<nat>) returns (r: set<nat>)
    requires forall i :: i in idxs ==> i < |level|
    ensures r == dofs + UnionOf(level, idxs)
  {
    r := dofs;
    var todo := idxs;
    while todo != {}
      invariant todo <= idxs
      invariant r == dofs + UnionOf(level, idxs - todo)
      decreases |todo|
    {
      var i :| i in todo;
      assert UnionOf(level, idxs - (todo - {i})) == UnionOf(level, idxs - todo) + level[i];
      r := r + level[i];
      todo := todo - {i};
    }
  }

  /** One closure entry: its sub-entities' dofs are inserted into its entity's set. */
  method InsertEntry(closure: seq<seq<set<nat>>>, entityDofs: seq<seq<set<nat>>>, e: ClosureEntry)
    returns (r: seq<seq<set<nat>>>)
    requires EntryFits(entityDofs, e)
    requires |closure| == |entityDofs| && forall dim :: 0 <= dim < |closure| ==> |closure[dim]| == |entityDofs[dim]|
    ensures r == closure[e.dim := closure[e.dim][e.index := closure[e.dim][e.index] + SubDofs(entityDofs, e.subEntities)]]
  {
    var dofs := closure[e.dim][e.index];
    for subdim := 0 to |e.subEntities|
      invariant dofs == closure[e.dim][e.index] + SubDofs(entityDofs, e.subEntities[..subdim])
    {
      assert e.subEntities[..subdim + 1][..subdim] == e.subEntities[..subdim];
      dofs := InsertAll(dofs, entityDofs[subdim], e.subEntities[subdim]);
    }
    assert e.subEntities[..|e.subEntities|] == e.subEntities;
    r := closure[e.dim := closure[e.dim][e.index := dofs]];
  }

  /** The loop over the closure map, starting from the entity dofs. */
  method ComputeClosure(entityDofs: seq<seq<set<nat>>>, entries: seq<ClosureEntry>) returns (closure: seq<seq<set<nat>>>)
    requires ClosureFits(entityDofs, entries)
    ensures closure == Closure(entityDofs, entries)
  {
    closure := entityDofs;
    for k := 0 to |entries|
      invariant ClosureFits(entityDofs, entries[..k])
      invariant closure == Closure(entityDofs, entries[..k])
    {
      assert entries[..k + 1][..k] == entries[..k] && entries[..k + 1][k] == entries[k];
      assert ClosureFits(entityDofs, entries[..k + 1]);
      closure := InsertEntry(closure, entityDofs, entries[k]);
    }
    assert entries[..|entries|] == entries;
  }

  /** The counting loop: per-dimension counts of the first entity, and the total. */
  method CountDofs(entityDofs: seq<seq<set<nat>>>, closure: seq<seq<set<nat>>>)
    returns (numEntityDofs: seq<nat>, numEntityClosureDofs: seq<nat>, numDofs: nat)
    requires |entityDofs| <= 4 && |closure| == |entityDofs|
    requires forall dim :: 0 <= dim < |entityDofs| ==> |entityDofs[dim]| > 0 && |closure[dim]| > 0
    ensures numEntityDofs == Counts(entityDofs) && numEntityClosureDofs == Counts(closure)
    ensures numDofs == TotalDofs(entityDofs)
  {
    numEntityDofs, numEntityClosureDofs, numDofs := [0, 0, 0, 0], [0, 0, 0, 0], 0;
    for dim := 0 to |entityDofs|
      invariant |numEntityDofs| == 4 && |numEntityClosureDofs| == 4
      invariant forall t :: 0 <= t < 4 ==> numEntityDofs[t] == if t < dim then |entityDofs[t][0]| else 0
      invariant forall t :: 0 <= t < 4 ==> numEntityClosureDofs[t] == if t < dim then |closure[t][0]| else 0
      invariant numDofs == TotalDofs(entityDofs[..dim])
    {
      numEntityDofs := numEntityDofs[dim := |entityDofs[dim][0]|];
      numEntityClosureDofs := numEntityClosureDofs[dim := |closure[dim][0]|];
      assert entityDofs[..dim + 1][..dim] == entityDofs[..dim];
      var level := entityDofs[dim];
      for index := 0 to |level|
        invariant numDofs == TotalDofs(entityDofs[..dim]) + DimDofs(level[..index])
      {
        assert level[..index + 1][..index] == level[..index];
        numDofs := numDofs + |level[index]|;
      }
      assert level[..|level|] == level;
    }
    assert entityDofs[..|entityDofs|] == entityDofs;
  }

  /** The constructor: closure sets, counts, and the permutation shape check. */
  method Build(blockSize: nat, entityDofs: seq<seq<set<nat>>>, parentMap: seq<int>,
               subDofmaps: seq<ElementDofLayout>, entries: seq<ClosureEntry>,
               perms: PermutationArray) returns (r: Result<ElementDofLayout, LayoutError>)
    requires ValidInput(entityDofs, entries)
    ensures r == Layout(blockSize, entityDofs, parentMap, subDofmaps, entries, perms)
  {
    var closure := ComputeClosure(entityDofs, entries);
    var numEntityDofs, numEntityClosureDofs, numDofs := CountDofs(entityDofs, closure);
    var permCount := 0;
    for dim := 0 to |entityDofs| - 1
      invariant permCount == PermSum(entityDofs, dim)
    {
      permCount := permCount + PermsPerDim[dim] * |entityDofs[dim]|;
    }
    if perms.rows != permCount || perms.cols != numDofs {
      return Failure(WrongPermutationShape(permCount, numDofs));
    }
    r := Success(ElementDofLayout(blockSize, parentMap, numDofs, entityDofs, closure,
                                  numEntityDofs, numEntityClosureDofs, subDofmaps, perms));
  }

  /** The constructor throws exactly when the permutation array has the wrong shape. */
  lemma BuildChecksPermutationShape(blockSize: nat, entityDofs: seq<seq<set<nat>>>, parentMap: seq<int>,
                                    subDofmaps: seq<ElementDofLayout>, entries: seq<ClosureEntry>,
                                    perms: PermutationArray)
    requires ValidInput(entityDofs, entries)
    ensures Layout(blockSize, entityDofs, parentMap, subDofmaps, entries, perms).Failure?
            <==> perms.rows != PermCount(entityDofs) || perms.cols != TotalDofs(entityDofs)
    ensures Layout(blockSize, entityDofs, parentMap, subDofmaps, entries, perms).Success? ==>
      && NumDofs(Layout(blockSize, entityDofs, parentMap, subDofmaps, entries, perms).value) == perms.cols
      && !IsView(Layout(blockSize, entityDofs, parentMap, subDofmaps, entries, perms).value) == (parentMap == [])
  {
  }

  // ---------------------------------------------------------------------------
  // Accessors
  // ---------------------------------------------------------------------------

  /** The number of dofs of the element. */
  function NumDofs(l: ElementDofLayout): nat {
    l.numDofs
  }

  /** A view of a parent layout is one with a non-empty parent map. */
  predicate IsView(l: ElementDofLayout) {
    |l.parentMap| > 0
  }

  /** A copy keeps everything but the parent map, which it empties. */
  function Copy(l: ElementDofLayout): (c: ElementDofLayout)
    ensures !IsView(c)
    ensures c.(parentMap := l.parentMap) == l
  {
    l.(parentMap := [])
  }

  /** The per-dimension count, or `OutOfRange` as `.at` throws. */
  function NumEntityDofs(l: ElementDofLayout, dim: int): Result<nat, LayoutError> {
    if 0 <= dim < |l.numEntityDofs| then Success(l.numEntityDofs[dim]) else Failure(OutOfRange)
  }

  function NumEntityClosureDofs(l: ElementDofLayout, dim: int): Result<nat, LayoutError> {
    if 0 <= dim < |l.numEntityClosureDofs| then Success(l.numEntityClosureDofs[dim]) else Failure(OutOfRange)
  }

  /**
   * On a constructed layout the counts are the first entity's set sizes for
   * the dimensions present, zero for the other dimensions below four, and
   * `OutOfRange` for every other dimension.
   */
  lemma BuiltCounts(blockSize: nat, entityDofs: seq<seq<set<nat>>>, parentMap: seq<int>,
                    subDofmaps: seq<ElementDofLayout>, entries: seq<ClosureEntry>,
                    perms: PermutationArray, dim: int)
    requires ValidInput(entityDofs, entries)
    requires Layout(blockSize, entityDofs, parentMap, subDofmaps, entries, perms).Success?
    ensures NumEntityDofs(Layout(blockSize, entityDofs, parentMap, subDofmaps, entries, perms).value, dim) ==
      if dim < 0 || dim >= 4 then Failure(OutOfRange)
      else if dim < |entityDofs| then Success(|entityDofs[dim][0]|)
      else Success(0)
    ensures NumEntityClosureDofs(Layout(blockSize, entityDofs, parentMap, subDofmaps, entries, perms).value, dim) ==
      if dim < 0 || dim >= 4 then Failure(OutOfRange)
      else if dim < |entityDofs| then Success(|Closure(entityDofs, entries)[dim][0]|)
      else Success(0)
  {
  }

  /** `m` is the least element of `s`. */
  predicate IsMin(m: nat, s: set<nat>) {
    m in s && forall y :: y in s ==> m <= y
  }

  /** A non-empty finite set of naturals has a least element. */
  lemma {:induction false} MinExists(s: set<nat>)
    requires s != {}
    ensures exists m :: IsMin(m, s)
    decreases s
  {
    var x :| x in s;
    var rest := s - {x};
    if rest != {} {
      MinExists(rest);
      var m :| IsMin(m, rest);
      var least := if x < m then x else m;
      forall y | y in s ensures least <= y {
        if y != x {
          assert y in rest;
        }
      }
      assert IsMin(least, s);
    } else {
      assert s == rest + {x};
      assert IsMin(x, s);
    }
  }

  /** The least element of a non-empty set. */
  function Min(s: set<nat>): (m: nat)
    requires s != {}
    ensures m in s && forall y :: y in s ==> m <= y
  {
    MinExists(s);
    var m :| IsMin(m, s);
    m
  }

  /** Putting the least element before the sorted rest sorts the whole set. */
  lemma PrependMin(m: nat, s: set<nat>, rest: seq<nat>)
    requires IsMin(m, s)
    requires |rest| == |s - {m}| && forall x :: x in rest <==> x in s - {m}
    requires forall a, b :: 0 <= a < b < |rest| ==> rest[a] < rest[b]
    ensures |[m] + rest| == |s|
    ensures forall x :: x in [m] + rest <==> x in s
    ensures forall a, b :: 0 <= a < b < |[m] + rest| ==> ([m] + rest)[a] < ([m] + rest)[b]
  {
    assert s == (s - {m}) + {m};
    forall a, b | 0 <= a < b < |[m] + rest| ensures ([m] + rest)[a] < ([m] + rest)[b] {
      if a == 0 {
        assert rest[b - 1] in s - {m};
      } else {
        assert ([m] + rest)[a] == rest[a - 1];
      }
    }
  }

  /** The elements of a set in ascending order, as a `std::set` iterates them. */
  function SortedElements(s: set<nat>): (r: seq<nat>)
    ensures |r| == |s|
    ensures forall x :: x in r <==> x in s
    ensures forall a, b :: 0 <= a < b < |r| ==> r[a] < r[b]
    decreases s
  {
    if s == {} then []
    else
      var m := Min(s);
      var rest := SortedElements(s - {m});
      PrependMin(m, s, rest);
      [m] + rest
  }

  /** The dofs of one entity in ascending order, or `OutOfRange` as `.at` throws. */
  function EntityDofs(l: ElementDofLayout, dim: int, index: int): (r: Result<seq<nat>, LayoutError>)
    ensures r.Success? <==> 0 <= dim < |l.entityDofs| && 0 <= index < |l.entityDofs[dim]|
    ensures r.Success? ==>
      && |r.value| == |l.entityDofs[dim][index]|
      && (forall d :: d in r.value <==> d in l.entityDofs[dim][index])
      && forall a, b :: 0 <= a < b < |r.value| ==> r.value[a] < r.value[b]
  {
    if 0 <= dim < |l.entityDofs| && 0 <= index < |l.entityDofs[dim]| then Success(SortedElements(l.entityDofs[dim][index]))
    else Failure(OutOfRange)
  }

  /** The closure dofs of one entity in ascending order, or `OutOfRange`. */
  function EntityClosureDofs(l: ElementDofLayout, dim: int, index: int): (r: Result<seq<nat>, LayoutError>)
    ensures r.Success? <==> 0 <= dim < |l.entityClosureDofs| && 0 <= index < |l.entityClosureDofs[dim]|
    ensures r.Success? ==>
      && |r.value| == |l.entityClosureDofs[dim][index]|
      && (forall d :: d in r.value <==> d in l.entityClosureDofs[dim][index])
      && forall a, b :: 0 <= a < b < |r.value| ==> r.value[a] < r.value[b]
  {
    if 0 <= dim < |l.entityClosureDofs| && 0 <= index < |l.entityClosureDofs[dim]| then
      Success(SortedElements(l.entityClosureDofs[dim][index]))
    else Failure(OutOfRange)
  }

  // ---------------------------------------------------------------------------
  // Sub-layouts
  // ---------------------------------------------------------------------------

  /** Following the component path from `l`, one nesting level per index. */
  function Descend(l: ElementDofLayout, component: seq<int>): Result<ElementDofLayout, LayoutError>
    decreases |component|
  {
    if |component| == 0 then Success(l)
    else
      match Descend(l, component[..|component| - 1])
      case Failure(e) => Failure(e)
      case Success(current) =>
        var i := component[|component| - 1];
        if 0 <= i < |current.subDofmaps| then Success(current.subDofmaps[i]) else Failure(OutOfRange)
  }

  /** `sub_dofmap` as intended: the layout the whole path leads to. */
  function SubLayoutAt(l: ElementDofLayout, component: seq<int>): Result<ElementDofLayout, LayoutError> {
    if |component| == 0 then Failure(NoSubDofmap) else Descend(l, component)
  }

  /** Following a path in two parts is following the second from where the first ends. */
  lemma {:induction false} DescendAppend(l: ElementDofLayout, c1: seq<int>, c2: seq<int>)
    ensures Descend(l, c1 + c2) ==
      match Descend(l, c1)
      case Failure(e) => Failure(e)
      case Success(mid) => Descend(mid, c2)
  {
    if |c2| == 0 {
      assert c1 + c2 == c1;
    } else {
      var n := |c2| - 1;
      DescendAppend(l, c1, c2[..n]);
      assert (c1 + c2)[..|c1 + c2| - 1] == c1 + c2[..n];
      assert (c1 + c2)[|c1 + c2| - 1] == c2[n];
    }
  }

  /**
   * `sub_dofmap` as written: every index of the path selects from this
   * layout's own sub-layouts, so the result is this layout's sub-layout at
   * the last index.
   */
  function SubDofmapAsWritten(l: ElementDofLayout, component: seq<int>): Result<ElementDofLayout, LayoutError> {
    if |component| == 0 then Failure(NoSubDofmap)
    else if exists k :: 0 <= k < |component| && !(0 <= component[k] < |l.subDofmaps|) then Failure(OutOfRange)
    else Success(l.subDofmaps[component[|component| - 1]])
  }

  /** `sub_dofmap` with each index selecting from the layout reached so far. */
  method SubDofmap(l: ElementDofLayout, component: seq<int>) returns (r: Result<ElementDofLayout, LayoutError>)
    ensures r == SubLayoutAt(l, component)
  {
    if |component| == 0 {
      return Failure(NoSubDofmap);
    }
    var current := l;
    for i := 0 to |component|
      invariant Descend(l, component[..i]) == Success(current)
    {
      assert component[..i + 1][..i] == component[..i];
      var idx := component[i];
      if !(0 <= idx < |current.subDofmaps|) {
        r := Failure(OutOfRange);
        assert Descend(l, component[..i + 1]) == r;
        DescendAppend(l, component[..i + 1], component[i + 1..]);
        assert component[..i + 1] + component[i + 1..] == component;
        return;
      }
      current := current.subDofmaps[idx];
    }
    assert component[..|component|] == component;
    r := Success(current);
  }

  /** The dof list `[0, n)`. */
  function Iota(n: nat): (r: seq<int>)
    ensures |r| == n && forall k :: 0 <= k < n ==> r[k] == k
  {
    seq(n, k => k)
  }

  /** Entries `0 .. numDofs` of the parent map select existing entries of `list`. */
  predicate ParentMapFits(sub: ElementDofLayout, list: seq<int>) {
    |sub.parentMap| >= sub.numDofs && forall j :: 0 <= j < sub.numDofs ==> 0 <= sub.parentMap[j] < |list|
  }

  /** One step of a view: `new[j] = list[parentMap[j]]` for each dof `j` of the sub-layout. */
  function ViewStep(list: seq<int>, sub: ElementDofLayout): Result<seq<int>, LayoutError> {
    if ParentMapFits(sub, list) then Success(seq(sub.numDofs, j requires 0 <= j < sub.numDofs => list[sub.parentMap[j]]))
    else Failure(ParentMapOutOfRange)
  }

  /** A list with `result[j] = list[parentMap[j]]` for every dof `j` of the sub-layout is the step's result. */
  lemma ViewStepIs(list: seq<int>, sub: ElementDofLayout, result: seq<int>)
    requires ParentMapFits(sub, list) && |result| == sub.numDofs
    requires forall j :: 0 <= j < |result| ==> result[j] == list[sub.parentMap[j]]
    ensures ViewStep(list, sub) == Success(result)
  {
    var selected := seq(sub.numDofs, j requires 0 <= j < sub.numDofs => list[sub.parentMap[j]]);
    assert selected == result;
  }

  /** The layout reached so far and the parent dofs of its dofs. */
  datatype View = View(layout: ElementDofLayout, dofs: seq<int>)

  /** `sub_view` as intended: each step checks and selects in the layout reached so far. */
  function ViewAt(l: ElementDofLayout, component: seq<int>): Result<View, LayoutError>
    decreases |component|
  {
    if |component| == 0 then Success(View(l, Iota(l.numDofs * l.blockSize)))
    else
      match ViewAt(l, component[..|component| - 1])
      case Failure(e) => Failure(e)
      case Success(v) =>
        var i := component[|component| - 1];
        if i >= |v.layout.subDofmaps| then Failure(InvalidComponent)
        else if i < 0 then Failure(OutOfRange)
        else
          var sub := v.layout.subDofmaps[i];
          match ViewStep(v.dofs, sub)
          case Failure(e) => Failure(e)
          case Success(dofs) => Success(View(sub, dofs))
  }

  /**
   * `sub_view` as written: the component is checked against the layout
   * reached so far, but the next layout is taken from this layout's own
   * sub-layouts.
   */
  function ViewAtAsWritten(l: ElementDofLayout, component: seq<int>): Result<View, LayoutError>
    decreases |component|
  {
    if |component| == 0 then Success(View(l, Iota(l.numDofs * l.blockSize)))
    else
      match ViewAtAsWritten(l, component[..|component| - 1])
      case Failure(e) => Failure(e)
      case Success(v) =>
        var i := component[|component| - 1];
        if i >= |v.layout.subDofmaps| then Failure(InvalidComponent)
        else if !(0 <= i < |l.subDofmaps|) then Failure(OutOfRange)
        else
          var sub := l.subDofmaps[i];
          match ViewStep(v.dofs, sub)
          case Failure(e) => Failure(e)
          case Success(dofs) => Success(View(sub, dofs))
  }

  function DofsOf(v: Result<View, LayoutError>): Result<seq<int>, LayoutError> {
    match v
    case Failure(e) => Failure(e)
    case Success(view) => Success(view.dofs)
  }

  /** `sub_view`: rebuilds the dof list once per component index. */
  method SubView(l: ElementDofLayout, component: seq<int>) returns (r: Result<seq<int>, LayoutError>)
    ensures r == DofsOf(ViewAt(l, component))
  {
    var dofList := Iota(l.numDofs * l.blockSize);
    var current := l;
    for i := 0 to |component|
      invariant ViewAt(l, component[..i]) == Success(View(current, dofList))
    {
      assert component[..i + 1][..i] == component[..i];
      var idx := component[i];
      if idx >= |current.subDofmaps| {
        r := Failure(InvalidComponent);
        ViewFailureSticks(l, component, i + 1);
        return;
      }
      if idx < 0 {
        r := Failure(OutOfRange);
        ViewFailureSticks(l, component, i + 1);
        return;
      }
      var sub := current.subDofmaps[idx];
      if !ParentMapFits(sub, dofList) {
        r := Failure(ParentMapOutOfRange);
        ViewFailureSticks(l, component, i + 1);
        return;
      }
      var newList := [];
      for j := 0 to sub.numDofs
        invariant |newList| == j && forall t :: 0 <= t < j ==> newList[t] == dofList[sub.parentMap[t]]
      {
        newList := newList + [dofList[sub.parentMap[j]]];
      }
      ViewStepIs(dofList, sub, newList);
      assert component[..i + 1][i] == idx;
      current, dofList := sub, newList;
    }
    assert component[..|component|] == component;
    r := Success(dofList);
  }

  /** A failure on a prefix of the path is the failure of the whole path. */
  lemma {:induction false} ViewFailureSticks(l: ElementDofLayout, component: seq<int>, n: nat)
    requires n <= |component| && ViewAt(l, component[..n]).Failure?
    ensures ViewAt(l, component) == ViewAt(l, component[..n])
    decreases |component| - n
  {
    if n == |component| {
      assert component[..n] == component;
    } else {
      assert component[..n + 1][..n] == component[..n];
      ViewFailureSticks(l, component, n + 1);
    }
  }

  /**
   * A successful view ends at the layout `sub_dofmap` returns for the same
   * path, holds one entry per dof of that layout, and every entry is a dof
   * of this layout's blocked list.
   */
  lemma {:induction false} ViewAtIsSubLayout(l: ElementDofLayout, component: seq<int>)
    requires ViewAt(l, component).Success?
    ensures Descend(l, component) == Success(ViewAt(l, component).value.layout)
    ensures |ViewAt(l, component).value.dofs| == ViewAt(l, component).value.layout.numDofs
            || |component| == 0
    ensures forall t :: 0 <= t < |ViewAt(l, component).value.dofs| ==>
      0 <= ViewAt(l, component).value.dofs[t] < l.numDofs * l.blockSize
    decreases |component|
  {
    if |component| > 0 {
      var init := component[..|component| - 1];
      ViewAtIsSubLayout(l, init);
      var v := ViewAt(l, init).value;
      var i := component[|component| - 1];
      var sub := v.layout.subDofmaps[i];
      assert ViewStep(v.dofs, sub).Success?;
      var w := ViewAt(l, component).value;
      assert w == View(sub, ViewStep(v.dofs, sub).value);
      forall t | 0 <= t < |w.dofs| ensures 0 <= w.dofs[t] < l.numDofs * l.blockSize {
        assert w.dofs[t] == v.dofs[sub.parentMap[t]];
      }
    }
  }

  /** A one-index view of a layout selects with the sub-layout's parent map from `[0, numDofs * blockSize)`. */
  lemma SingleComponentView(l: ElementDofLayout, i: int)
    requires 0 <= i < |l.subDofmaps|
    requires ParentMapFits(l.subDofmaps[i], Iota(l.numDofs * l.blockSize))
    ensures ViewAt(l, [i]) == Success(View(l.subDofmaps[i], l.subDofmaps[i].parentMap[..l.subDofmaps[i].numDofs]))
  {
    assert [i][..0] == [];
    var sub := l.subDofmaps[i];
    ViewStepIs(Iota(l.numDofs * l.blockSize), sub, sub.parentMap[..sub.numDofs]);
  }

  /**
   * A copy has the same views as the layout it copies: the first index
   * already leaves the copied layout, whose parent map a view never reads.
   */
  lemma {:induction false} ViewOfCopy(l: ElementDofLayout, component: seq<int>)
    requires |component| > 0
    ensures ViewAt(Copy(l), component) == ViewAt(l, component)
    decreases |component|
  {
    var init := component[..|component| - 1];
    if |component| > 1 {
      ViewOfCopy(l, init);
    } else {
      assert init == [];
      assert ViewAt(Copy(l), init) == Success(View(Copy(l), Iota(l.numDofs * l.blockSize)));
      assert ViewAt(l, init) == Success(View(l, Iota(l.numDofs * l.blockSize)));
    }
  }

  // ---------------------------------------------------------------------------
  // The nested-path counterexample
  // ---------------------------------------------------------------------------

  /** A one-dof leaf layout, a view at dof 0 of its parent. */
  function Leaf(): ElementDofLayout {
    ElementDofLayout(1, [0], 1, [[{0}]], [[{0}]], [1, 0, 0, 0], [1, 0, 0, 0], [], PermutationArray(0, 1, []))
  }

  /** A two-dof layout whose dofs are its parent's dofs in swapped order, holding `Leaf()`. */
  function Middle(): ElementDofLayout {
    ElementDofLayout(1, [1, 0], 2, [[{0, 1}]], [[{0, 1}]], [2, 0, 0, 0], [2, 0, 0, 0], [Leaf()], PermutationArray(0, 2, []))
  }

  /** A two-dof top layout holding `Middle()`. */
  function Top(): ElementDofLayout {
    ElementDofLayout(1, [], 2, [[{0, 1}]], [[{0, 1}]], [2, 0, 0, 0], [2, 0, 0, 0], [Middle()], PermutationArray(0, 2, []))
  }

  /**
   * On the path `[0, 0]` of `Top()`, `sub_dofmap` as written returns the
   * middle layout again instead of the leaf the path leads to.
   */
  lemma SubDofmapNestedPath()
    ensures SubDofmapAsWritten(Top(), [0, 0]) == Success(Middle())
    ensures SubLayoutAt(Top(), [0, 0]) == Success(Leaf())
  {
    assert [0, 0][..1] == [0];
    assert [0][..0] == [];
  }

  /**
   * On the path `[0, 0]` of `Top()`, `sub_view` as written selects with the
   * middle layout's parent map twice, giving `[0, 1]`, where the leaf's dof
   * is parent dof 1.
   */
  lemma SubViewNestedPath()
    ensures DofsOf(ViewAtAsWritten(Top(), [0, 0])) == Success([0, 1])
    ensures DofsOf(ViewAt(Top(), [0, 0])) == Success([1])
  {
    assert [0, 0][..1] == [0];
    assert [0][..0] == [];
    assert Iota(2) == [0, 1];
    ViewStepIs([0, 1], Middle(), [1, 0]);
    ViewStepIs([1, 0], Leaf(), [1]);
    ViewStepIs([1, 0], Middle(), [0, 1]);
    assert ViewAt(Top(), [0]) == Success(View(Middle(), [1, 0]));
    assert ViewAtAsWritten(Top(), [0]) == Success(View(Middle(), [1, 0]));
  }
}
