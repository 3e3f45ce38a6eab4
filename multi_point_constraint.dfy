/**
 * Multi-point constraints (cpp/dolfinx/fem/MultiPointConstraint.cpp).
 *
 * Slave dofs are expressed through master dofs and coefficients.  The mesh
 * and the dofmap of the constrained function space are replaced by the list
 * of cell dof lists, cell `c` being the `c`-th cell of the iteration; the
 * sparsity pattern is replaced by the log of the insertions made into it.
 */
module MultiPointConstraints {

  predicate StrictlyIncreasing(s: seq<nat>) {
    forall a, b :: 0 <= a < b < |s| ==> s[a] < s[b]
  }

  /** One entry `s` for every position of `dofs` that holds `s`, in position order. */
  function Occurrences(dofs: seq<nat>, s: nat): seq<nat> {
    if |dofs| == 0 then []
    else Occurrences(dofs[..|dofs| - 1], s) + (if dofs[|dofs| - 1] == s then [s] else [])
  }

  /** Every recorded entry is `s`, and there is one iff `s` occurs in `dofs`. */
  lemma {:induction false} OccurrencesFacts(dofs: seq<nat>, s: nat)
    ensures forall k :: 0 <= k < |Occurrences(dofs, s)| ==> Occurrences(dofs, s)[k] == s
    ensures |Occurrences(dofs, s)| > 0 <==> s in dofs
  {
    if |dofs| > 0 {
      OccurrencesFacts(dofs[..|dofs| - 1], s);
      assert dofs == dofs[..|dofs| - 1] + [dofs[|dofs| - 1]];
    }
  }

  /** Some dof of the cell is one of the slaves. */
  ghost predicate TouchesSlave(dofs: seq<nat>, slaves: seq<nat>) {
    exists i, t :: 0 <= i < |dofs| && 0 <= t < |slaves| && dofs[i] == slaves[t]
  }

  /**
   * The slave entries recorded for one cell: for each slave in turn, one
   * entry per dof position that holds it (slave-major order).
   */
  function SlaveHits(dofs: seq<nat>, slaves: seq<nat>): seq<nat> {
    if |slaves| == 0 then []
    else SlaveHits(dofs, slaves[..|slaves| - 1]) + Occurrences(dofs, slaves[|slaves| - 1])
  }

  /** Every recorded entry is a slave, and there is one iff the cell touches a slave. */
  lemma {:induction false} SlaveHitsFacts(dofs: seq<nat>, slaves: seq<nat>)
    ensures forall k :: 0 <= k < |SlaveHits(dofs, slaves)| ==> SlaveHits(dofs, slaves)[k] in slaves
    ensures |SlaveHits(dofs, slaves)| > 0 <==> TouchesSlave(dofs, slaves)
  {
    if |slaves| > 0 {
      var init, last := slaves[..|slaves| - 1], slaves[|slaves| - 1];
      SlaveHitsFacts(dofs, init);
      OccurrencesFacts(dofs, last);
      var r := SlaveHits(dofs, slaves);
      forall k | 0 <= k < |r| ensures r[k] in slaves {
        if k < |SlaveHits(dofs, init)| {
          assert r[k] in init;
        } else {
          assert r[k] == last;
        }
      }
      if TouchesSlave(dofs, init) {
        var i, t :| 0 <= i < |dofs| && 0 <= t < |init| && dofs[i] == init[t];
        assert dofs[i] == slaves[t];
      }
      if last in dofs {
        var i :| 0 <= i < |dofs| && dofs[i] == last;
        assert dofs[i] == slaves[|slaves| - 1];
      }
      if TouchesSlave(dofs, slaves) {
        var i, t :| 0 <= i < |dofs| && 0 <= t < |slaves| && dofs[i] == slaves[t];
        if t < |slaves| - 1 {
          assert dofs[i] == init[t];
        }
      }
    }
  }

  /** The four lists a classification run produces. */
  datatype Classification = Classification(
    slaveCells: seq<nat>,
    normalCells: seq<nat>,
    cellToSlave: seq<nat>,
    offsets: seq<nat>)

  /** A run over the given cells, starting from empty lists and offset 0. */
  function Classify(cellDofs: seq<seq<nat>>, slaves: seq<nat>): Classification
  {
    if |cellDofs| == 0 then Classification([], [], [], [0])
    else
      var prev := Classify(cellDofs[..|cellDofs| - 1], slaves);
      var cell := |cellDofs| - 1;
      var hits := SlaveHits(cellDofs[cell], slaves);
      if |hits| > 0 then
        Classification(prev.slaveCells + [cell], prev.normalCells,
                       prev.cellToSlave + hits, prev.offsets + [|prev.cellToSlave| + |hits|])
      else
        Classification(prev.slaveCells, prev.normalCells + [cell], prev.cellToSlave, prev.offsets)
  }

  function Repeat(s: seq<nat>, n: nat): seq<nat> {
    if n == 0 then [] else Repeat(s, n - 1) + s
  }

  lemma {:induction false} RepeatHead(s: seq<nat>, n: nat)
    requires n >= 1 && |s| >= 1
    ensures |Repeat(s, n)| >= 1 && Repeat(s, n)[0] == s[0]
  {
    if n > 1 {
      RepeatHead(s, n - 1);
    }
  }

  /**
   * One cell's decision: a cell with slave entries `hits` becomes a slave
   * cell, its entries are appended and `end` closes its range; any other
   * cell becomes a normal cell.
   */
  function Decide(c: Classification, cell: nat, hits: seq<nat>, end: nat): Classification {
    if |hits| > 0 then
      Classification(c.slaveCells + [cell], c.normalCells, c.cellToSlave + hits, c.offsets + [end])
    else
      Classification(c.slaveCells, c.normalCells + [cell], c.cellToSlave, c.offsets)
  }

  /** Classifying one more cell: the run so far plus that cell's decision. */
  lemma ClassifyExtend(cellDofs: seq<seq<nat>>, slaves: seq<nat>, cell: nat)
    requires cell < |cellDofs|
    ensures var prev := Classify(cellDofs[..cell], slaves);
      var hits := SlaveHits(cellDofs[cell], slaves);
      && Classify(cellDofs[..cell + 1], slaves) == Decide(prev, cell, hits, |prev.cellToSlave| + |hits|)
      && (|hits| > 0 ==> Classify(cellDofs[..cell + 1], slaves).slaveCells == prev.slaveCells + [cell])
      && (|hits| == 0 ==> Classify(cellDofs[..cell + 1], slaves).normalCells == prev.normalCells + [cell])
  {
    assert cellDofs[..cell + 1][..cell] == cellDofs[..cell];
    assert cellDofs[..cell + 1][cell] == cellDofs[cell];
  }

  /** Lists grown by a later run: each list of `b` appended to that of `a`. */
  function Append(a: Classification, b: Classification): Classification {
    Classification(a.slaveCells + b.slaveCells, a.normalCells + b.normalCells,
                   a.cellToSlave + b.cellToSlave, a.offsets + b.offsets)
  }

  /** Deciding after an earlier run's lists is deciding on the concatenation. */
  lemma AppendDecide(a: Classification, b: Classification, cell: nat, hits: seq<nat>, end: nat)
    ensures Append(a, Decide(b, cell, hits, end)) == Decide(Append(a, b), cell, hits, end)
  {
  }


  /** CSR encoding: offsets start at 0, increase strictly, end at the flat length. */
  ghost predicate CsrEncoded(c: Classification) {
    && |c.offsets| == |c.slaveCells| + 1
    && c.offsets[0] == 0
    && c.offsets[|c.offsets| - 1] == |c.cellToSlave|
    && StrictlyIncreasing(c.offsets)
  }

  /** One classification step appending a slave cell keeps the CSR encoding and the old ranges. */
  lemma CsrStep(prev: Classification, cell: nat, hits: seq<nat>)
    requires CsrEncoded(prev) && |hits| > 0
    ensures var c := Classification(prev.slaveCells + [cell], prev.normalCells,
                                    prev.cellToSlave + hits, prev.offsets + [|prev.cellToSlave| + |hits|]);
      && CsrEncoded(c)
      && c.cellToSlave[c.offsets[|prev.slaveCells|]..c.offsets[|prev.slaveCells| + 1]] == hits
      && forall i :: 0 <= i < |prev.slaveCells| ==>
           c.cellToSlave[c.offsets[i]..c.offsets[i + 1]] == prev.cellToSlave[prev.offsets[i]..prev.offsets[i + 1]]
  {
    var c := Classification(prev.slaveCells + [cell], prev.normalCells,
                            prev.cellToSlave + hits, prev.offsets + [|prev.cellToSlave| + |hits|]);
    assert StrictlyIncreasing(c.offsets) by {
      forall a, b | 0 <= a < b < |c.offsets| ensures c.offsets[a] < c.offsets[b] {
        if b < |prev.offsets| {
          assert c.offsets[a] == prev.offsets[a] && c.offsets[b] == prev.offsets[b];
        } else {
          assert prev.offsets[a] <= prev.offsets[|prev.offsets| - 1];
        }
      }
    }
    forall i | 0 <= i < |prev.slaveCells|
      ensures c.cellToSlave[c.offsets[i]..c.offsets[i + 1]] == prev.cellToSlave[prev.offsets[i]..prev.offsets[i + 1]]
    {
      var lo, hi := prev.offsets[i], prev.offsets[i + 1];
      assert lo < hi <= prev.offsets[|prev.offsets| - 1];
      assert c.offsets[i] == lo && c.offsets[i + 1] == hi;
    }
  }

  /** The i-th CSR range of a classification holds the slave entries of its i-th slave cell. */
  ghost predicate RangesMatch(c: Classification, cellDofs: seq<seq<nat>>, slaves: seq<nat>)
    requires CsrEncoded(c)
  {
    forall i :: 0 <= i < |c.slaveCells| ==>
      c.slaveCells[i] < |cellDofs| &&
      c.cellToSlave[c.offsets[i]..c.offsets[i + 1]] == SlaveHits(cellDofs[c.slaveCells[i]], slaves)
  }

  /**
   * The classification is a CSR encoding whose i-th range holds exactly the
   * slave entries of the i-th slave cell.
   */
  lemma {:induction false} ClassifyCsr(cellDofs: seq<seq<nat>>, slaves: seq<nat>)
    ensures CsrEncoded(Classify(cellDofs, slaves))
    ensures RangesMatch(Classify(cellDofs, slaves), cellDofs, slaves)
  {
    if |cellDofs| > 0 {
      var n := |cellDofs| - 1;
      var init := cellDofs[..n];
      ClassifyCsr(init, slaves);
      var prev := Classify(init, slaves);
      var c := Classify(cellDofs, slaves);
      var hits := SlaveHits(cellDofs[n], slaves);
      if |hits| > 0 {
        assert c == Classification(prev.slaveCells + [n], prev.normalCells,
                                   prev.cellToSlave + hits, prev.offsets + [|prev.cellToSlave| + |hits|]);
        CsrStep(prev, n, hits);
        forall i | 0 <= i < |c.slaveCells|
          ensures c.slaveCells[i] < |cellDofs|
          ensures c.cellToSlave[c.offsets[i]..c.offsets[i + 1]] == SlaveHits(cellDofs[c.slaveCells[i]], slaves)
        {
          if i < |prev.slaveCells| {
            assert c.slaveCells[i] == prev.slaveCells[i];
            assert cellDofs[prev.slaveCells[i]] == init[prev.slaveCells[i]];
          }
        }
      } else {
        assert c.slaveCells == prev.slaveCells && c.cellToSlave == prev.cellToSlave && c.offsets == prev.offsets;
        forall i | 0 <= i < |c.slaveCells|
          ensures c.slaveCells[i] < |cellDofs|
          ensures c.cellToSlave[c.offsets[i]..c.offsets[i + 1]] == SlaveHits(cellDofs[c.slaveCells[i]], slaves)
        {
          assert cellDofs[c.slaveCells[i]] == init[prev.slaveCells[i]];
        }
      }
    }
  }

  /** Every cell index is below the cell count and lands in exactly one of the two lists. */
  lemma {:induction false} ClassifyBounds(cellDofs: seq<seq<nat>>, slaves: seq<nat>)
    ensures var c := Classify(cellDofs, slaves);
      && |c.slaveCells| + |c.normalCells| == |cellDofs|
      && (forall k :: 0 <= k < |c.slaveCells| ==> c.slaveCells[k] < |cellDofs|)
      && (forall k :: 0 <= k < |c.normalCells| ==> c.normalCells[k] < |cellDofs|)
  {
    if |cellDofs| > 0 {
      ClassifyBounds(cellDofs[..|cellDofs| - 1], slaves);
    }
  }

  /** Every recorded slave entry is one of the slaves. */
  lemma {:induction false} ClassifyEntries(cellDofs: seq<seq<nat>>, slaves: seq<nat>)
    ensures forall k :: 0 <= k < |Classify(cellDofs, slaves).cellToSlave| ==>
      Classify(cellDofs, slaves).cellToSlave[k] in slaves
  {
    if |cellDofs| > 0 {
      var prev := Classify(cellDofs[..|cellDofs| - 1], slaves);
      var hits := SlaveHits(cellDofs[|cellDofs| - 1], slaves);
      ClassifyEntries(cellDofs[..|cellDofs| - 1], slaves);
      SlaveHitsFacts(cellDofs[|cellDofs| - 1], slaves);
      var c := Classify(cellDofs, slaves);
      assert c.cellToSlave == if |hits| > 0 then prev.cellToSlave + hits else prev.cellToSlave;
      forall k | 0 <= k < |c.cellToSlave| ensures c.cellToSlave[k] in slaves {
        if k >= |prev.cellToSlave| {
          assert c.cellToSlave[k] == hits[k - |prev.cellToSlave|];
          assert hits[k - |prev.cellToSlave|] in slaves;
        } else {
          assert c.cellToSlave[k] == prev.cellToSlave[k];
          assert prev.cellToSlave[k] in slaves;
        }
      }
    }
  }

  /** Both lists are in iteration order. */
  lemma {:induction false} ClassifyOrdered(cellDofs: seq<seq<nat>>, slaves: seq<nat>)
    ensures StrictlyIncreasing(Classify(cellDofs, slaves).slaveCells)
    ensures StrictlyIncreasing(Classify(cellDofs, slaves).normalCells)
  {
    if |cellDofs| > 0 {
      var init := cellDofs[..|cellDofs| - 1];
      ClassifyOrdered(init, slaves);
      ClassifyBounds(init, slaves);
    }
  }

  /** Membership in the two lists is decided by the cell's recorded slave entries. */
  lemma {:induction false} ClassifyMembership(cellDofs: seq<seq<nat>>, slaves: seq<nat>)
    ensures var c := Classify(cellDofs, slaves);
      forall cell :: 0 <= cell < |cellDofs| ==>
        && (cell in c.slaveCells <==> |SlaveHits(cellDofs[cell], slaves)| > 0)
        && (cell in c.normalCells <==> |SlaveHits(cellDofs[cell], slaves)| == 0)
  {
    if |cellDofs| > 0 {
      var n := |cellDofs| - 1;
      var init := cellDofs[..n];
      ClassifyMembership(init, slaves);
      ClassifyBounds(init, slaves);
      var prev := Classify(init, slaves);
      var c := Classify(cellDofs, slaves);
      var hits := SlaveHits(cellDofs[n], slaves);
      assert n !in prev.slaveCells && n !in prev.normalCells;
      if |hits| > 0 {
        assert c.slaveCells == prev.slaveCells + [n] && c.normalCells == prev.normalCells;
      } else {
        assert c.slaveCells == prev.slaveCells && c.normalCells == prev.normalCells + [n];
      }
      forall cell | 0 <= cell < |cellDofs|
        ensures cell in c.slaveCells <==> |SlaveHits(cellDofs[cell], slaves)| > 0
        ensures cell in c.normalCells <==> |SlaveHits(cellDofs[cell], slaves)| == 0
      {
        var count := |SlaveHits(cellDofs[cell], slaves)|;
        if cell < n {
          assert cellDofs[cell] == init[cell];
          assert cell in prev.slaveCells <==> count > 0;
          assert cell in prev.normalCells <==> count == 0;
          assert cell in c.slaveCells <==> cell in prev.slaveCells;
          assert cell in c.normalCells <==> cell in prev.normalCells;
        } else if count > 0 {
          assert cell in c.slaveCells && cell !in c.normalCells;
        } else {
          assert cell !in c.slaveCells && cell in c.normalCells;
        }
      }
    }
  }

  /**
   * A cell is a slave cell iff one of its dofs is a slave, and a normal cell
   * otherwise.
   */
  lemma ClassifyPartition(cellDofs: seq<seq<nat>>, slaves: seq<nat>)
    ensures var c := Classify(cellDofs, slaves);
      forall cell :: 0 <= cell < |cellDofs| ==>
        && (cell in c.slaveCells <==> TouchesSlave(cellDofs[cell], slaves))
        && (cell in c.normalCells <==> !TouchesSlave(cellDofs[cell], slaves))
  {
    ClassifyMembership(cellDofs, slaves);
    forall cell | 0 <= cell < |cellDofs|
      ensures |SlaveHits(cellDofs[cell], slaves)| > 0 <==> TouchesSlave(cellDofs[cell], slaves)
    {
      SlaveHitsFacts(cellDofs[cell], slaves);
    }
  }

  /** The pairs (master, slave) recorded for each position of `dofs` holding the slave. */
  function MasterSlavePairs(dofs: seq<nat>, slave: nat, master: nat): seq<nat> {
    if |dofs| == 0 then []
    else
      MasterSlavePairs(dofs[..|dofs| - 1], slave, master)
        + (if dofs[|dofs| - 1] == slave then [master, slave] else [])
  }

  /** One (master, slave) pair per occurrence of the slave, master first. */
  lemma {:induction false} MasterSlavePairsFacts(dofs: seq<nat>, slave: nat, master: nat)
    ensures |MasterSlavePairs(dofs, slave, master)| == 2 * |Occurrences(dofs, slave)|
    ensures forall p :: 0 <= p < |MasterSlavePairs(dofs, slave, master)| ==>
      MasterSlavePairs(dofs, slave, master)[p] == if p % 2 == 0 then master else slave
  {
    if |dofs| > 0 {
      MasterSlavePairsFacts(dofs[..|dofs| - 1], slave, master);
    }
  }

  /** The cell dof list with every occurrence of the slave replaced by the master. */
  function Rewritten(dofs: seq<nat>, slave: nat, master: nat): seq<nat> {
    seq(|dofs|, k requires 0 <= k < |dofs| => if dofs[k] == slave then master else dofs[k])
  }

  /** The last position holding `x`, or 0 when `x` is not in `s`. */
  function LastIndex(s: seq<nat>, x: nat): (idx: nat)
    ensures x in s ==> idx < |s| && s[idx] == x && forall k :: idx < k < |s| ==> s[k] != x
    ensures x !in s ==> idx == 0
  {
    if |s| == 0 then 0
    else if s[|s| - 1] == x then |s| - 1
    else
      assert s == s[..|s| - 1] + [s[|s| - 1]];
      LastIndex(s[..|s| - 1], x)
  }

  /** `masters[offsets[k]..offsets[k+1]]` is well defined for every slave `k`. */
  predicate MasterOffsetsValid(slaves: seq<nat>, masters: seq<nat>, offsets: seq<int>) {
    && |offsets| >= |slaves| + 1
    && 0 <= offsets[0]
    && offsets[|slaves|] <= |masters|
    && forall a, b :: 0 <= a <= b <= |slaves| ==> offsets[a] <= offsets[b]
  }

  /** One call to `SparsityPattern::insert_local(rows, cols)`. */
  datatype Insertion = Insertion(rows: seq<nat>, cols: seq<nat>)

  /** The two insertions made for each master of one slave in one cell. */
  function MasterInsertions(dofs0: seq<nat>, dofs1: seq<nat>, slave: nat, ms: seq<nat>): seq<Insertion> {
    if |ms| == 0 then []
    else
      var m := ms[|ms| - 1];
      MasterInsertions(dofs0, dofs1, slave, ms[..|ms| - 1])
        + [Insertion(Rewritten(dofs0, slave, m), Rewritten(dofs1, slave, m)),
           Insertion(MasterSlavePairs(dofs0, slave, m), MasterSlavePairs(dofs1, slave, m))]
  }

  /** The insertions made for the slave entries `cellSlaves` of one cell. */
  function SlaveInsertions(dofs0: seq<nat>, dofs1: seq<nat>, cellSlaves: seq<nat>,
                           slaves: seq<nat>, masters: seq<nat>, offsets: seq<int>): seq<Insertion>
    requires MasterOffsetsValid(slaves, masters, offsets)
    requires forall k :: 0 <= k < |cellSlaves| ==> cellSlaves[k] in slaves
  {
    if |cellSlaves| == 0 then []
    else
      var idx := LastIndex(slaves, cellSlaves[|cellSlaves| - 1]);
      SlaveInsertions(dofs0, dofs1, cellSlaves[..|cellSlaves| - 1], slaves, masters, offsets)
        + MasterInsertions(dofs0, dofs1, slaves[idx], masters[offsets[idx]..offsets[idx + 1]])
  }

  /** The CSR arrays describe `count` slave cells with in-range slices. */
  predicate CellRangesValid(slaveCells: seq<nat>, cellToSlave: seq<nat>, cellOffsets: seq<nat>,
                            count: nat) {
    && count <= |slaveCells|
    && |cellOffsets| > count
    && cellOffsets[count] <= |cellToSlave|
    && forall a, b :: 0 <= a <= b <= count ==> cellOffsets[a] <= cellOffsets[b]
  }

  /** The insertions made for the first `count` slave cells. */
  function PatternInsertions(dofs0: seq<seq<nat>>, dofs1: seq<seq<nat>>,
                             slaveCells: seq<nat>, cellToSlave: seq<nat>, cellOffsets: seq<nat>,
                             slaves: seq<nat>, masters: seq<nat>, offsets: seq<int>,
                             count: nat): seq<Insertion>
    requires CellRangesValid(slaveCells, cellToSlave, cellOffsets, count)
    requires forall i :: 0 <= i < count ==> slaveCells[i] < |dofs0| && slaveCells[i] < |dofs1|
    requires forall k :: 0 <= k < |cellToSlave| ==> cellToSlave[k] in slaves
    requires MasterOffsetsValid(slaves, masters, offsets)
  {
    if count == 0 then []
    else
      var i := count - 1;
      PatternInsertions(dofs0, dofs1, slaveCells, cellToSlave, cellOffsets, slaves, masters, offsets, i)
        + SlaveInsertions(dofs0[slaveCells[i]], dofs1[slaveCells[i]],
                          cellToSlave[cellOffsets[i]..cellOffsets[i + 1]], slaves, masters, offsets)
  }

  /** The slave-index lookup: the last position of `slaves` equal to `slaveDof`, 0 when none. */
  method SlaveIndex(slaves: seq<nat>, slaveDof: nat) returns (idx: nat)
    ensures idx == LastIndex(slaves, slaveDof)
    ensures slaveDof in slaves ==>
      idx < |slaves| && slaves[idx] == slaveDof && forall k :: idx < k < |slaves| ==> slaves[k] != slaveDof
    ensures slaveDof !in slaves ==> idx == 0
  {
    idx := 0;
    for counter := 0 to |slaves|
      invariant idx == LastIndex(slaves[..counter], slaveDof)
    {
      assert slaves[..counter + 1][..counter] == slaves[..counter];
      if slaves[counter] == slaveDof {
        idx := counter;
      }
    }
    assert slaves[..|slaves|] == slaves;
  }

  /**
   * The per-axis step of the sparsity-pattern generation: copy the cell's dof
   * list, overwrite every slave entry with the master in place, and record a
   * (master, slave) pair for each overwritten entry.
   */
  method RewriteCellDofs(dofs: seq<nat>, slave: nat, master: nat)
    returns (newDofs: seq<nat>, pairs: seq<nat>)
    ensures |newDofs| == |dofs|
    ensures forall k :: 0 <= k < |dofs| ==> newDofs[k] == if dofs[k] == slave then master else dofs[k]
    ensures pairs == MasterSlavePairs(dofs, slave, master)
    ensures |pairs| == 2 * |Occurrences(dofs, slave)|
  {
    var list := new nat[|dofs|](k requires 0 <= k < |dofs| => dofs[k]);
    pairs := [];
    for k := 0 to |dofs|
      invariant forall q :: 0 <= q < k ==> list[q] == if dofs[q] == slave then master else dofs[q]
      invariant forall q :: k <= q < |dofs| ==> list[q] == dofs[q]
      invariant pairs == MasterSlavePairs(dofs[..k], slave, master)
    {
      assert dofs[..k + 1][..k] == dofs[..k];
      if dofs[k] == slave {
        list[k] := master;
        pairs := pairs + [master, slave];
      }
    }
    assert dofs[..|dofs|] == dofs;
    MasterSlavePairsFacts(dofs, slave, master);
    newDofs := list[..];
  }

  /** Insertions for every master of one slave of one cell. */
  method InsertForMasters(dofs0: seq<nat>, dofs1: seq<nat>, slave: nat, ms: seq<nat>)
    returns (log: seq<Insertion>)
    ensures log == MasterInsertions(dofs0, dofs1, slave, ms)
  {
    log := [];
    for t := 0 to |ms|
      invariant log == MasterInsertions(dofs0, dofs1, slave, ms[..t])
    {
      var master := ms[t];
      var rows, rowPairs := RewriteCellDofs(dofs0, slave, master);
      var cols, colPairs := RewriteCellDofs(dofs1, slave, master);
      assert rows == Rewritten(dofs0, slave, master);
      assert cols == Rewritten(dofs1, slave, master);
      assert ms[..t + 1][..t] == ms[..t];
      log := log + [Insertion(rows, cols), Insertion(rowPairs, colPairs)];
    }
    assert ms[..|ms|] == ms;
  }

  /** Insertions for the slave entries of one slave cell. */
  method InsertForCell(dofs0: seq<nat>, dofs1: seq<nat>, cellSlaves: seq<nat>,
                       slaves: seq<nat>, masters: seq<nat>, offsets: seq<int>)
    returns (log: seq<Insertion>)
    requires MasterOffsetsValid(slaves, masters, offsets)
    requires forall k :: 0 <= k < |cellSlaves| ==> cellSlaves[k] in slaves
    ensures log == SlaveInsertions(dofs0, dofs1, cellSlaves, slaves, masters, offsets)
  {
    log := [];
    for t := 0 to |cellSlaves|
      invariant log == SlaveInsertions(dofs0, dofs1, cellSlaves[..t], slaves, masters, offsets)
    {
      var slaveIndex := SlaveIndex(slaves, cellSlaves[t]);
      var mastersI := masters[offsets[slaveIndex]..offsets[slaveIndex + 1]];
      var more := InsertForMasters(dofs0, dofs1, slaves[slaveIndex], mastersI);
      assert cellSlaves[..t + 1][..t] == cellSlaves[..t];
      log := log + more;
    }
    assert cellSlaves[..|cellSlaves|] == cellSlaves;
  }

  /**
   * The lists after `runs` classification runs, each computing `c`: that one
   * classification when it found slave cells; otherwise one copy of the
   * normal cells and one offset 0 per run.
   */
  ghost predicate Cached(state: Classification, runs: nat, c: Classification) {
    && runs >= 1
    && (c.slaveCells != [] ==> state == c)
    && (c.slaveCells == [] ==>
          && state.slaveCells == []
          && state.cellToSlave == []
          && state.normalCells == Repeat(c.normalCells, runs)
          && state.offsets == Repeat(c.offsets, runs))
  }

  /** A run that starts from no slave cells appends its classification and counts one more run. */
  lemma RunCached(start: Classification, runs: nat, c: Classification)
    requires (runs == 0 && start == Classification([], [], [], [])) || Cached(start, runs, c)
    requires start.slaveCells == [] && CsrEncoded(c)
    ensures Cached(Append(start, c), runs + 1, c)
  {
    if c.slaveCells == [] {
      assert c.cellToSlave == [];
      assert Repeat(c.normalCells, runs + 1) == Repeat(c.normalCells, runs) + c.normalCells;
      assert Repeat(c.offsets, runs + 1) == Repeat(c.offsets, runs) + c.offsets;
    }
  }

  /**
   * The cached lists form valid CSR ranges over the cells, and every recorded
   * slave entry is one of the slaves.
   */
  lemma CachedRanges(state: Classification, runs: nat, cellDofs: seq<seq<nat>>, slaves: seq<nat>)
    requires Cached(state, runs, Classify(cellDofs, slaves))
    ensures CellRangesValid(state.slaveCells, state.cellToSlave, state.offsets, |state.slaveCells|)
    ensures forall i :: 0 <= i < |state.slaveCells| ==> state.slaveCells[i] < |cellDofs|
    ensures forall k :: 0 <= k < |state.cellToSlave| ==> state.cellToSlave[k] in slaves
  {
    ClassifyCsr(cellDofs, slaves);
    ClassifyEntries(cellDofs, slaves);
    var c := Classify(cellDofs, slaves);
    if c.slaveCells != [] {
      assert state == c;
      forall a, b | 0 <= a <= b <= |c.slaveCells| ensures c.offsets[a] <= c.offsets[b] {
        if a < b {
          assert StrictlyIncreasing(c.offsets);
        }
      }
    } else {
      RepeatHead(c.offsets, runs);
    }
  }

  class MultiPointConstraint {
    /** Dof lists of the constrained space's cells, in mesh iteration order. */
    const cellDofs: seq<seq<nat>>
    const slaves: seq<nat>
    const masters: seq<nat>
    const coefficients: seq<real>
    /** `masters[offsets[k]..offsets[k+1]]` are the masters of the k-th slave. */
    const offsets: seq<int>

    var slaveCells: seq<nat>
    var normalCells: seq<nat>
    var offsetsCellToSlave: seq<nat>
    var cellToSlave: seq<nat>
    /** Number of classification runs so far. */
    ghost var runs: nat

    ghost function State(): Classification
      reads this
    {
      Classification(slaveCells, normalCells, cellToSlave, offsetsCellToSlave)
    }

    /**
     * The cached lists: one run's classification when it found slave cells;
     * otherwise one copy of the normal cells and one offset 0 per run.
     */
    ghost predicate Valid()
      reads this
    {
      Cached(State(), runs, Classify(cellDofs, slaves))
    }

    /** The state before the first classification run. */
    ghost predicate Unclassified()
      reads this
    {
      runs == 0 && State() == Classification([], [], [], [])
    }

    constructor (cellDofs: seq<seq<nat>>, slaves: seq<nat>, masters: seq<nat>,
                 coefficients: seq<real>, offsets: seq<int>)
      ensures Valid() && runs == 1
      ensures this.cellDofs == cellDofs && this.slaves == slaves && this.masters == masters
      ensures this.coefficients == coefficients && this.offsets == offsets
      ensures State() == Classify(cellDofs, slaves)
    {
      this.cellDofs := cellDofs;
      this.slaves := slaves;
      this.masters := masters;
      this.coefficients := coefficients;
      this.offsets := offsets;
      slaveCells, normalCells, offsetsCellToSlave, cellToSlave := [], [], [], [];
      runs := 0;
      new;
      var _, _ := CellClassification();
    }

    /**
     * Partition the cells into slave cells and normal cells.  The result is
     * cached only when some slave cell was found; otherwise every call runs
     * again and appends to the lists.
     */
    method CellClassification() returns (slave: seq<nat>, normal: seq<nat>)
      requires Valid() || Unclassified()
      modifies this`slaveCells, this`normalCells, this`offsetsCellToSlave, this`cellToSlave, this`runs
      ensures Valid()
      ensures old(slaveCells) != [] ==> State() == old(State()) && runs == old(runs)
      ensures old(slaveCells) == [] ==>
        State() == Append(old(State()), Classify(cellDofs, slaves)) && runs == old(runs) + 1
      ensures slave == slaveCells && normal == normalCells
    {
      if |slaveCells| > 0 {
        return slaveCells, normalCells;
      }
      ghost var start := State();
      RunClassification();
      ClassifyCsr(cellDofs, slaves);
      RunCached(start, runs, Classify(cellDofs, slaves));
      runs := runs + 1;
      slave, normal := slaveCells, normalCells;
    }

    /**
     * One classification run: the loop over the cells, appending each cell to
     * the slave or the normal cells and its slave entries and end offset to
     * the CSR arrays.
     */
    method RunClassification()
      modifies this`slaveCells, this`normalCells, this`offsetsCellToSlave, this`cellToSlave
      ensures State() == Append(old(State()), Classify(cellDofs, slaves))
    {
      ghost var start := State();
      var j: nat := 0;
      offsetsCellToSlave := offsetsCellToSlave + [j];
      for cell := 0 to |cellDofs|
        invariant State() == Append(start, Classify(cellDofs[..cell], slaves))
        invariant j == |Classify(cellDofs[..cell], slaves).cellToSlave|
      {
        ghost var prev := Classify(cellDofs[..cell], slaves);
        ghost var hits := SlaveHits(cellDofs[cell], slaves);
        j := ClassifyCell(cell, j);
        ClassifyExtend(cellDofs, slaves, cell);
        AppendDecide(start, prev, cell, hits, j);
      }
      assert cellDofs[..|cellDofs|] == cellDofs;
    }

    /**
     * The body of the classification loop for one cell: record its slave
     * entries, then append the cell and, for a slave cell, the end offset.
     */
    method ClassifyCell(cell: nat, j0: nat) returns (j: nat)
      requires cell < |cellDofs|
      modifies this`slaveCells, this`normalCells, this`offsetsCellToSlave, this`cellToSlave
      ensures j == j0 + |SlaveHits(cellDofs[cell], slaves)|
      ensures State() == Decide(old(State()), cell, SlaveHits(cellDofs[cell], slaves), j)
    {
      var slaveCell;
      slaveCell, j := RecordSlaveHits(cellDofs[cell], j0);
      if slaveCell {
        slaveCells := slaveCells + [cell];
        offsetsCellToSlave := offsetsCellToSlave + [j];
      } else {
        normalCells := normalCells + [cell];
      }
    }

    /**
     * The inner loops of the classification: for each slave in turn, append
     * it to `cellToSlave` once per dof of the cell equal to it, counting the
     * appended entries in `j`.
     */
    method RecordSlaveHits(dofs: seq<nat>, j0: nat) returns (slaveCell: bool, j: nat)
      modifies this`cellToSlave
      ensures cellToSlave == old(cellToSlave) + SlaveHits(dofs, slaves)
      ensures j == j0 + |SlaveHits(dofs, slaves)|
      ensures slaveCell <==> |SlaveHits(dofs, slaves)| > 0
    {
      slaveCell, j := false, j0;
      for s := 0 to |slaves|
        invariant cellToSlave == old(cellToSlave) + SlaveHits(dofs, slaves[..s])
        invariant j == j0 + |SlaveHits(dofs, slaves[..s])|
        invariant slaveCell <==> |SlaveHits(dofs, slaves[..s])| > 0
      {
        assert slaves[..s + 1][..s] == slaves[..s];
        var found;
        found, j := RecordOccurrences(dofs, slaves[s], j);
        slaveCell := slaveCell || found;
      }
      assert slaves[..|slaves|] == slaves;
    }

    /**
     * The innermost loop: append `slaveDof` to `cellToSlave` once per dof
     * equal to it, counting the appended entries in `j`.
     */
    method RecordOccurrences(dofs: seq<nat>, slaveDof: nat, j0: nat) returns (found: bool, j: nat)
      modifies this`cellToSlave
      ensures cellToSlave == old(cellToSlave) + Occurrences(dofs, slaveDof)
      ensures j == j0 + |Occurrences(dofs, slaveDof)|
      ensures found <==> |Occurrences(dofs, slaveDof)| > 0
    {
      found, j := false, j0;
      for i := 0 to |dofs|
        invariant cellToSlave == old(cellToSlave) + Occurrences(dofs[..i], slaveDof)
        invariant j == j0 + |Occurrences(dofs[..i], slaveDof)|
        invariant found <==> |Occurrences(dofs[..i], slaveDof)| > 0
      {
        assert dofs[..i + 1][..i] == dofs[..i];
        if dofs[i] == slaveDof {
          cellToSlave := cellToSlave + [slaveDof];
          j := j + 1;
          found := true;
        }
      }
      assert dofs[..|dofs|] == dofs;
    }

    /** The CSR arrays of the slave entries of each slave cell. */
    method CellToSlaveMapping() returns (flat: seq<nat>, cellOffsets: seq<nat>)
      ensures flat == cellToSlave && cellOffsets == offsetsCellToSlave
    {
      flat, cellOffsets := cellToSlave, offsetsCellToSlave;
    }

    /** The masters of the i-th slave, in order. */
    method Masters(i: nat) returns (owners: seq<nat>)
      requires i + 1 < |offsets|
      requires offsets[i] < offsets[i + 1] ==> 0 <= offsets[i] && offsets[i + 1] <= |masters|
      ensures offsets[i] < offsets[i + 1] ==> owners == masters[offsets[i]..offsets[i + 1]]
      ensures offsets[i] >= offsets[i + 1] ==> owners == []
    {
      owners := [];
      var j := offsets[i];
      while j < offsets[i + 1]
        invariant offsets[i] < offsets[i + 1] ==> offsets[i] <= j <= offsets[i + 1]
        invariant offsets[i] < offsets[i + 1] ==> owners == masters[offsets[i]..j]
        invariant offsets[i] >= offsets[i + 1] ==> owners == [] && j == offsets[i]
        decreases offsets[i + 1] - j
      {
        owners := owners + [masters[j]];
        j := j + 1;
      }
    }

    /** The coefficients of the i-th slave, in order. */
    method Coefficients(i: nat) returns (coeffs: seq<real>)
      requires i + 1 < |offsets|
      requires offsets[i] < offsets[i + 1] ==> 0 <= offsets[i] && offsets[i + 1] <= |coefficients|
      ensures offsets[i] < offsets[i + 1] ==> coeffs == coefficients[offsets[i]..offsets[i + 1]]
      ensures offsets[i] >= offsets[i + 1] ==> coeffs == []
    {
      coeffs := [];
      var j := offsets[i];
      while j < offsets[i + 1]
        invariant offsets[i] < offsets[i + 1] ==> offsets[i] <= j <= offsets[i + 1]
        invariant offsets[i] < offsets[i + 1] ==> coeffs == coefficients[offsets[i]..j]
        invariant offsets[i] >= offsets[i + 1] ==> coeffs == [] && j == offsets[i]
        decreases offsets[i + 1] - j
      {
        coeffs := coeffs + [coefficients[j]];
        j := j + 1;
      }
    }

    /**
     * The dof-rewriting part of the sparsity-pattern generation: for every
     * slave cell, every slave entry of that cell and every master of that
     * slave, insert the test/trial cell dof lists with the slave replaced by
     * the master, then the (master, slave) pairs.
     */
    method GenerateSparsityPattern(dofs0: seq<seq<nat>>, dofs1: seq<seq<nat>>)
      returns (log: seq<Insertion>)
      requires Valid()
      requires |dofs0| == |cellDofs| && |dofs1| == |cellDofs|
      requires MasterOffsetsValid(slaves, masters, offsets)
      ensures CellRangesValid(slaveCells, cellToSlave, offsetsCellToSlave, |slaveCells|)
      ensures forall i :: 0 <= i < |slaveCells| ==> slaveCells[i] < |cellDofs|
      ensures forall k :: 0 <= k < |cellToSlave| ==> cellToSlave[k] in slaves
      ensures log == PatternInsertions(dofs0, dofs1, slaveCells, cellToSlave, offsetsCellToSlave,
                                       slaves, masters, offsets, |slaveCells|)
    {
      CachedRanges(State(), runs, cellDofs, slaves);
      log := [];
      for i := 0 to |slaveCells|
        invariant CellRangesValid(slaveCells, cellToSlave, offsetsCellToSlave, i)
        invariant log == PatternInsertions(dofs0, dofs1, slaveCells, cellToSlave, offsetsCellToSlave,
                                           slaves, masters, offsets, i)
      {
        var cellSlaves := cellToSlave[offsetsCellToSlave[i]..offsetsCellToSlave[i + 1]];
        var cell := slaveCells[i];
        var more := InsertForCell(dofs0[cell], dofs1[cell], cellSlaves, slaves, masters, offsets);
        log := log + more;
        assert offsetsCellToSlave[i + 1] <= offsetsCellToSlave[|slaveCells|];
      }
    }
  }

  /** The constructor classifies; a later call returns the cached lists when slave cells exist. */
  lemma CachedWhenSlaveCellsExist(cellDofs: seq<seq<nat>>, slaves: seq<nat>, cell: nat)
    requires cell < |cellDofs| && TouchesSlave(cellDofs[cell], slaves)
    ensures Classify(cellDofs, slaves).slaveCells != []
  {
    ClassifyPartition(cellDofs, slaves);
  }

  /**
   * Without any slave dof in any cell, a run finds no slave cell, records
   * nothing and lists every cell as normal, in order; a rerun therefore lists
   * every cell a second time.
   */
  lemma {:induction false} NoSlaveCells(cellDofs: seq<seq<nat>>, slaves: seq<nat>)
    requires forall cell :: 0 <= cell < |cellDofs| ==> !TouchesSlave(cellDofs[cell], slaves)
    ensures var c := Classify(cellDofs, slaves);
      && c.slaveCells == [] && c.cellToSlave == [] && c.offsets == [0]
      && |c.normalCells| == |cellDofs|
      && (forall k :: 0 <= k < |cellDofs| ==> c.normalCells[k] == k)
      && Append(c, c).normalCells == c.normalCells + c.normalCells
  {
    if |cellDofs| > 0 {
      var n := |cellDofs| - 1;
      var init := cellDofs[..n];
      forall cell | 0 <= cell < n ensures !TouchesSlave(init[cell], slaves) {
        assert init[cell] == cellDofs[cell];
      }
      NoSlaveCells(init, slaves);
      SlaveHitsFacts(cellDofs[n], slaves);
    }
  }
}
