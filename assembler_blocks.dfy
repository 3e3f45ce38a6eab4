/**
 * The monolithic block vector (cpp/dolfin/fem/Assembler.cpp,
 * `assemble(PETScVector&, BlockType)` on a non-nested block vector).
 *
 * Each linear form is assembled into its own vector of owned entries
 * followed by ghost entries.  The one big local vector holds the owned
 * entries of all blocks first, block after block, and then the ghost entries
 * of all blocks, block after block.  After the ghost exchange, `set_bc` is
 * applied to each block's window of owned entries.
 */
module BlockVector {
  import opened AssemblerLayout
  import VectorAssembly

  /** The owned sizes of the first `n` index maps, summed. */
  function OwnedBefore(maps: seq<IndexMap>, n: nat): nat
    requires n <= |maps|
  {
    if n == 0 then 0 else OwnedBefore(maps, n - 1) + maps[n - 1].owned
  }

  /** The ghost sizes of the first `n` index maps, summed. */
  function GhostBefore(maps: seq<IndexMap>, n: nat): nat
    requires n <= |maps|
  {
    if n == 0 then 0 else GhostBefore(maps, n - 1) + maps[n - 1].ghosts
  }

  /** The owned sizes of all index maps, summed. */
  function OwnedTotal(maps: seq<IndexMap>): nat {
    OwnedBefore(maps, |maps|)
  }

  /** The ghost sizes of all index maps, summed. */
  function GhostTotal(maps: seq<IndexMap>): nat {
    GhostBefore(maps, |maps|)
  }

  /** Block `i` holds the owned entries and then the ghost entries of index map `i`. */
  predicate BlocksFit(blocks: seq<seq<real>>, maps: seq<IndexMap>) {
    |blocks| == |maps| && forall i :: 0 <= i < |blocks| ==> |blocks[i]| == AllSize(maps[i])
  }

  /** The owned entries of the first `n` blocks, block after block. */
  function OwnedParts(blocks: seq<seq<real>>, maps: seq<IndexMap>, n: nat): (r: seq<real>)
    requires BlocksFit(blocks, maps) && n <= |maps|
    ensures |r| == OwnedBefore(maps, n)
  {
    if n == 0 then [] else OwnedParts(blocks, maps, n - 1) + blocks[n - 1][..maps[n - 1].owned]
  }

  /** The ghost entries of the first `n` blocks, block after block. */
  function GhostParts(blocks: seq<seq<real>>, maps: seq<IndexMap>, n: nat): (r: seq<real>)
    requires BlocksFit(blocks, maps) && n <= |maps|
    ensures |r| == GhostBefore(maps, n)
  {
    if n == 0 then [] else GhostParts(blocks, maps, n - 1) + blocks[n - 1][maps[n - 1].owned..]
  }

  /** The windows of block `i` end no later than where those of block `j > i` begin. */
  lemma {:induction false} TotalsGrow(maps: seq<IndexMap>, i: nat, j: nat)
    requires i < j <= |maps|
    ensures OwnedBefore(maps, i) + maps[i].owned <= OwnedBefore(maps, j)
    ensures GhostBefore(maps, i) + maps[i].ghosts <= GhostBefore(maps, j)
  {
    if j > i + 1 {
      TotalsGrow(maps, i, j - 1);
    }
  }

  /**
   * The offsets of block `i`, computed as in the source: `offset0` sums the
   * owned sizes of the earlier blocks; `offset1` sums the owned sizes of all
   * blocks and then the ghost sizes of the earlier blocks.
   */
  method BlockOffsets(maps: seq<IndexMap>, i: nat) returns (offset0: nat, offset1: nat)
    requires i < |maps|
    ensures offset0 == OwnedBefore(maps, i)
    ensures offset1 == OwnedTotal(maps) + GhostBefore(maps, i)
  {
    offset0, offset1 := 0, 0;
    for j := 0 to |maps|
      invariant offset1 == OwnedBefore(maps, j)
    {
      offset1 := offset1 + maps[j].owned;
    }
    for j := 0 to i
      invariant offset0 == OwnedBefore(maps, j)
      invariant offset1 == OwnedTotal(maps) + GhostBefore(maps, j)
    {
      offset0 := offset0 + maps[j].owned;
      offset1 := offset1 + maps[j].ghosts;
    }
  }

  /** Copies `src` into `values[start .. start + |src|)`; nothing else changes. */
  method CopyRange(values: array<real>, start: nat, src: seq<real>)
    requires start + |src| <= values.Length
    modifies values
    ensures forall p :: 0 <= p < values.Length ==>
      values[p] == if start <= p < start + |src| then src[p - start] else old(values[p])
  {
    for j := 0 to |src|
      invariant forall p :: 0 <= p < values.Length ==>
        values[p] == if start <= p < start + j then src[p - start] else old(values[p])
    {
      values[start + j] := src[j];
    }
  }

  /**
   * The two copies of one block: its first `size0` entries from `offset0`
   * on, the rest from `offset1` on.
   */
  method CopyBlock(values: array<real>, block: seq<real>, size0: nat, offset0: nat, offset1: nat)
    requires size0 <= |block| && offset0 + size0 <= offset1 && offset1 + (|block| - size0) <= values.Length
    modifies values
    ensures forall p :: 0 <= p < values.Length ==>
      values[p] == if offset0 <= p < offset0 + size0 then block[p - offset0]
                   else if offset1 <= p < offset1 + (|block| - size0) then block[size0 + (p - offset1)]
                   else old(values[p])
  {
    CopyRange(values, offset0, block[..size0]);
    CopyRange(values, offset1, block[size0..]);
  }

  /**
   * A window of `after` starting at `base` holds `prefix` (kept from
   * `before`) followed by `block`: it holds `prefix + block`.
   */
  lemma ShiftedAppend(before: seq<real>, after: seq<real>, base: nat, prefix: seq<real>, block: seq<real>)
    requires base + |prefix| + |block| <= |after| <= |before|
    requires forall p :: base <= p < base + |prefix| ==> after[p] == before[p] == prefix[p - base]
    requires forall p :: base + |prefix| <= p < base + |prefix| + |block| ==> after[p] == block[p - base - |prefix|]
    ensures forall p :: base <= p < base + |prefix + block| ==> after[p] == (prefix + block)[p - base]
  {
  }


  /**
   * `v` holds the owned entries of the first `i` blocks from 0 on and their
   * ghost entries from `OwnedTotal(maps)` on.
   */
  ghost predicate Copied(v: seq<real>, blocks: seq<seq<real>>, maps: seq<IndexMap>, i: nat)
    requires BlocksFit(blocks, maps) && i <= |maps| && |v| >= OwnedTotal(maps) + GhostTotal(maps)
  {
    var owned := OwnedTotal(maps);
    && OwnedBefore(maps, i) <= owned && GhostBefore(maps, i) <= GhostTotal(maps)
    && (forall p :: 0 <= p < OwnedBefore(maps, i) ==> v[p] == OwnedParts(blocks, maps, i)[p])
    && (forall p :: owned <= p < owned + GhostBefore(maps, i) ==> v[p] == GhostParts(blocks, maps, i)[p - owned])
  }

  /** One pass of the copy loop: block `i` goes to its two offsets. */
  method CopyNext(values: array<real>, blocks: seq<seq<real>>, maps: seq<IndexMap>, i: nat)
    requires BlocksFit(blocks, maps) && i < |maps| && values.Length >= OwnedTotal(maps) + GhostTotal(maps)
    requires Copied(values[..], blocks, maps, i)
    modifies values
    ensures Copied(values[..], blocks, maps, i + 1)
    ensures forall p :: OwnedTotal(maps) + GhostTotal(maps) <= p < values.Length ==> values[p] == old(values[p])
  {
    var offset0, offset1 := BlockOffsets(maps, i);
    TotalsGrow(maps, i, |maps|);
    ghost var before := values[..];
    CopyBlock(values, blocks[i], maps[i].owned, offset0, offset1);
    ShiftedAppend(before, values[..], 0, OwnedParts(blocks, maps, i), blocks[i][..maps[i].owned]);
    ShiftedAppend(before, values[..], OwnedTotal(maps), GhostParts(blocks, maps, i), blocks[i][maps[i].owned..]);
  }

  /**
   * The copy of every block into the big local vector: the owned entries of
   * block `i` from `offset0` on, its ghost entries from `offset1` on.
   */
  method CopyBlocks(values: array<real>, blocks: seq<seq<real>>, maps: seq<IndexMap>)
    requires BlocksFit(blocks, maps)
    requires values.Length >= OwnedTotal(maps) + GhostTotal(maps)
    modifies values
    ensures forall p :: 0 <= p < OwnedTotal(maps) ==> values[p] == OwnedParts(blocks, maps, |maps|)[p]
    ensures forall p :: OwnedTotal(maps) <= p < OwnedTotal(maps) + GhostTotal(maps) ==>
      values[p] == GhostParts(blocks, maps, |maps|)[p - OwnedTotal(maps)]
    ensures forall p :: OwnedTotal(maps) + GhostTotal(maps) <= p < values.Length ==> values[p] == old(values[p])
  {
    for i := 0 to |maps|
      invariant Copied(values[..], blocks, maps, i)
      invariant forall p :: OwnedTotal(maps) + GhostTotal(maps) <= p < values.Length ==> values[p] == old(values[p])
    {
      CopyNext(values, blocks, maps, i);
    }
    assert Copied(values[..], blocks, maps, |maps|);
  }

  /** Owned entry `k` of block `i` sits at the owned sizes of the earlier blocks plus `k`. */
  lemma {:induction false} OwnedPartsAt(blocks: seq<seq<real>>, maps: seq<IndexMap>, n: nat, i: nat, k: nat)
    requires BlocksFit(blocks, maps) && i < n <= |maps| && k < maps[i].owned
    ensures OwnedBefore(maps, i) + k < OwnedBefore(maps, n)
    ensures OwnedParts(blocks, maps, n)[OwnedBefore(maps, i) + k] == blocks[i][k]
  {
    TotalsGrow(maps, i, n);
    if i < n - 1 {
      OwnedPartsAt(blocks, maps, n - 1, i, k);
    }
  }

  /**
   * Ghost entry `k` of block `i` sits after all owned entries, at the ghost
   * sizes of the earlier blocks plus `k`.
   */
  lemma {:induction false} GhostPartsAt(blocks: seq<seq<real>>, maps: seq<IndexMap>, n: nat, i: nat, k: nat)
    requires BlocksFit(blocks, maps) && i < n <= |maps| && k < maps[i].ghosts
    ensures GhostBefore(maps, i) + k < GhostBefore(maps, n)
    ensures GhostParts(blocks, maps, n)[GhostBefore(maps, i) + k] == blocks[i][maps[i].owned + k]
  {
    TotalsGrow(maps, i, n);
    if i < n - 1 {
      GhostPartsAt(blocks, maps, n - 1, i, k);
    }
  }

  /** In `v`, the owned window of block `t` holds its boundary values over `initial`. */
  ghost predicate WindowSet(v: seq<real>, initial: seq<real>, maps: seq<IndexMap>, bcs: seq<map<nat, real>>, t: nat)
    requires t < |maps| && t < |bcs| && |v| == |initial|
  {
    var offset := OwnedBefore(maps, t);
    forall p :: offset <= p < offset + maps[t].owned && p < |v| ==>
      v[p] == if p - offset in bcs[t] then bcs[t][p - offset] else initial[p]
  }

  /** A window that ends by `offset` survives changes made at `offset` and beyond. */
  lemma WindowKept(before: seq<real>, after: seq<real>, initial: seq<real>,
                   maps: seq<IndexMap>, bcs: seq<map<nat, real>>, t: nat, offset: nat)
    requires t < |maps| && t < |bcs| && |before| == |after| == |initial|
    requires OwnedBefore(maps, t) + maps[t].owned <= offset
    requires forall p :: 0 <= p < offset && p < |after| ==> after[p] == before[p]
    requires WindowSet(before, initial, maps, bcs, t)
    ensures WindowSet(after, initial, maps, bcs, t)
  {
  }

  /**
   * The loop applying each block's boundary values to that block's window of
   * owned entries, the window offset growing by each block's owned size.
   */
  method SetBcBlocks(values: array<real>, maps: seq<IndexMap>, bcs: seq<map<nat, real>>)
    requires |bcs| == |maps| && OwnedTotal(maps) <= values.Length
    modifies values
    ensures forall i, p ::
      0 <= i < |maps| && OwnedBefore(maps, i) <= p < OwnedBefore(maps, i) + maps[i].owned && p < values.Length ==>
      values[p] == if p - OwnedBefore(maps, i) in bcs[i] then bcs[i][p - OwnedBefore(maps, i)] else old(values[p])
    ensures forall p :: OwnedTotal(maps) <= p < values.Length ==> values[p] == old(values[p])
  {
    ghost var initial := values[..];
    var offset: nat := 0;
    for i := 0 to |maps|
      invariant offset == OwnedBefore(maps, i) <= OwnedTotal(maps)
      invariant forall t :: 0 <= t < i ==> WindowSet(values[..], initial, maps, bcs, t)
      invariant forall p :: offset <= p < values.Length ==> values[p] == initial[p]
    {
      TotalsGrow(maps, i, |maps|);
      ghost var before := values[..];
      VectorAssembly.SetBc(values, offset, maps[i].owned, bcs[i]);
      forall t | 0 <= t < i ensures WindowSet(values[..], initial, maps, bcs, t) {
        TotalsGrow(maps, t, i);
        WindowKept(before, values[..], initial, maps, bcs, t, offset);
      }
      assert WindowSet(values[..], initial, maps, bcs, i);
      offset := offset + maps[i].owned;
    }
    forall i, p | 0 <= i < |maps| && OwnedBefore(maps, i) <= p < OwnedBefore(maps, i) + maps[i].owned && p < values.Length
      ensures values[p] == if p - OwnedBefore(maps, i) in bcs[i] then bcs[i][p - OwnedBefore(maps, i)] else initial[p]
    {
      assert WindowSet(values[..], initial, maps, bcs, i);
    }
  }
}
