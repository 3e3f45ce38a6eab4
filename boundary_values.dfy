/**
 * Collection of Dirichlet boundary values for one function space
 * (cpp/dolfin/fem/Assembler.cpp, the loops over `bcs` that precede each
 * assembly step).
 *
 * A boundary condition is reduced to the space it constrains and the map
 * `dof -> value` it reports; whether a space contains another is a
 * relation given from outside.  Each condition whose space is contained in
 * the target space writes its values into the one map, later conditions
 * overwriting earlier ones on a shared dof.
 */
module BoundaryValues {

  /** A Dirichlet condition: the space it constrains and its dof values. */
  datatype DirichletBC = DirichletBC(space: nat, values: map<nat, real>)

  /** The map built from the conditions whose space `space` contains. */
  function Collected(space: nat, bcs: seq<DirichletBC>, contains: (nat, nat) -> bool): map<nat, real> {
    if |bcs| == 0 then map[]
    else
      var prev := Collected(space, bcs[..|bcs| - 1], contains);
      var bc := bcs[|bcs| - 1];
      if contains(space, bc.space) then prev + bc.values else prev
  }

  /** Condition `t` contributes a value for `dof` to the map of `space`. */
  predicate Supplies(space: nat, bcs: seq<DirichletBC>, contains: (nat, nat) -> bool, t: int, dof: nat) {
    0 <= t < |bcs| && contains(space, bcs[t].space) && dof in bcs[t].values
  }

  /** The loop over the conditions, filling the map. */
  method CollectBoundaryValues(space: nat, bcs: seq<DirichletBC>, contains: (nat, nat) -> bool)
    returns (boundaryValues: map<nat, real>)
    ensures boundaryValues == Collected(space, bcs, contains)
  {
    boundaryValues := map[];
    for k := 0 to |bcs|
      invariant boundaryValues == Collected(space, bcs[..k], contains)
    {
      assert bcs[..k + 1][..k] == bcs[..k];
      if contains(space, bcs[k].space) {
        boundaryValues := boundaryValues + bcs[k].values;
      }
    }
    assert bcs[..|bcs|] == bcs;
  }

  /**
   * A dof is constrained iff some contained condition supplies it, and its
   * value is that of the last such condition.
   */
  lemma {:induction false} CollectedEntries(space: nat, bcs: seq<DirichletBC>, contains: (nat, nat) -> bool, dof: nat)
    ensures dof in Collected(space, bcs, contains) <==> exists t :: Supplies(space, bcs, contains, t, dof)
    ensures dof in Collected(space, bcs, contains) ==>
      exists t :: && Supplies(space, bcs, contains, t, dof)
                  && Collected(space, bcs, contains)[dof] == bcs[t].values[dof]
                  && forall u :: t < u < |bcs| ==> !Supplies(space, bcs, contains, u, dof)
  {
    if |bcs| > 0 {
      var n := |bcs| - 1;
      var init := bcs[..n];
      CollectedEntries(space, init, contains, dof);
      forall t | 0 <= t < n
        ensures Supplies(space, init, contains, t, dof) <==> Supplies(space, bcs, contains, t, dof)
      {
        assert init[t] == bcs[t];
      }
      if dof in Collected(space, bcs, contains) && !Supplies(space, bcs, contains, n, dof) {
        var t :| && Supplies(space, init, contains, t, dof)
                 && Collected(space, init, contains)[dof] == init[t].values[dof]
                 && forall u :: t < u < n ==> !Supplies(space, init, contains, u, dof);
        assert Collected(space, bcs, contains)[dof] == bcs[t].values[dof];
        assert Supplies(space, bcs, contains, t, dof);
      }
    }
  }
}
