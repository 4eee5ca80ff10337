/**
 * The SHACL-SPARQL ASK constraint: each value node is bound to the `value`
 * variable of a copy of the constraint's query, by placing BIND patterns at
 * the front of the query's root graph pattern, and the value nodes for which
 * the query answers false are reported. Running the query is an oracle.
 */
module Ask {
  import opened Rdf

  /** An expression; only constant terms are built here, the others are
      carried through untouched. */
  datatype Expression = ConstantTerm(term: Term) | OtherExpression(text: string)

  /** An entry of a graph pattern's pattern list. */
  datatype Pattern =
    | BindPattern(variableName: string, expression: Expression)
    | OtherPattern(text: string)

  /** An assignment that is not yet placed in the pattern list. */
  datatype Assignment = Assignment(variableName: string, assignExpression: Expression)

  /** A graph pattern: its pattern list, its unplaced assignments, and its
      filters, child graph patterns and other members, carried as one
      opaque value. */
  datatype GraphPattern = GraphPattern(triplePatterns: seq<Pattern>, unplacedAssignments: seq<Assignment>,
                                       otherParts: string)

  /** A query: its root graph pattern and everything else about it. */
  datatype Query = Query(rootGraphPattern: GraphPattern, rest: string)

  /** The pattern that places an assignment. */
  function AsBind(a: Assignment): Pattern
  {
    BindPattern(a.variableName, a.assignExpression)
  }

  /** The BIND patterns of `assignments`, last assignment first. */
  function ReversedBinds(assignments: seq<Assignment>): seq<Pattern>
  {
    if assignments == [] then []
    else ReversedBinds(assignments[1..]) + [AsBind(assignments[0])]
  }

  /** The query that BindValue builds. */
  function BoundQuery(query: Query, valueNode: Term): Query
  {
    var root := query.rootGraphPattern;
    query.(rootGraphPattern := GraphPattern(
      [BindPattern("value", ConstantTerm(valueNode))]
      + ReversedBinds(root.unplacedAssignments) + root.triplePatterns,
      [], root.otherParts))
  }

  /** The `k`-th pattern of ReversedBinds is the bind of the `k`-th
      assignment from the end. */
  lemma {:induction false} ReversedBindsAt(assignments: seq<Assignment>, k: nat)
    requires k < |assignments|
    ensures |ReversedBinds(assignments)| == |assignments|
    ensures ReversedBinds(assignments)[k] == AsBind(assignments[|assignments| - 1 - k])
  {
    if k < |assignments| - 1 {
      ReversedBindsAt(assignments[1..], k);
    } else {
      ReversedBindsLength(assignments[1..]);
    }
  }

  lemma {:induction false} ReversedBindsLength(assignments: seq<Assignment>)
    ensures |ReversedBinds(assignments)| == |assignments|
  {
    if assignments != [] {
      ReversedBindsLength(assignments[1..]);
    }
  }

  /** The shape of the bound query: no unplaced assignments are left; the
      first pattern binds `value` to the value node; the former assignments
      follow as BIND patterns, in reverse order; then the original patterns,
      unchanged and in order. The filters and child patterns of the root
      pattern, and everything outside it, are kept. */
  lemma BoundQueryShape(query: Query, valueNode: Term)
    ensures var root := query.rootGraphPattern;
            var n := |root.unplacedAssignments|;
            var bound := BoundQuery(query, valueNode);
            var patterns := bound.rootGraphPattern.triplePatterns;
            bound.rest == query.rest
            && bound.rootGraphPattern.otherParts == root.otherParts
            && bound.rootGraphPattern.unplacedAssignments == []
            && |patterns| == |root.triplePatterns| + n + 1
            && patterns[0] == BindPattern("value", ConstantTerm(valueNode))
            && (forall k :: 1 <= k <= n ==>
                  patterns[k] == BindPattern(root.unplacedAssignments[n - k].variableName,
                                             root.unplacedAssignments[n - k].assignExpression))
            && (forall k :: n < k < |patterns| ==> patterns[k] == root.triplePatterns[k - 1 - n])
  {
    var root := query.rootGraphPattern;
    var n := |root.unplacedAssignments|;
    ReversedBindsLength(root.unplacedAssignments);
    forall k | 0 <= k < n
      ensures ReversedBinds(root.unplacedAssignments)[k] == AsBind(root.unplacedAssignments[n - 1 - k])
    {
      ReversedBindsAt(root.unplacedAssignments, k);
    }
  }

  /** Binds `valueNode` in a copy of `query`: the unplaced assignments are
      moved, one at a time, to the front of the pattern list as BIND
      patterns, and then a BIND of `value` goes in front of them all. */
  method BindValue(query: Query, valueNode: Term) returns (q: Query)
    ensures q == BoundQuery(query, valueNode)
  {
    q := query;
    var existingAssignments := q.rootGraphPattern.unplacedAssignments;
    q := q.(rootGraphPattern := q.rootGraphPattern.(unplacedAssignments := []));
    var i := 0;
    while i < |existingAssignments|
      invariant i <= |existingAssignments|
      invariant q == query.(rootGraphPattern := GraphPattern(
                   ReversedBinds(existingAssignments[..i]) + query.rootGraphPattern.triplePatterns, [],
                   query.rootGraphPattern.otherParts))
    {
      var existingAssignment := existingAssignments[i];
      ReversedBindsPrefix(existingAssignments, i, query.rootGraphPattern.triplePatterns);
      q := q.(rootGraphPattern := q.rootGraphPattern.(triplePatterns :=
             [BindPattern(existingAssignment.variableName, existingAssignment.assignExpression)]
             + q.rootGraphPattern.triplePatterns));
      i := i + 1;
    }
    assert existingAssignments[..i] == existingAssignments;
    q := q.(rootGraphPattern := q.rootGraphPattern.(triplePatterns :=
           [BindPattern("value", ConstantTerm(valueNode))] + q.rootGraphPattern.triplePatterns));
  }

  /** Placing the next assignment of a prefix puts its bind in front of the
      patterns placed so far. */
  lemma ReversedBindsPrefix(assignments: seq<Assignment>, i: nat, patterns: seq<Pattern>)
    requires i < |assignments|
    ensures ReversedBinds(assignments[..i + 1]) + patterns
            == [AsBind(assignments[i])] + (ReversedBinds(assignments[..i]) + patterns)
  {
    assert assignments[..i + 1] == assignments[..i] + [assignments[i]];
    ReversedBindsSnoc(assignments[..i], assignments[i]);
  }

  /** Appending an assignment puts its bind in front. */
  lemma {:induction false} ReversedBindsSnoc(assignments: seq<Assignment>, a: Assignment)
    ensures ReversedBinds(assignments + [a]) == [AsBind(a)] + ReversedBinds(assignments)
  {
    if assignments != [] {
      assert (assignments + [a])[1..] == assignments[1..] + [a];
      ReversedBindsSnoc(assignments[1..], a);
    } else {
      assert assignments + [a] == [a];
    }
  }

  /** The value nodes whose bound query the oracle `ask` answers false, in
      input order. */
  function Rejected(valueNodes: seq<Term>, query: Query, ask: Query -> bool): seq<Term>
  {
    if valueNodes == [] then []
    else
      (if ask(BoundQuery(query, valueNodes[0])) then [] else [valueNodes[0]])
      + Rejected(valueNodes[1..], query, ask)
  }

  /** A value node is rejected exactly when it is one of the value nodes and
      its bound query answers false. */
  lemma {:induction false} RejectedMembers(valueNodes: seq<Term>, query: Query, ask: Query -> bool, x: Term)
    ensures x in Rejected(valueNodes, query, ask) <==> x in valueNodes && !ask(BoundQuery(query, x))
  {
    if valueNodes != [] {
      RejectedMembers(valueNodes[1..], query, ask, x);
      assert x in valueNodes <==> x == valueNodes[0] || x in valueNodes[1..];
    }
  }

  /** Rejection works node by node, so the report keeps the input order. */
  lemma {:induction false} RejectedConcat(a: seq<Term>, b: seq<Term>, query: Query, ask: Query -> bool)
    ensures Rejected(a + b, query, ask) == Rejected(a, query, ask) + Rejected(b, query, ask)
  {
    if a != [] {
      assert (a + b)[1..] == a[1..] + b;
      RejectedConcat(a[1..], b, query, ask);
    } else {
      assert a + b == b;
    }
  }

  /** The value nodes that fail the constraint, collected by running the
      bound query of each value node in turn. */
  method ValidateInternal(valueNodes: seq<Term>, query: Query, ask: Query -> bool)
    returns (invalidValues: seq<Term>)
    ensures invalidValues == Rejected(valueNodes, query, ask)
  {
    invalidValues := [];
    var i := 0;
    while i < |valueNodes|
      invariant i <= |valueNodes|
      invariant invalidValues == Rejected(valueNodes[..i], query, ask)
    {
      var valueNode := valueNodes[i];
      var q := BindValue(query, valueNode);
      var result := ask(q);
      RejectedConcat(valueNodes[..i], [valueNode], query, ask);
      assert valueNodes[..i + 1] == valueNodes[..i] + [valueNode];
      if !result {
        invalidValues := invalidValues + [valueNode];
      }
      i := i + 1;
    }
    assert valueNodes[..i] == valueNodes;
  }
}
