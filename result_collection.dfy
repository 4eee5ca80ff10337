/**
 * The results of a SHACL validation report, kept as `sh:result` triples on
 * the report node in the report graph. Adding, removing and clearing results
 * assert and retract those triples. A full copy of a result also copies the
 * declaration of the graph combination that produced it, following blank
 * nodes and RDF list cells from the combination node.
 *
 * A result is identified with its node. The result's fields are read and
 * written through getters and setters that are not part of this model; here
 * a result's fields are a record of optional terms, and setting a field on a
 * fresh node asserts one triple when the value is present.
 */
module ResultCollection {
  import opened Wrappers
  import opened Rdf
  import VocabularyDs

  const ShNamespace := "http://www.w3.org/ns/shacl#"
  const ShResult := Iri(ShNamespace + "result")
  const ShResultSeverity := Iri(ShNamespace + "resultSeverity")
  const ShFocusNode := Iri(ShNamespace + "focusNode")
  const ShValue := Iri(ShNamespace + "value")
  const ShSourceShape := Iri(ShNamespace + "sourceShape")
  const ShResultMessage := Iri(ShNamespace + "resultMessage")
  const ShSourceConstraintComponent := Iri(ShNamespace + "sourceConstraintComponent")
  const ShResultPath := Iri(ShNamespace + "resultPath")
  const ShSourceConstraint := Iri(ShNamespace + "sourceConstraint")

  /** The ten fields a full copy takes over from a result. */
  datatype ResultFields = ResultFields(
    severity: Option<Term>,
    focusNode: Option<Term>,
    resultValue: Option<Term>,
    sourceShape: Option<Term>,
    message: Option<Term>,
    sourceConstraintComponent: Option<Term>,
    resultPath: Option<Term>,
    sourceConstraint: Option<Term>,
    sourceShapesGraph: Option<Term>,
    focusGraph: Option<Term>)

  /** The triple a setter asserts: none for an absent value. */
  function FieldTriple(node: Term, property: Term, value: Option<Term>): set<Triple>
  {
    if value.Some? then {Triple(node, property, value.value)} else {}
  }

  /** The predicates of the ten fields, in the order they are copied. */
  const FieldPredicates: seq<Term> := [
    ShResultSeverity, ShFocusNode, ShValue, ShSourceShape, ShResultMessage,
    ShSourceConstraintComponent, ShResultPath, ShSourceConstraint,
    VocabularyDs.SourceShapesGraph, VocabularyDs.FocusGraph]

  /** The ten field predicates differ pairwise. */
  lemma FieldPredicatesDistinct()
    ensures forall i, j :: 0 <= i < j < |FieldPredicates| ==> FieldPredicates[i] != FieldPredicates[j]
  {
    forall i, j | 0 <= i < j < |FieldPredicates|
      ensures FieldPredicates[i] != FieldPredicates[j]
    {
      // Only sh:sourceConstraintComponent and shds:sourceShapesGraph have
      // IRIs of equal length; their namespaces differ at index 27.
      if i == 5 && j == 8 {
        assert FieldPredicates[i].uri[27] != FieldPredicates[j].uri[27];
      } else {
        assert |FieldPredicates[i].uri| != |FieldPredicates[j].uri|;
      }
    }
  }

  /** The values of the ten fields, in the order of FieldPredicates. */
  function FieldValues(fields: ResultFields): (r: seq<Option<Term>>)
    ensures |r| == |FieldPredicates|
  {
    [fields.severity, fields.focusNode, fields.resultValue, fields.sourceShape, fields.message,
     fields.sourceConstraintComponent, fields.resultPath, fields.sourceConstraint,
     fields.sourceShapesGraph, fields.focusGraph]
  }

  /** The triples that describe the first `n` of the fields with predicates
      `preds` and values `vals` on `node`: one per present value. */
  function FieldTriplesUpTo(node: Term, preds: seq<Term>, vals: seq<Option<Term>>, n: nat): set<Triple>
    requires n <= |preds| == |vals|
  {
    if n == 0 then {}
    else FieldTriplesUpTo(node, preds, vals, n - 1) + FieldTriple(node, preds[n - 1], vals[n - 1])
  }

  /** The triples that describe all ten fields of `fields` on `node`. */
  function FieldTriples(node: Term, fields: ResultFields): set<Triple>
  {
    FieldTriplesUpTo(node, FieldPredicates, FieldValues(fields), |FieldPredicates|)
  }

  /** A triple describes one of the first `n` fields exactly when it has the
      node as subject, the predicate of such a field, and that field's value
      as object. */
  lemma {:induction false} FieldTriplesUpToMembers(node: Term, preds: seq<Term>, vals: seq<Option<Term>>,
                                                   n: nat, t: Triple)
    requires n <= |preds| == |vals|
    ensures t in FieldTriplesUpTo(node, preds, vals, n)
            <==> t.s == node && exists k :: 0 <= k < n && t.p == preds[k] && vals[k] == Some(t.o)
  {
    if n > 0 {
      FieldTriplesUpToMembers(node, preds, vals, n - 1, t);
    }
  }

  /** The copied fields can be read back: the triple with the `i`-th field
      predicate and object `v` is on the node exactly when the `i`-th field
      holds `v`. */
  lemma FieldTriplesReadBack(node: Term, fields: ResultFields, i: nat, v: Term)
    requires i < |FieldPredicates|
    ensures Triple(node, FieldPredicates[i], v) in FieldTriples(node, fields) <==> FieldValues(fields)[i] == Some(v)
  {
    FieldPredicatesDistinct();
    FieldTriplesUpToMembers(node, FieldPredicates, FieldValues(fields), |FieldPredicates|, Triple(node, FieldPredicates[i], v));
  }

  /** The copied field triples describe the new node with field predicates only. */
  lemma FieldTriplesShape(node: Term, fields: ResultFields, t: Triple)
    requires t in FieldTriples(node, fields)
    ensures t.s == node && t.p in FieldPredicates
  {
    FieldTriplesUpToMembers(node, FieldPredicates, FieldValues(fields), |FieldPredicates|, t);
  }

  /** Whether the copy descends into the triples of object `o`: it is a
      blank node or an RDF list cell (it has an `rdf:rest` triple). */
  predicate Follow(g: set<Triple>, o: Term)
  {
    o.Blank? || ObjectsOf(g, o, RdfRest) != {}
  }

  /** The triples of `g` one step on from `s`: the subject triples of every
      followed object of a triple in `s`. */
  function Successors(g: set<Triple>, s: set<Triple>): (r: set<Triple>)
    ensures r <= g
    ensures forall t :: t in r <==> t in g && exists u :: u in s && Follow(g, u.o) && t.s == u.o
  {
    set u, t | u in s && t in g && Follow(g, u.o) && t.s == u.o :: t
  }

  /** `s` already holds everything one step on from it. */
  predicate Closed(g: set<Triple>, s: set<Triple>)
  {
    Successors(g, s) <= s
  }

  /** A proper subset is smaller. */
  lemma ProperSubsetSmaller<T>(a: set<T>, b: set<T>)
    requires a < b
    ensures |a| < |b|
  {
    var extra := b - a;
    assert b == a + extra && a !! extra;
    assert extra != {};
  }

  /** Everything reachable from the triples `s` of `g`: the least closed
      superset of `s`. */
  function Closure(g: set<Triple>, s: set<Triple>): set<Triple>
    requires s <= g
    decreases |g - s|
  {
    var next := s + Successors(g, s);
    if next == s then s
    else
      ProperSubsetSmaller(g - next, g - s);
      Closure(g, next)
  }

  /** The closure holds `s`, stays within `g` and is closed. */
  lemma {:induction false} ClosureClosed(g: set<Triple>, s: set<Triple>)
    requires s <= g
    ensures s <= Closure(g, s) <= g
    ensures Closed(g, Closure(g, s))
    decreases |g - s|
  {
    var next := s + Successors(g, s);
    if next != s {
      ProperSubsetSmaller(g - next, g - s);
      ClosureClosed(g, next);
    }
  }

  /** The closure is contained in every closed set that holds `s`. */
  lemma {:induction false} ClosureLeast(g: set<Triple>, s: set<Triple>, t: set<Triple>)
    requires s <= g && s <= t && Closed(g, t)
    ensures Closure(g, s) <= t
    decreases |g - s|
  {
    var next := s + Successors(g, s);
    assert Successors(g, s) <= Successors(g, t);
    if next != s {
      ProperSubsetSmaller(g - next, g - s);
      ClosureLeast(g, next, t);
    }
  }

  /** One more triple `u` adds the subject triples of its object when that
      object is followed. */
  lemma SuccessorsAdd(g: set<Triple>, s: set<Triple>, u: Triple)
    ensures Successors(g, s + {u})
            == Successors(g, s) + (if Follow(g, u.o) then SubjectTriples(g, u.o) else {})
  {
  }

  /** The declaration triples a full copy takes from the shapes graph `g`:
      everything reachable from the combination node's own triples. */
  function Declaration(g: set<Triple>, combination: Option<Term>): set<Triple>
  {
    match combination
    case None => {}
    case Some(node) => Closure(g, SubjectTriples(g, node))
  }

  /** The declaration of a combination holds every triple of the combination
      node, and with every followed object all of that object's triples; it
      holds nothing that cannot be reached that way. */
  lemma DeclarationProperties(g: set<Triple>, node: Term)
    ensures SubjectTriples(g, node) <= Declaration(g, Some(node)) <= g
    ensures forall u, t :: u in Declaration(g, Some(node)) && Follow(g, u.o) && t in g && t.s == u.o
                           ==> t in Declaration(g, Some(node))
    ensures forall c :: SubjectTriples(g, node) <= c && Closed(g, c) ==> Declaration(g, Some(node)) <= c
  {
    var s := SubjectTriples(g, node);
    ClosureClosed(g, s);
    forall c | s <= c && Closed(g, c) ensures Closure(g, s) <= c {
      ClosureLeast(g, s, c);
    }
  }

  /** The loop invariant of the declaration copy: the copied triples and the
      queue cover the start triples, stay within the declaration `reach`,
      and everything one step on from a copied triple is copied or queued. */
  ghost predicate CopyInvariant(g: set<Triple>, start: set<Triple>, reach: set<Triple>,
                                copied: set<Triple>, queue: seq<Triple>)
  {
    start <= copied + Elems(queue)
    && copied + Elems(queue) <= reach
    && Successors(g, copied) <= copied + Elems(queue)
  }

  /** Dequeuing and copying the head triple, and queueing the triples of its
      object when it is followed, keeps the invariant. */
  lemma CopyStep(g: set<Triple>, start: set<Triple>, reach: set<Triple>,
                 copied: set<Triple>, queue: seq<Triple>, more: seq<Triple>)
    requires Closed(g, reach)
    requires CopyInvariant(g, start, reach, copied, queue)
    requires queue != []
    requires Elems(more) == if Follow(g, queue[0].o) then SubjectTriples(g, queue[0].o) else {}
    ensures CopyInvariant(g, start, reach, copied + {queue[0]}, queue[1..] + more)
  {
    var current := queue[0];
    assert Elems(queue) == {current} + Elems(queue[1..]);
    assert Elems(queue[1..] + more) == Elems(queue[1..]) + Elems(more);
    SuccessorsAdd(g, copied, current);
    assert Successors(g, {current}) <= Successors(g, reach);
  }

  /** Some triple of `p` has the object of `u` as its subject. */
  ghost predicate LeadsOn(p: set<Triple>, u: Triple)
  {
    exists t :: t in p && t.s == u.o
  }

  /** Every triple of `p` is in `g`, and its object is followed and is the
      subject of another triple of `p`: from a triple of `p` the queue can
      be fed forever, as on a cycle of blank nodes. */
  ghost predicate Unending(g: set<Triple>, p: set<Triple>)
  {
    p <= g && forall u {:trigger LeadsOn(p, u)} :: u in p ==> Follow(g, u.o) && LeadsOn(p, u)
  }

  /** The queue holds a triple of `p`. */
  ghost predicate Meets(p: set<Triple>, queue: seq<Triple>)
  {
    exists c :: c in p && c in queue
  }

  /** Dropping the head of a queue that holds an element of `p`, and
      appending `more`, leaves an element of `p` in the queue when `more`
      holds one should the head have been the only one. */
  lemma MeetsAfterDequeue<T>(p: set<T>, queue: seq<T>, more: seq<T>)
    requires exists c :: c in p && c in queue
    requires queue != [] && queue[0] in p ==> exists t :: t in p && t in more
    ensures exists c :: c in p && c in queue[1..] + more
  {
    var c :| c in p && c in queue;
    if c == queue[0] {
      var t :| t in p && t in more;
      assert t in queue[1..] + more;
    } else {
      assert c in queue[1..];
      assert c in queue[1..] + more;
    }
  }

  /** When the queue holds a triple of an unending set, it still holds one
      after a dequeue step. */
  lemma UnendingStep(g: set<Triple>, p: set<Triple>, queue: seq<Triple>, more: seq<Triple>)
    requires Unending(g, p) && Meets(p, queue)
    requires queue != []
    requires Follow(g, queue[0].o) ==> SubjectTriples(g, queue[0].o) <= Elems(more)
    ensures Meets(p, queue[1..] + more)
  {
    if queue[0] in p {
      var c := queue[0];
      assert LeadsOn(p, c);
      var t :| t in p && t.s == c.o;
      assert t in SubjectTriples(g, c.o);
      assert t in more;
    }
    MeetsAfterDequeue(p, queue, more);
  }

  /** Dequeuing a triple that is already copied, and copying nothing, keeps
      the invariant. */
  lemma CopySkip(g: set<Triple>, start: set<Triple>, reach: set<Triple>,
                 copied: set<Triple>, queue: seq<Triple>)
    requires CopyInvariant(g, start, reach, copied, queue)
    requires queue != [] && queue[0] in copied
    ensures CopyInvariant(g, start, reach, copied, queue[1..])
  {
    assert Elems(queue) == {queue[0]} + Elems(queue[1..]);
  }

  /** The head of the queue is a declaration triple, so copying it when it
      is not yet copied leaves fewer declaration triples to copy. */
  lemma VisitSmaller(g: set<Triple>, start: set<Triple>, reach: set<Triple>,
                     copied: set<Triple>, queue: seq<Triple>)
    requires CopyInvariant(g, start, reach, copied, queue)
    requires queue != [] && queue[0] !in copied
    ensures reach - (copied + {queue[0]}) < reach - copied
  {
    assert queue[0] in Elems(queue);
  }

  /** A minus combination over the one-cell list `_:l`, whose cell also
      carries an annotation that points back to it: `_:c shds:minus _:l`,
      `_:l rdf:first ex:g ; rdf:rest rdf:nil ; ex:note _:z` and
      `_:z ex:back _:l`. Evaluating the combination reads only the
      `shds:minus` triple and the cell's `rdf:first` and `rdf:rest`. */
  function AnnotatedListShapes(): set<Triple>
  {
    {Triple(Blank("c"), VocabularyDs.MinusCombination, Blank("l")),
     Triple(Blank("l"), Iri(RdfNamespace + "first"), Iri("http://example.org/g")),
     Triple(Blank("l"), RdfRest, Iri(RdfNamespace + "nil")),
     Triple(Blank("l"), Iri("http://example.org/note"), Blank("z")),
     Triple(Blank("z"), Iri("http://example.org/back"), Blank("l"))}
  }

  /** In that declaration the combination node's `shds:minus` triple leads to
      the annotation, and the annotation and its back link lead into each
      other through blank objects: the copy can go on forever. */
  lemma AnnotatedListUnending()
    ensures var p := {Triple(Blank("c"), VocabularyDs.MinusCombination, Blank("l")),
                      Triple(Blank("l"), Iri("http://example.org/note"), Blank("z")),
                      Triple(Blank("z"), Iri("http://example.org/back"), Blank("l"))};
            Unending(AnnotatedListShapes(), p) && p * SubjectTriples(AnnotatedListShapes(), Blank("c")) != {}
  {
    var g := AnnotatedListShapes();
    var down := Triple(Blank("c"), VocabularyDs.MinusCombination, Blank("l"));
    var note := Triple(Blank("l"), Iri("http://example.org/note"), Blank("z"));
    var back := Triple(Blank("z"), Iri("http://example.org/back"), Blank("l"));
    var p := {down, note, back};
    assert down in g && note in g && back in g;
    assert p <= g;
    assert LeadsOn(p, down) by { assert note in p && note.s == down.o; }
    assert LeadsOn(p, note) by { assert back in p && back.s == note.o; }
    assert LeadsOn(p, back) by { assert note in p && note.s == back.o; }
    forall u | u in p ensures Follow(g, u.o) && LeadsOn(p, u) {
      assert u == down || u == note || u == back;
    }
    assert Unending(g, p);
    assert down in SubjectTriples(g, Blank("c"));
    assert down in p * SubjectTriples(g, Blank("c"));
  }

  /** With the queue empty, the invariant says that the copied triples are
      exactly the declaration. */
  lemma CopyComplete(g: set<Triple>, node: Term, copied: set<Triple>)
    requires CopyInvariant(g, SubjectTriples(g, node), Declaration(g, Some(node)), copied, [])
    ensures copied == Declaration(g, Some(node))
  {
    assert Elems([]) == {};
    ClosureLeast(g, SubjectTriples(g, node), copied);
  }

  function Elems(q: seq<Triple>): (r: set<Triple>)
    ensures forall x :: x in r <==> x in q
  {
    set x | x in q
  }

  /** The triples of `s` in some order, as enumerating a graph gives them. */
  method Enumerate(s: set<Triple>) returns (q: seq<Triple>)
    ensures Elems(q) == s
  {
    q := [];
    var rest := s;
    while rest != {}
      invariant rest <= s
      invariant Elems(q) == s - rest
      decreases rest
    {
      var t :| t in rest;
      q := q + [t];
      rest := rest - {t};
    }
  }

  /** Writes the elements of `s`, in some order, into `arr` from `from` on,
      leaving the rest of `arr` as it was. */
  method WriteAll(arr: array<Term>, from: nat, s: set<Term>)
    requires from + |s| <= arr.Length
    modifies arr
    ensures forall k :: 0 <= k < from ==> arr[k] == old(arr[k])
    ensures forall k :: from + |s| <= k < arr.Length ==> arr[k] == old(arr[k])
    ensures forall x :: x in arr[from..from + |s|] <==> x in s
  {
    var pending := s;
    ghost var written: seq<Term> := [];
    var i := from;
    while pending != {}
      invariant pending <= s
      invariant i == from + |written| && |written| + |pending| == |s|
      invariant arr[from..i] == written
      invariant forall x :: x in written <==> x in s && x !in pending
      invariant forall k :: 0 <= k < from ==> arr[k] == old(arr[k])
      invariant forall k :: from + |s| <= k < arr.Length ==> arr[k] == old(arr[k])
      decreases pending
    {
      var x :| x in pending;
      arr[i] := x;
      written := written + [x];
      pending := pending - {x};
      i := i + 1;
    }
  }

  /** The results of one validation report: the `sh:result` objects of the
      report node in the report graph. */
  class ResultCollection {
    const report: Term
    const graph: Graph

    constructor(report: Term, graph: Graph)
      ensures this.report == report && this.graph == graph
    {
      this.report := report;
      this.graph := graph;
    }

    /** The triple that records `item` as a result. */
    function ResultTriple(item: Term): Triple
    {
      Triple(report, ShResult, item)
    }

    function Results(): (r: set<Term>)
      reads graph
      ensures forall item :: item in r <==> ResultTriple(item) in graph.triples
    {
      ObjectsOf(graph.triples, report, ShResult)
    }

    /** Whether `item` is a result: exactly when the report graph records it
        with an `sh:result` triple on the report node. */
    predicate Contains(item: Term): (b: bool)
      reads graph
      ensures b <==> Triple(report, ShResult, item) in graph.triples
    {
      item in Results()
    }

    /** The number of results. */
    function Count(): (n: nat)
      reads graph
      ensures n == |Results()|
      ensures n == 0 <==> forall item :: !Contains(item)
    {
      var r := Results();
      assert r != {} ==> exists x :: x in r && Contains(x);
      |r|
    }

    method Add(item: Term)
      modifies graph
      ensures graph.triples == old(graph.triples) + {ResultTriple(item)}
      ensures Contains(item)
    {
      graph.Assert(ResultTriple(item));
    }

    method Remove(item: Term) returns (contained: bool)
      modifies graph
      ensures contained == old(Contains(item))
      ensures graph.triples == old(graph.triples) - {ResultTriple(item)}
      ensures !Contains(item)
    {
      contained := Contains(item);
      graph.Retract(ResultTriple(item));
    }

    /** Removes every result; the report graph's other triples stay. */
    method Clear()
      modifies graph
      ensures Results() == {}
      ensures graph.triples == old(graph.triples) - (set item | item in old(Results()) :: ResultTriple(item))
    {
      var pending := Results();
      ghost var removed: set<Term> := {};
      while pending != {}
        invariant pending !! removed && pending + removed == old(Results())
        invariant graph.triples == old(graph.triples) - (set item | item in removed :: ResultTriple(item))
        decreases pending
      {
        var item :| item in pending;
        var _ := Remove(item);
        removed := removed + {item};
        pending := pending - {item};
      }
    }

    /** Copies the results into `arr` from `arrayIndex` on, in the order the
        report graph enumerates them; fails, changing nothing, when the index
        is negative or the results do not fit. */
    method CopyTo(arr: array<Term>, arrayIndex: int) returns (ok: bool)
      modifies arr
      ensures ok <==> 0 <= arrayIndex && arrayIndex + Count() <= arr.Length
      ensures !ok ==> arr[..] == old(arr[..])
      ensures ok ==> (forall k :: 0 <= k < arrayIndex ==> arr[k] == old(arr[k]))
                     && (forall k :: arrayIndex + Count() <= k < arr.Length ==> arr[k] == old(arr[k]))
                     && (forall x :: x in arr[arrayIndex..arrayIndex + Count()] <==> Contains(x))
    {
      if arrayIndex < 0 || arrayIndex + Count() > arr.Length {
        return false;
      }
      WriteAll(arr, arrayIndex, Results());
      return true;
    }

    /** Sets one field of the fresh result `node`. */
    method SetField(node: Term, property: Term, value: Option<Term>)
      modifies graph
      ensures graph.triples == old(graph.triples) + FieldTriple(node, property, value)
    {
      if value.Some? {
        graph.Assert(Triple(node, property, value.value));
      }
    }

    /** Adds a copy of a result under the fresh node `newNode`: its ten
        fields, then, for a combination node, the combination's declaration
        copied from the shapes graph `shapes` by a queue of triples, then the
        result itself. The original keeps no visited set and runs forever on
        a cycle of blank nodes; here at most `fuel` triples are dequeued and
        `completed` says whether the queue ran empty. */
    method AddFull(fields: ResultFields, newNode: Term, combination: Option<Term>,
                   shapes: set<Triple>, fuel: nat) returns (completed: bool)
      modifies graph
      ensures combination.None? ==> completed
      ensures combination.Some? && (exists p :: Unending(shapes, p) && p * SubjectTriples(shapes, combination.value) != {})
              ==> !completed
      ensures completed ==> graph.triples == old(graph.triples) + FieldTriples(newNode, fields)
                                             + Declaration(shapes, combination) + {ResultTriple(newNode)}
      ensures old(graph.triples) + FieldTriples(newNode, fields) + {ResultTriple(newNode)} <= graph.triples
      ensures graph.triples <= old(graph.triples) + FieldTriples(newNode, fields)
                               + Declaration(shapes, combination) + {ResultTriple(newNode)}
    {
      CopyFields(newNode, fields);
      completed := true;
      if combination.Some? {
        var dequeued;
        ghost var copied;
        completed, dequeued, copied := CopyDeclaration(combination.value, shapes, fuel);
      }
      Add(newNode);
    }

    /** Sets the ten fields of the fresh result `node` one by one, in the
        order of FieldPredicates. */
    method CopyFields(node: Term, fields: ResultFields)
      modifies graph
      ensures graph.triples == old(graph.triples) + FieldTriples(node, fields)
    {
      var i := 0;
      while i < |FieldPredicates|
        invariant i <= |FieldPredicates|
        invariant graph.triples == old(graph.triples) + FieldTriplesUpTo(node, FieldPredicates, FieldValues(fields), i)
      {
        SetField(node, FieldPredicates[i], FieldValues(fields)[i]);
        i := i + 1;
      }
    }

    /** Copies one dequeued triple and returns the triples to queue after
        it: those of its object when that object is followed. */
    method CopyTriple(current: Triple, shapes: set<Triple>) returns (more: seq<Triple>)
      modifies graph
      ensures graph.triples == old(graph.triples) + {current}
      ensures Elems(more) == if Follow(shapes, current.o) then SubjectTriples(shapes, current.o) else {}
    {
      graph.Assert(current);
      more := [];
      if Follow(shapes, current.o) {
        more := Enumerate(SubjectTriples(shapes, current.o));
      }
    }

    /** Dequeues and copies the head of the queue, which is not yet copied,
        and queues the triples of its object when that object is followed. */
    method CopyHead(shapes: set<Triple>, ghost start: set<Triple>, ghost reach: set<Triple>,
                    ghost copied: set<Triple>, queue: seq<Triple>) returns (next: seq<Triple>)
      requires Closed(shapes, reach)
      requires CopyInvariant(shapes, start, reach, copied, queue)
      requires queue != [] && queue[0] !in copied
      modifies graph
      ensures graph.triples == old(graph.triples) + {queue[0]}
      ensures CopyInvariant(shapes, start, reach, copied + {queue[0]}, next)
      ensures reach - (copied + {queue[0]}) < reach - copied
    {
      var more := CopyTriple(queue[0], shapes);
      CopyStep(shapes, start, reach, copied, queue, more);
      VisitSmaller(shapes, start, reach, copied, queue);
      next := queue[1..] + more;
    }

    /** The queue-driven copy of a combination's declaration, as the
        original does it: every dequeued triple is copied and the triples of
        its object are queued when that object is followed, whether or not
        they were copied before. At most `fuel` triples are dequeued;
        `dequeued` says how many were. When the declaration holds a cycle
        that the combination node's own triples lead into, the queue never
        runs empty. */
    method CopyDeclaration(node: Term, shapes: set<Triple>, fuel: nat)
      returns (completed: bool, dequeued: nat, ghost copied: set<Triple>)
      modifies graph
      ensures graph.triples == old(graph.triples) + copied
      ensures copied <= Declaration(shapes, Some(node))
      ensures completed ==> copied == Declaration(shapes, Some(node))
      ensures dequeued <= fuel && (!completed ==> dequeued == fuel)
      ensures forall p :: Unending(shapes, p) && p * SubjectTriples(shapes, node) != {} ==> !completed
    {
      var start := SubjectTriples(shapes, node);
      ghost var reach := Declaration(shapes, Some(node));
      DeclarationProperties(shapes, node);
      var queue := Enumerate(start);
      forall p | Unending(shapes, p) && p * start != {} ensures Meets(p, queue) {
        var c :| c in p * start;
        assert c in Elems(queue);
      }
      copied := {};
      dequeued := 0;
      while queue != [] && dequeued < fuel
        invariant dequeued <= fuel
        invariant graph.triples == old(graph.triples) + copied
        invariant CopyInvariant(shapes, start, reach, copied, queue)
        invariant forall p :: Unending(shapes, p) && p * start != {} ==> Meets(p, queue)
        decreases fuel - dequeued
      {
        var current := queue[0];
        var more := CopyTriple(current, shapes);
        CopyStep(shapes, start, reach, copied, queue, more);
        forall p | Unending(shapes, p) && p * start != {} ensures Meets(p, queue[1..] + more) {
          UnendingStep(shapes, p, queue, more);
        }
        copied := copied + {current};
        queue := queue[1..] + more;
        dequeued := dequeued + 1;
      }
      completed := queue == [];
      if completed {
        CopyComplete(shapes, node, copied);
      }
      forall p | Unending(shapes, p) && p * SubjectTriples(shapes, node) != {} ensures !completed {
        assert Meets(p, queue);
      }
    }

    /** The declaration copy with a visited set: a dequeued triple that is
        already copied is skipped, so the copy ends on every declaration,
        cycles included, and holds exactly the declaration. */
    method CopyDeclarationVisited(node: Term, shapes: set<Triple>) returns (ghost copied: set<Triple>)
      modifies graph
      ensures copied == Declaration(shapes, Some(node))
      ensures graph.triples == old(graph.triples) + Declaration(shapes, Some(node))
    {
      var start := SubjectTriples(shapes, node);
      ghost var reach := Declaration(shapes, Some(node));
      DeclarationProperties(shapes, node);
      var queue := Enumerate(start);
      var visited: set<Triple> := {};
      while queue != []
        invariant graph.triples == old(graph.triples) + visited
        invariant CopyInvariant(shapes, start, reach, visited, queue)
        decreases reach - visited, |queue|
      {
        var current := queue[0];
        if current in visited {
          CopySkip(shapes, start, reach, visited, queue);
          queue := queue[1..];
        } else {
          queue := CopyHead(shapes, start, reach, visited, queue);
          visited := visited + {current};
        }
      }
      CopyComplete(shapes, node, visited);
      copied := visited;
    }
  }
}
