/**
 * The SHACL-DS minus combination: the triples of the graph its first
 * argument combines to that are not in the graph its last argument combines
 * to. Reading the RDF argument list (`listItems`, `isListRoot`) and
 * evaluating an argument's combination over the data dataset (`combined`,
 * which may fail, as a nested minus does) are parameters.
 */
module MinusCombination {
  import opened Wrappers
  import opened Rdf
  import VocabularyDs
  import opened GraphCombination

  /** Why a combination cannot be evaluated. */
  datatype MinusError =
    | NotSingleMinus                 // the node has no or several `shds:minus` triples
    | NotListRoot                    // the `shds:minus` object is not an RDF list
    | NoArguments                    // the normalised argument list is empty
    | ArgumentError(e: ParseError)   // the first or last argument does not parse
    | OtherFailure                   // an atom, or or and evaluation failed

  /** The `shds:minus` triples of `node` in the shapes graph. */
  function MinusTriples(shapes: set<Triple>, node: Term): (r: set<Triple>)
    ensures forall t :: t in r <==> t in shapes && t.s == node && t.p == VocabularyDs.MinusCombination
  {
    set t | t in shapes && t.s == node && t.p == VocabularyDs.MinusCombination
  }

  /** The result of a minus over the normalised argument list `arguments`:
      the graph of the first argument less the graph of the last. The first
      argument is parsed and evaluated before the last one is, so its
      failure is the one reported. */
  function Difference(arguments: seq<Term>, shapes: set<Triple>,
                      combined: Combination -> Result<set<Triple>, MinusError>): Result<set<Triple>, MinusError>
  {
    if arguments == [] then Err(NoArguments)
    else
      match Parse(arguments[0], shapes)
      case Err(e) => Err(ArgumentError(e))
      case Ok(first) =>
        match combined(first)
        case Err(e) => Err(e)
        case Ok(pos) =>
          match Parse(arguments[|arguments| - 1], shapes)
          case Err(e) => Err(ArgumentError(e))
          case Ok(last) =>
            match combined(last)
            case Err(e) => Err(e)
            case Ok(neg) => Ok(pos - neg)
  }

  /** What evaluating the minus combination declared by `node` yields. */
  function TargetCombinedSpec(node: Term, shapes: set<Triple>, graphNames: seq<GraphKey>,
                              listItems: Term -> seq<Term>, isListRoot: Term -> bool,
                              combined: Combination -> Result<set<Triple>, MinusError>): Result<set<Triple>, MinusError>
  {
    match Single(MinusTriples(shapes, node))
    case None => Err(NotSingleMinus)
    case Some(d) =>
      if !isListRoot(d.o) then Err(NotListRoot)
      else Difference(Arguments(listItems, d.o, graphNames), shapes, combined)
  }

  /** Evaluates the minus combination declared by `node`: the positive
      graph's triples are asserted one by one into a fresh graph when the
      negative graph does not hold them. */
  method TargetCombined(node: Term, shapes: set<Triple>, graphNames: seq<GraphKey>,
                        listItems: Term -> seq<Term>, isListRoot: Term -> bool,
                        combined: Combination -> Result<set<Triple>, MinusError>)
    returns (r: Result<Graph, MinusError>)
    ensures var spec := TargetCombinedSpec(node, shapes, graphNames, listItems, isListRoot, combined);
            (r.Ok? <==> spec.Ok?)
            && (r.Ok? ==> fresh(r.value) && r.value.triples == spec.value)
            && (r.Err? ==> r.error == spec.error)
  {
    var declaration := Single(MinusTriples(shapes, node));
    if declaration.None? {
      return Err(NotSingleMinus);
    }
    var argumentsList := declaration.value.o;
    if !isListRoot(argumentsList) {
      return Err(NotListRoot);
    }
    var arguments := Arguments(listItems, argumentsList, graphNames);
    if arguments == [] {
      return Err(NoArguments);
    }
    var first := Parse(arguments[0], shapes);
    if first.Err? {
      return Err(ArgumentError(first.error));
    }
    var positive := combined(first.value);
    if positive.Err? {
      return Err(positive.error);
    }
    var last := Parse(arguments[|arguments| - 1], shapes);
    if last.Err? {
      return Err(ArgumentError(last.error));
    }
    var negative := combined(last.value);
    if negative.Err? {
      return Err(negative.error);
    }
    var targetCombined := Subtract(positive.value, negative.value);
    return Ok(targetCombined);
  }

  /** Asserts into a fresh graph, one by one, the triples of `pos` that
      `neg` does not hold. */
  method Subtract(pos: set<Triple>, neg: set<Triple>) returns (targetCombined: Graph)
    ensures fresh(targetCombined)
    ensures targetCombined.triples == pos - neg
  {
    targetCombined := new Graph();
    var rest := pos;
    while rest != {}
      invariant rest <= pos
      invariant targetCombined.triples == (pos - rest) - neg
      decreases rest
    {
      var t :| t in rest;
      if t !in neg {
        targetCombined.Assert(t);
      }
      rest := rest - {t};
    }
  }

  /** A successful minus holds exactly the triples of the first argument's
      graph that the last argument's graph lacks: a subset of the first,
      disjoint from the last. */
  lemma DifferenceContents(arguments: seq<Term>, shapes: set<Triple>,
                           combined: Combination -> Result<set<Triple>, MinusError>)
    requires Difference(arguments, shapes, combined).Ok?
    ensures arguments != []
    ensures Parse(arguments[0], shapes).Ok? && Parse(arguments[|arguments| - 1], shapes).Ok?
    ensures combined(Parse(arguments[0], shapes).value).Ok?
    ensures combined(Parse(arguments[|arguments| - 1], shapes).value).Ok?
    ensures var pos := combined(Parse(arguments[0], shapes).value).value;
            var neg := combined(Parse(arguments[|arguments| - 1], shapes).value).value;
            var r := Difference(arguments, shapes, combined).value;
            r <= pos && r !! neg && (forall t :: t in r <==> t in pos && t !in neg)
  {
  }

  /** A failure of an argument's evaluation is the minus's failure, and the
      first argument's failure is reported before anything about the last
      argument is looked at. */
  lemma DifferenceFailures(arguments: seq<Term>, shapes: set<Triple>,
                           combined: Combination -> Result<set<Triple>, MinusError>)
    requires arguments != []
    ensures Parse(arguments[0], shapes).Ok? && combined(Parse(arguments[0], shapes).value).Err?
            ==> Difference(arguments, shapes, combined).Err?
                && Difference(arguments, shapes, combined).error == combined(Parse(arguments[0], shapes).value).error
    ensures Parse(arguments[0], shapes).Ok? && combined(Parse(arguments[0], shapes).value).Ok?
            && Parse(arguments[|arguments| - 1], shapes).Ok?
            && combined(Parse(arguments[|arguments| - 1], shapes).value).Err?
            ==> Difference(arguments, shapes, combined).Err?
                && Difference(arguments, shapes, combined).error
                   == combined(Parse(arguments[|arguments| - 1], shapes).value).error
  {
  }

  /** The arguments between the first and the last play no part. */
  lemma DifferenceIgnoresMiddle(a: seq<Term>, b: seq<Term>, shapes: set<Triple>,
                                combined: Combination -> Result<set<Triple>, MinusError>)
    requires a != [] && b != [] && a[0] == b[0] && a[|a| - 1] == b[|b| - 1]
    ensures Difference(a, shapes, combined) == Difference(b, shapes, combined)
  {
  }

  /** With a single argument that evaluates, the minus is empty. */
  lemma DifferenceOfOne(argument: Term, shapes: set<Triple>,
                        combined: Combination -> Result<set<Triple>, MinusError>)
    requires Parse(argument, shapes).Ok? && combined(Parse(argument, shapes).value).Ok?
    ensures Difference([argument], shapes, combined) == Ok({})
  {
    var c := combined(Parse(argument, shapes).value).value;
    assert c - c == {};
  }

  /** The example of a nested minus below: `_:o shds:minus _:l`, where the
      list `_:l` holds `_:m` and `ex:g`, and `_:m shds:minus ex:notalist`. */
  function NestedShapes(): set<Triple>
  {
    {Triple(Blank("o"), VocabularyDs.MinusCombination, Blank("l")),
     Triple(Blank("m"), VocabularyDs.MinusCombination, Iri("http://example.org/notalist"))}
  }

  function NestedListItems(t: Term): seq<Term>
  {
    if t == Blank("l") then [Blank("m"), Iri("http://example.org/g")] else []
  }

  predicate NestedIsListRoot(t: Term)
  {
    t == Blank("l")
  }

  /** Evaluating the example's argument combinations: a minus by the minus
      evaluation itself (one level deep), anything else to the empty graph. */
  function NestedCombined(c: Combination): Result<set<Triple>, MinusError>
  {
    if c.Minus? then
      TargetCombinedSpec(c.node, NestedShapes(), [], NestedListItems, NestedIsListRoot, _ => Ok({}))
    else Ok({})
  }

  /** A nested minus whose arguments are not a list fails, and so does the
      minus that takes it as its first argument. */
  lemma NestedFailurePropagates()
    ensures NestedCombined(Minus(Blank("m"))) == Err(NotListRoot)
    ensures TargetCombinedSpec(Blank("o"), NestedShapes(), [], NestedListItems, NestedIsListRoot, NestedCombined)
            == Err(NotListRoot)
  {
    var shapes := NestedShapes();
    var o, l, m := Blank("o"), Blank("l"), Blank("m");
    var outer := Triple(o, VocabularyDs.MinusCombination, l);
    var inner := Triple(m, VocabularyDs.MinusCombination, Iri("http://example.org/notalist"));
    assert MinusTriples(shapes, m) == {inner};
    assert MinusTriples(shapes, o) == {outer};
    assert SubjectTriples(shapes, m) == {inner};
    VocabularyDs.ShaclDsNodeInjective("or", "minus");
    VocabularyDs.ShaclDsNodeInjective("and", "minus");
    assert Parse(m, shapes) == Ok(Minus(m));
    var g := Iri("http://example.org/g");
    assert Arguments(NestedListItems, l, []) == [m, g] by {
      assert NestedListItems(l) == [m, g];
      assert VocabularyDs.TargetGraphAll.Iri? && VocabularyDs.TargetGraphNamed.Iri?;
      assert Expand(m, []) == [m];
      assert g != VocabularyDs.TargetGraphAll && g != VocabularyDs.TargetGraphNamed by {
        assert |g.uri| != |VocabularyDs.TargetGraphAll.uri|;
        assert |g.uri| != |VocabularyDs.TargetGraphNamed.uri|;
      }
      assert Expand(g, []) == [g];
      assert [m, g][1..] == [g] && [g][1..] == [];
      assert NormalizedArgumentsList([g], []) == [g] + NormalizedArgumentsList([], []);
      assert NormalizedArgumentsList([m, g], []) == [m] + NormalizedArgumentsList([g], []);
    }
  }

  /** The node's own declaration is looked at first: without exactly one
      `shds:minus` triple the evaluation fails with NotSingleMinus, and with
      one whose object is not a list root it fails with NotListRoot.
      Otherwise the result is the minus over the normalised items of that
      list, whose argument failures are passed on unchanged. */
  lemma TargetCombinedErrors(node: Term, shapes: set<Triple>, graphNames: seq<GraphKey>,
                             listItems: Term -> seq<Term>, isListRoot: Term -> bool,
                             combined: Combination -> Result<set<Triple>, MinusError>)
    ensures var r := TargetCombinedSpec(node, shapes, graphNames, listItems, isListRoot, combined);
            (|MinusTriples(shapes, node)| != 1 ==> r == Err(NotSingleMinus))
            && (|MinusTriples(shapes, node)| == 1
                <==> exists o :: MinusTriples(shapes, node) == {Triple(node, VocabularyDs.MinusCombination, o)})
            && (forall o :: MinusTriples(shapes, node) == {Triple(node, VocabularyDs.MinusCombination, o)}
                  ==> r == (if isListRoot(o) then Difference(Arguments(listItems, o, graphNames), shapes, combined)
                            else Err(NotListRoot)))
  {
    var ms := MinusTriples(shapes, node);
    var d := Single(ms);
    if d.Some? {
      assert d.value in ms;
      assert ms == {Triple(node, VocabularyDs.MinusCombination, d.value.o)};
      forall o | ms == {Triple(node, VocabularyDs.MinusCombination, o)} ensures o == d.value.o {
        assert Triple(node, VocabularyDs.MinusCombination, o) in ms;
      }
    }
  }
}
