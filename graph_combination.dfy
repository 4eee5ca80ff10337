/**
 * SHACL-DS graph combinations: expanding the `shds:all` and `shds:named`
 * argument keywords into graph names, and recognising the kind of a
 * combination declaration from the one predicate its node carries.
 */
module GraphCombination {
  import opened Wrappers
  import opened Rdf
  import VocabularyDs

  /** The kinds of combination a declaration node can denote; each keeps the
      node it was parsed from. */
  datatype Combination =
    | Atom(node: Term)
    | Or(node: Term)
    | And(node: Term)
    | Minus(node: Term)

  /** Why a declaration could not be parsed: its node is not the subject of
      exactly one triple, or that triple's predicate is not a combination
      predicate ("Unknown graph combination type."). */
  datatype ParseError = NotSingle | UnknownCombinationType

  /** The names of the data dataset's graphs, in enumeration order, without
      the default graph's null name. */
  function NamedGraphNames(graphNames: seq<GraphKey>): (r: seq<Term>)
    ensures |r| <= |graphNames|
    ensures forall t :: t in r <==> Named(t) in graphNames
  {
    if graphNames == [] then []
    else
      var rest := NamedGraphNames(graphNames[1..]);
      assert forall k :: k in graphNames <==> k == graphNames[0] || k in graphNames[1..];
      match graphNames[0]
      case DefaultGraph => rest
      case Named(n) => [n] + rest
  }

  /** The names keep the dataset's enumeration order: the names for `a + b`
      are the names for `a` followed by the names for `b`. */
  lemma {:induction false} NamedGraphNamesConcat(a: seq<GraphKey>, b: seq<GraphKey>)
    ensures NamedGraphNames(a + b) == NamedGraphNames(a) + NamedGraphNames(b)
  {
    if a != [] {
      assert (a + b)[1..] == a[1..] + b;
      NamedGraphNamesConcat(a[1..], b);
    } else {
      assert a + b == b;
    }
  }

  /** The graph names one argument stands for: `shds:all` every named graph
      of the dataset and `shds:default`, `shds:named` every named graph, and
      any other argument itself. */
  function Expand(argument: Term, graphNames: seq<GraphKey>): (r: seq<Term>)
    ensures argument == VocabularyDs.TargetGraphAll
            ==> forall t :: t in r <==> Named(t) in graphNames || t == VocabularyDs.TargetGraphDefault
    ensures argument == VocabularyDs.TargetGraphNamed
            ==> forall t :: t in r <==> Named(t) in graphNames
    ensures argument != VocabularyDs.TargetGraphAll && argument != VocabularyDs.TargetGraphNamed
            ==> r == [argument]
  {
    VocabularyDs.ShaclDsNodeInjective("all", "named");
    if argument == VocabularyDs.TargetGraphAll then
      NamedGraphNames(graphNames) + [VocabularyDs.TargetGraphDefault]
    else if argument == VocabularyDs.TargetGraphNamed then
      NamedGraphNames(graphNames)
    else
      [argument]
  }

  /** The argument list with every keyword replaced by the graph names it
      stands for, argument by argument: every argument that is not a keyword
      is kept, and nothing comes in but arguments, named graphs of the
      dataset and `shds:default`. */
  function NormalizedArgumentsList(arguments: seq<Term>, graphNames: seq<GraphKey>): (r: seq<Term>)
    ensures forall a :: a in arguments && a != VocabularyDs.TargetGraphAll && a != VocabularyDs.TargetGraphNamed
                        ==> a in r
    ensures forall t :: t in r ==> t in arguments || Named(t) in graphNames || t == VocabularyDs.TargetGraphDefault
  {
    if arguments == [] then []
    else Expand(arguments[0], graphNames) + NormalizedArgumentsList(arguments[1..], graphNames)
  }

  /** The arguments of a combination: the items of its RDF list, normalised.
      Reading the list is done by `listItems`. */
  function Arguments(listItems: Term -> seq<Term>, argumentsList: Term, graphNames: seq<GraphKey>): (r: seq<Term>)
    ensures forall a :: a in listItems(argumentsList)
                        && a != VocabularyDs.TargetGraphAll && a != VocabularyDs.TargetGraphNamed
                        ==> a in r
    ensures forall t :: t in r ==> t in listItems(argumentsList) || Named(t) in graphNames
                                   || t == VocabularyDs.TargetGraphDefault
  {
    NormalizedArgumentsList(listItems(argumentsList), graphNames)
  }

  /** The two keywords differ, and `shds:all` stands for what `shds:named`
      stands for followed by `shds:default`. */
  lemma ExpandKeywords(graphNames: seq<GraphKey>)
    ensures VocabularyDs.TargetGraphAll != VocabularyDs.TargetGraphNamed
    ensures Expand(VocabularyDs.TargetGraphAll, graphNames)
            == Expand(VocabularyDs.TargetGraphNamed, graphNames) + [VocabularyDs.TargetGraphDefault]
  {
    VocabularyDs.ShaclDsNodeInjective("all", "named");
  }

  /** Normalisation works argument by argument: the list for `a + b` is the
      list for `a` followed by the list for `b`. */
  lemma {:induction false} NormalizedConcat(a: seq<Term>, b: seq<Term>, graphNames: seq<GraphKey>)
    ensures NormalizedArgumentsList(a + b, graphNames)
            == NormalizedArgumentsList(a, graphNames) + NormalizedArgumentsList(b, graphNames)
  {
    if a != [] {
      assert (a + b)[1..] == a[1..] + b;
      NormalizedConcat(a[1..], b, graphNames);
    } else {
      assert a + b == b;
    }
  }

  /** A name occurs in the normalised list exactly when it is a non-keyword
      argument, or a named graph of the dataset and some argument is a
      keyword, or `shds:default` and some argument is `shds:all`. In
      particular the default graph's null name never occurs. */
  lemma {:induction false} NormalizedMembers(arguments: seq<Term>, graphNames: seq<GraphKey>, t: Term)
    ensures t in NormalizedArgumentsList(arguments, graphNames) <==>
              (t in arguments && t != VocabularyDs.TargetGraphAll && t != VocabularyDs.TargetGraphNamed)
              || (Named(t) in graphNames
                  && (VocabularyDs.TargetGraphAll in arguments || VocabularyDs.TargetGraphNamed in arguments))
              || (t == VocabularyDs.TargetGraphDefault && VocabularyDs.TargetGraphAll in arguments)
  {
    ExpandKeywords(graphNames);
    if arguments != [] {
      NormalizedMembers(arguments[1..], graphNames, t);
      assert forall a :: a in arguments <==> a == arguments[0] || a in arguments[1..];
    }
  }

  /** The kind of combination `value` declares in `graph`. An IRI is a single
      graph; any other node must be the subject of exactly one triple, whose
      predicate selects or, and, or minus. A parsed combination keeps its
      node, and it is an atom exactly when the node is an IRI. */
  function Parse(value: Term, graph: set<Triple>): (r: Result<Combination, ParseError>)
    ensures r.Ok? ==> r.value.node == value
    ensures value.Iri? <==> r == Ok(Atom(value))
    ensures r.Ok? && !value.Iri? ==> |SubjectTriples(graph, value)| == 1
  {
    if value.Iri? then Ok(Atom(value))
    else
      match Single(SubjectTriples(graph, value))
      case None => Err(NotSingle)
      case Some(t) =>
        if t.p == VocabularyDs.OrCombination then Ok(Or(value))
        else if t.p == VocabularyDs.AndCombination then Ok(And(value))
        else if t.p == VocabularyDs.MinusCombination then Ok(Minus(value))
        else Err(UnknownCombinationType)
  }

  /** A non-IRI node parses as an or, and or minus combination exactly when
      its only triple in `graph` has that combination's predicate; it fails
      with NotSingle exactly when it is not the subject of exactly one triple,
      and as an unknown type exactly when its one triple has another predicate. */
  lemma ParseNonIri(value: Term, graph: set<Triple>)
    requires !value.Iri?
    ensures Parse(value, graph) == Err(NotSingle) <==> |SubjectTriples(graph, value)| != 1
    ensures Parse(value, graph) == Ok(Or(value))
            <==> exists o :: SubjectTriples(graph, value) == {Triple(value, VocabularyDs.OrCombination, o)}
    ensures Parse(value, graph) == Ok(And(value))
            <==> exists o :: SubjectTriples(graph, value) == {Triple(value, VocabularyDs.AndCombination, o)}
    ensures Parse(value, graph) == Ok(Minus(value))
            <==> exists o :: SubjectTriples(graph, value) == {Triple(value, VocabularyDs.MinusCombination, o)}
    ensures Parse(value, graph) == Err(UnknownCombinationType)
            <==> exists p, o :: (SubjectTriples(graph, value) == {Triple(value, p, o)}
                                 && p != VocabularyDs.OrCombination && p != VocabularyDs.AndCombination
                                 && p != VocabularyDs.MinusCombination)
  {
    var st := SubjectTriples(graph, value);
    VocabularyDs.ShaclDsNodeInjective("or", "and");
    VocabularyDs.ShaclDsNodeInjective("or", "minus");
    VocabularyDs.ShaclDsNodeInjective("and", "minus");
    var r := Single(st);
    if r.Some? {
      var t := r.value;
      assert t in st;
      assert st == {Triple(value, t.p, t.o)};
      forall p, o | st == {Triple(value, p, o)} ensures p == t.p && o == t.o {
        assert Triple(value, p, o) in st;
      }
    }
  }
}
