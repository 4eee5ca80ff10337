/**
 * The RDF term and triple model shared by every other module: IRIs, blank
 * nodes and literals, triples of terms, and the keys of a dataset's graphs.
 */
module Rdf {
  import opened Wrappers

  /** An RDF node. A literal carries an optional datatype IRI and an optional
      language tag; an absent tag and an empty tag are both possible. */
  datatype Term =
    | Iri(uri: string)
    | Blank(id: string)
    | Literal(value: string, dataType: Option<string>, language: Option<string>)

  datatype Triple = Triple(s: Term, p: Term, o: Term)

  /** The name of a graph in a dataset: the default graph (a null name in the
      original) or a named graph. */
  datatype GraphKey = DefaultGraph | Named(name: Term)

  const RdfNamespace := "http://www.w3.org/1999/02/22-rdf-syntax-ns#"
  const RdfRest := Iri(RdfNamespace + "rest")

  /** The triples of `g` whose subject is `s`. */
  function SubjectTriples(g: set<Triple>, s: Term): (r: set<Triple>)
    ensures r <= g
    ensures forall t :: t in r <==> t in g && t.s == s
  {
    set t | t in g && t.s == s
  }

  /** The objects of the triples of `g` with subject `s` and predicate `p`. */
  function ObjectsOf(g: set<Triple>, s: Term, p: Term): (r: set<Term>)
    ensures forall o :: o in r <==> Triple(s, p, o) in g
  {
    set t | t in g && t.s == s && t.p == p :: t.o
  }

  /** The only element of `s`, or None when `s` is empty or holds more than
      one triple (the behaviour of LINQ's Single, whose exception is None). */
  function Single(s: set<Triple>): (r: Option<Triple>)
    ensures r.Some? <==> |s| == 1
    ensures r.Some? ==> s == {r.value}
  {
    if |s| == 1 then
      SingletonUnique(s);
      var t :| t in s;
      assert s == {t} by { SingletonUnique(s); }
      Some(t)
    else
      None
  }

  /** A set of size one has exactly one element. */
  lemma SingletonUnique(s: set<Triple>)
    requires |s| == 1
    ensures forall x, y :: x in s && y in s ==> x == y
  {
    forall x, y | x in s && y in s ensures x == y {
      var rest := s - {x};
      assert s == rest + {x};
      assert rest == {};
    }
  }

  /** An in-memory graph whose triple set is updated in place. */
  class Graph {
    var triples: set<Triple>

    constructor()
      ensures triples == {}
    {
      triples := {};
    }

    method Assert(t: Triple)
      modifies this
      ensures triples == old(triples) + {t}
    {
      triples := triples + {t};
    }

    method Retract(t: Triple)
      modifies this
      ensures triples == old(triples) - {t}
    {
      triples := triples - {t};
    }
  }
}
