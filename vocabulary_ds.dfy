/**
 * The SHACL-DS vocabulary: every term is an IRI made of the SHACL-DS base
 * IRI followed by a local name.
 */
module VocabularyDs {
  import opened Wrappers
  import opened Rdf

  const BaseUri: string := "http://www.w3.org/ns/shacl-dataset#"

  /** The SHACL-DS term with local name `name`. */
  function ShaclDsNode(name: string): (t: Term)
    ensures t.Iri? && LocalName(t) == Some(name)
  {
    assert (BaseUri + name)[..|BaseUri|] == BaseUri;
    assert (BaseUri + name)[|BaseUri|..] == name;
    Iri(BaseUri + name)
  }

  /** The local name of a SHACL-DS term: the part of its IRI after the base
      IRI, or None when the term is not an IRI in the SHACL-DS namespace. */
  function LocalName(t: Term): (r: Option<string>)
    ensures r.Some? ==> t == Iri(BaseUri + r.value)
  {
    if t.Iri? && |BaseUri| <= |t.uri| && t.uri[..|BaseUri|] == BaseUri then
      assert t.uri == t.uri[..|BaseUri|] + t.uri[|BaseUri|..];
      Some(t.uri[|BaseUri|..])
    else
      None
  }

  const TargetGraph := ShaclDsNode("targetGraph")
  const TargetGraphExclude := ShaclDsNode("targetGraphExclude")
  const TargetGraphCombination := ShaclDsNode("targetGraphCombination")
  const OrCombination := ShaclDsNode("or")
  const AndCombination := ShaclDsNode("and")
  const MinusCombination := ShaclDsNode("minus")
  const SourceShapesGraph := ShaclDsNode("sourceShapesGraph")
  const FocusGraph := ShaclDsNode("focusGraph")
  const TargetGraphAll := ShaclDsNode("all")
  const TargetGraphNamed := ShaclDsNode("named")
  const TargetGraphDefault := ShaclDsNode("default")
  const TargetGraphPattern := ShaclDsNode("targetGraphPattern")
  const TargetGraphExcludePattern := ShaclDsNode("targetGraphExcludePattern")

  /** The local names of the thirteen terms, in declaration order. */
  const LocalNames: seq<string> := [
    "targetGraph", "targetGraphExclude", "targetGraphCombination", "or", "and", "minus",
    "sourceShapesGraph", "focusGraph", "all", "named", "default", "targetGraphPattern",
    "targetGraphExcludePattern"]

  /** The thirteen terms, in declaration order. */
  const Terms: seq<Term> := [
    TargetGraph, TargetGraphExclude, TargetGraphCombination, OrCombination, AndCombination,
    MinusCombination, SourceShapesGraph, FocusGraph, TargetGraphAll, TargetGraphNamed,
    TargetGraphDefault, TargetGraphPattern, TargetGraphExcludePattern]

  /** Two SHACL-DS terms are equal exactly when their local names are. */
  lemma ShaclDsNodeInjective(a: string, b: string)
    ensures ShaclDsNode(a) == ShaclDsNode(b) <==> a == b
  {
    if ShaclDsNode(a) == ShaclDsNode(b) {
      assert Some(a) == LocalName(ShaclDsNode(a)) == LocalName(ShaclDsNode(b)) == Some(b);
    }
  }

  /** Every term is the base IRI followed by its local name. */
  lemma TermsAreBasePlusLocalName()
    ensures |Terms| == |LocalNames| == 13
    ensures forall i :: 0 <= i < |Terms| ==> Terms[i] == Iri(BaseUri + LocalNames[i])
  {
  }

  /** The local names of the thirteen terms differ pairwise. */
  lemma LocalNamesDistinct()
    ensures forall i, j :: 0 <= i < j < |LocalNames| ==> LocalNames[i] != LocalNames[j]
  {
    forall i, j | 0 <= i < j < |LocalNames|
      ensures LocalNames[i] != LocalNames[j]
    {
      var a, b := LocalNames[i], LocalNames[j];
      if |a| == |b| {
        // Names of equal length differ at their first or second character.
        assert a[0] != b[0] || a[1] != b[1] || a[11] != b[11];
      }
    }
  }

  /** The thirteen terms differ pairwise, so no two cases of a dispatch on
      them can overlap. */
  lemma TermsDistinct()
    ensures forall i, j :: 0 <= i < j < |Terms| ==> Terms[i] != Terms[j]
  {
    TermsAreBasePlusLocalName();
    LocalNamesDistinct();
    forall i, j | 0 <= i < j < |Terms|
      ensures Terms[i] != Terms[j]
    {
      ShaclDsNodeInjective(LocalNames[i], LocalNames[j]);
    }
  }
}
