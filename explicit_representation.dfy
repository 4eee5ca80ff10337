/**
 * The Hydra Core "ExplicitRepresentation" of RDF nodes, as sent by Triple
 * Pattern Fragments clients: an IRI is written as itself; a literal as its
 * lexical form in double quotes, then `^^` and the datatype IRI when it has
 * one, then `@` and the language tag when that is non-empty. Nothing is
 * escaped. Other nodes are not supported.
 */
module ExplicitRepresentation {
  import opened Wrappers
  import opened Rdf

  /** The position of a node in a triple; the representation ignores it. */
  datatype TripleSegment = Subject | Predicate | Object

  /** The exception raised for a node that is neither an IRI nor a literal. */
  datatype NotSupported = NotSupported(message: string)

  const NotSupportedMessage := "Only IRI and literal nodes are supported."

  /** The representation of a literal: the lexical form between double
      quotes, then `^^` and the datatype right after the closing quote when
      there is one, and `@` and the language tag at the very end when the
      tag is non-empty; nothing else. */
  function FormatLiteral(value: string, dataType: Option<string>, language: Option<string>): (r: string)
    ensures var q := |value| + 2;
            var d := if dataType.Some? then 2 + |dataType.value| else 0;
            var l := if language.Some? && language.value != "" then 1 + |language.value| else 0;
            |r| == q + d + l
            && r[0] == '"' && r[1..q - 1] == value && r[q - 1] == '"'
            && (dataType.Some? ==> r[q..q + 2] == "^^" && r[q + 2..q + d] == dataType.value)
            && (l > 0 ==> r[q + d] == '@' && r[q + d + 1..] == language.value)
  {
    var quoted := "\"" + value + "\"";
    var typed := if dataType.Some? then quoted + "^^" + dataType.value else quoted;
    if language.Some? && language.value != "" then typed + "@" + language.value else typed
  }

  /** The representation of a node. */
  function Format(node: Term): (r: Result<string, NotSupported>)
    ensures r.Err? <==> node.Blank?
    ensures r.Err? ==> r.error.message == NotSupportedMessage
    ensures node.Iri? ==> r == Ok(node.uri)
    ensures node.Literal? && node.dataType.None? && (node.language.None? || node.language == Some(""))
            ==> r == Ok("\"" + node.value + "\"")
  {
    match node
    case Iri(uri) => Ok(uri)
    case Literal(value, dataType, language) => Ok(FormatLiteral(value, dataType, language))
    case Blank(_) => Err(NotSupported(NotSupportedMessage))
  }

  /** The representation of a node in a given position of a triple: the same
      as without a position. */
  function FormatInSegment(node: Term, segment: Option<TripleSegment>): (r: Result<string, NotSupported>)
    ensures r == Format(node)
  {
    Format(node)
  }

  /** The index of the first `c` in `s`. */
  function IndexOf(s: string, c: char): (r: Option<nat>)
    ensures r.Some? ==> r.value < |s| && s[r.value] == c && c !in s[..r.value]
    ensures r.None? ==> c !in s
  {
    if s == [] then None
    else if s[0] == c then Some(0)
    else
      match IndexOf(s[1..], c)
      case None => None
      case Some(i) =>
        assert s[..i + 1] == [s[0]] + s[1..][..i];
        Some(i + 1)
  }

  /** Reads a representation back. An IRI is anything that does not start
      with a double quote. A literal's lexical form ends at the next double
      quote. */
  function Parse(s: string): Option<Term>
  {
    if s != [] && s[0] == '"' then
      match IndexOf(s[1..], '"')
      case None => None
      case Some(i) => ParseSuffix(s[1..][..i], s[1..][i + 1..])
    else Some(Iri(s))
  }

  /** Reads what follows a literal's closing quote: nothing, `@` and a
      language tag, or `^^` and a datatype that runs up to an `@`. */
  function ParseSuffix(value: string, rest: string): Option<Term>
  {
    if rest == [] then Some(Literal(value, None, None))
    else if rest[0] == '@' then Some(Literal(value, None, Some(rest[1..])))
    else if |rest| >= 2 && rest[..2] == "^^" then
      var dt := rest[2..];
      match IndexOf(dt, '@')
      case None => Some(Literal(value, Some(dt), None))
      case Some(j) => Some(Literal(value, Some(dt[..j]), Some(dt[j + 1..])))
    else None
  }

  /** An empty language tag is written as no tag at all. */
  function Normalized(t: Term): Term
  {
    if t.Literal? && t.language == Some("") then t.(language := None) else t
  }

  /** The first occurrence of `c` in `a + [c] + b`, when `a` has none, is at `|a|`. */
  lemma {:induction false} IndexOfAfter(a: string, c: char, b: string)
    requires c !in a
    ensures IndexOf(a + [c] + b, c) == Some(|a|)
  {
    if a != [] {
      assert (a + [c] + b)[1..] == a[1..] + [c] + b;
      IndexOfAfter(a[1..], c, b);
    }
  }

  /** A quoted lexical form without inner quotes is read up to its closing
      quote. */
  lemma ParseQuoted(value: string, rest: string)
    requires '"' !in value
    ensures Parse("\"" + value + "\"" + rest) == ParseSuffix(value, rest)
  {
    var s := "\"" + value + "\"" + rest;
    assert s[1..] == value + ['"'] + rest;
    IndexOfAfter(value, '"', rest);
    assert s[1..][..|value|] == value;
    assert s[1..][|value| + 1..] == rest;
  }

  /** The datatype and language parts of a representation are read back. */
  lemma ParseSuffixParts(value: string, dataType: Option<string>, language: Option<string>)
    requires dataType.Some? ==> '@' !in dataType.value
    ensures var dtPart := if dataType.Some? then "^^" + dataType.value else "";
            var langPart := if language.Some? && language.value != "" then "@" + language.value else "";
            ParseSuffix(value, dtPart + langPart) == Some(Normalized(Literal(value, dataType, language)))
  {
    var dtPart := if dataType.Some? then "^^" + dataType.value else "";
    var langPart := if language.Some? && language.value != "" then "@" + language.value else "";
    var rest := dtPart + langPart;
    if dataType.Some? {
      var dt := dataType.value;
      assert rest[..2] == "^^";
      assert rest[2..] == dt + langPart;
      if langPart != "" {
        assert dt + langPart == dt + ['@'] + language.value;
        IndexOfAfter(dt, '@', language.value);
        assert (dt + langPart)[..|dt|] == dt;
        assert (dt + langPart)[|dt| + 1..] == language.value;
      } else {
        assert dt + langPart == dt;
      }
    } else if langPart != "" {
      assert rest[0] == '@' && rest[1..] == language.value;
    }
  }

  /** Round trip: an IRI that does not start with a double quote, and a
      literal whose lexical form has no double quote and whose datatype has
      no `@`, are read back from their representation (an empty language tag
      coming back as none). */
  lemma ParseFormat(t: Term)
    requires t.Iri? ==> t.uri == [] || t.uri[0] != '"'
    requires t.Literal? ==> '"' !in t.value && (t.dataType.Some? ==> '@' !in t.dataType.value)
    requires !t.Blank?
    ensures Format(t).Ok? && Parse(Format(t).value) == Some(Normalized(t))
  {
    if t.Literal? {
      var dtPart := if t.dataType.Some? then "^^" + t.dataType.value else "";
      var langPart := if t.language.Some? && t.language.value != "" then "@" + t.language.value else "";
      assert Format(t).value == "\"" + t.value + "\"" + (dtPart + langPart);
      ParseQuoted(t.value, dtPart + langPart);
      ParseSuffixParts(t.value, t.dataType, t.language);
    }
  }

  /** Because nothing is escaped, two different literals can share a
      representation: a double quote inside a lexical form, or inside a
      language tag, lets one literal mimic another. */
  lemma NoEscapingCollision()
    ensures Literal("x\"@en", None, None) != Literal("x", None, Some("en\""))
    ensures Format(Literal("x\"@en", None, None)) == Format(Literal("x", None, Some("en\"")))
  {
    assert Format(Literal("x\"@en", None, None)).value == "\"x\"@en\"";
    assert Format(Literal("x", None, Some("en\""))).value == "\"x\"@en\"";
  }
}
