/** The graph vocabulary shared by the matcher and the ontology builder. */
module Rdf {

  /** A node of an RDF graph. */
  datatype Node =
    | Iri(iri: string)
    | Blank(id: string)
    | Literal(lexical: string, lang: string, dtype: string)

  /** A statement; predicates are always IRIs. */
  datatype Triple = Triple(subj: Node, pred: string, obj: Node)

  type Graph = set<Triple>

  const RDF_NS: string := "http://www.w3.org/1999/02/22-rdf-syntax-ns#"
  const RDFS_NS: string := "http://www.w3.org/2000/01/rdf-schema#"
  const OWL_NS: string := "http://www.w3.org/2002/07/owl#"
  const XSD_STRING: string := "http://www.w3.org/2001/XMLSchema#string"

  const RDF_TYPE: string := RDF_NS + "type"
  const RDF_PROPERTY: string := RDF_NS + "Property"
  const RDFS_CLASS: string := RDFS_NS + "Class"
  const RDFS_LABEL: string := RDFS_NS + "label"
  const RDFS_COMMENT: string := RDFS_NS + "comment"
  const RDFS_DOMAIN: string := RDFS_NS + "domain"
  const RDFS_RANGE: string := RDFS_NS + "range"
  const RDFS_LITERAL: string := RDFS_NS + "Literal"
  const RDFS_SUB_CLASS_OF: string := RDFS_NS + "subClassOf"
  const RDFS_SUB_PROPERTY_OF: string := RDFS_NS + "subPropertyOf"
  const OWL_SAME_AS: string := OWL_NS + "sameAs"

  /** A plain string literal, as `addProperty(p, "text")` creates it. */
  function PlainLiteral(text: string): Node {
    Literal(text, "", XSD_STRING)
  }

  /**
   * `RDFNode.toString()`: the IRI, the blank-node label, or the lexical
   * form of a literal followed by its language tag or, when it is not a
   * plain string, its datatype.
   */
  function NodeText(n: Node): string {
    match n
    case Iri(iri) => iri
    case Blank(id) => id
    case Literal(lexical, lang, dtype) =>
      if lang != [] then lexical + "@" + lang
      else if dtype == XSD_STRING then lexical
      else lexical + "^^" + dtype
  }
}
