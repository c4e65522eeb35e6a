/**
 * The unified film ontology and the cross-dataset property declarations
 * added to the combined graph, and the whole integration pipeline.
 */
module Ontology {
  import opened Rdf
  import opened Integrator

  const UNIFIED_NS: string := "http://www.filmdata.org/"
  const UNIFIED_FILM: string := UNIFIED_NS + "Film"

  /** The five unified properties with their comments. */
  const UNIFIED_PROPERTIES: seq<(string, string)> := [
    ("title", "Title of the film"),
    ("rating", "Rating score"),
    ("releaseYear", "Year of release"),
    ("genre", "Film genre"),
    ("runtime", "Duration in minutes")
  ]

  /** The dataset-specific classes placed under the unified film class. */
  const DATASET_CLASSES: seq<string> := [
    AMAZON_NS + "AmazonFilm",
    NETFLIX_NS + "NetflixFilm",
    IMDB_NS + "ImdbFilm"
  ]

  /** Dataset-specific property IRI and the unified property it specialises. */
  const PROPERTY_MAPPINGS: seq<(string, string)> := [
    (AMAZON_NS + "title", "title"),
    (NETFLIX_NS + "title", "title"),
    (IMDB_NS + "name", "title"),
    (AMAZON_NS + "rating", "rating"),
    (NETFLIX_NS + "imdbScore", "rating"),
    (IMDB_NS + "rate", "rating"),
    (AMAZON_NS + "releaseYear", "releaseYear"),
    (IMDB_NS + "date", "releaseYear"),
    (NETFLIX_NS + "genre", "genre"),
    (IMDB_NS + "genre", "genre"),
    (NETFLIX_NS + "runtime", "runtime"),
    (IMDB_NS + "duration", "runtime")
  ]

  /** The two declared-but-unused cross-dataset properties with their comments. */
  const CROSS_DATASET_PROPERTIES: seq<(string, string)> := [
    ("hasSimilarRating", "Indicates films with similar ratings"),
    ("sharesSameGenre", "Indicates films that share a genre")
  ]

  predicate IsUnifiedName(name: string) {
    exists k :: 0 <= k < |UNIFIED_PROPERTIES| && UNIFIED_PROPERTIES[k].0 == name
  }

  function FilmClassTriples(): set<Triple> {
    {
      Triple(Iri(UNIFIED_FILM), RDF_TYPE, Iri(RDFS_CLASS)),
      Triple(Iri(UNIFIED_FILM), RDFS_LABEL, PlainLiteral("Film")),
      Triple(Iri(UNIFIED_FILM), RDFS_COMMENT,
             PlainLiteral("Unified film class integrating Amazon, Netflix, and IMDB data"))
    }
  }

  /** `addUnifiedProperty`: type, comment, domain and range of one unified property. */
  function UnifiedPropertyTriples(name: string, comment: string): set<Triple> {
    var p := Iri(UNIFIED_NS + name);
    {
      Triple(p, RDF_TYPE, Iri(RDF_PROPERTY)),
      Triple(p, RDFS_COMMENT, PlainLiteral(comment)),
      Triple(p, RDFS_DOMAIN, Iri(UNIFIED_FILM)),
      Triple(p, RDFS_RANGE, Iri(RDFS_LITERAL))
    }
  }

  function SubClassTriples(classes: seq<string>): set<Triple> {
    if classes == [] then {}
    else {Triple(Iri(classes[0]), RDFS_SUB_CLASS_OF, Iri(UNIFIED_FILM))} + SubClassTriples(classes[1..])
  }

  function PropertyTriples(props: seq<(string, string)>): set<Triple> {
    if props == [] then {}
    else UnifiedPropertyTriples(props[0].0, props[0].1) + PropertyTriples(props[1..])
  }

  /** `mapPropertyToUnified` over a table: one `rdfs:subPropertyOf` edge per row. */
  function MappingTriples(mappings: seq<(string, string)>): set<Triple> {
    if mappings == [] then {}
    else
      {Triple(Iri(mappings[0].0), RDFS_SUB_PROPERTY_OF, Iri(UNIFIED_NS + mappings[0].1))}
        + MappingTriples(mappings[1..])
  }

  /** The ontology built from a class table, a property table and a mapping table. */
  function OntologyTriples(classes: seq<string>, props: seq<(string, string)>, mappings: seq<(string, string)>): set<Triple> {
    FilmClassTriples() + SubClassTriples(classes) + PropertyTriples(props) + MappingTriples(mappings)
  }

  /** Subjects an ontology built from these tables may describe. */
  predicate Describes(n: Node, classes: seq<string>, props: seq<(string, string)>, mappings: seq<(string, string)>) {
    || n == Iri(UNIFIED_FILM)
    || (exists k :: 0 <= k < |classes| && n == Iri(classes[k]))
    || (exists k :: 0 <= k < |props| && n == Iri(UNIFIED_NS + props[k].0))
    || (exists k :: 0 <= k < |mappings| && n == Iri(mappings[k].0))
  }

  lemma {:induction false} SubClassListed(classes: seq<string>, k: nat)
    requires k < |classes|
    ensures Triple(Iri(classes[k]), RDFS_SUB_CLASS_OF, Iri(UNIFIED_FILM)) in SubClassTriples(classes)
  {
    if k > 0 {
      SubClassListed(classes[1..], k - 1);
    }
  }

  lemma {:induction false} MappingListed(mappings: seq<(string, string)>, k: nat)
    requires k < |mappings|
    ensures Triple(Iri(mappings[k].0), RDFS_SUB_PROPERTY_OF, Iri(UNIFIED_NS + mappings[k].1)) in MappingTriples(mappings)
  {
    if k > 0 {
      MappingListed(mappings[1..], k - 1);
    }
  }

  lemma {:induction false} PropertyListed(props: seq<(string, string)>, k: nat)
    requires k < |props|
    ensures UnifiedPropertyTriples(props[k].0, props[k].1) <= PropertyTriples(props)
  {
    if k > 0 {
      PropertyListed(props[1..], k - 1);
    }
  }

  lemma {:induction false} SubClassSubject(classes: seq<string>, t: Triple)
    requires t in SubClassTriples(classes)
    ensures exists k :: 0 <= k < |classes| && t.subj == Iri(classes[k])
  {
    if t.subj != Iri(classes[0]) {
      SubClassSubject(classes[1..], t);
      var k :| 0 <= k < |classes[1..]| && t.subj == Iri(classes[1..][k]);
      assert t.subj == Iri(classes[k + 1]);
    }
  }

  lemma {:induction false} MappingSubject(mappings: seq<(string, string)>, t: Triple)
    requires t in MappingTriples(mappings)
    ensures exists k :: 0 <= k < |mappings| && t.subj == Iri(mappings[k].0)
  {
    if t.subj != Iri(mappings[0].0) {
      MappingSubject(mappings[1..], t);
      var k :| 0 <= k < |mappings[1..]| && t.subj == Iri(mappings[1..][k].0);
      assert t.subj == Iri(mappings[k + 1].0);
    }
  }

  lemma {:induction false} PropertySubject(props: seq<(string, string)>, t: Triple)
    requires t in PropertyTriples(props)
    ensures exists k :: 0 <= k < |props| && t.subj == Iri(UNIFIED_NS + props[k].0)
  {
    if t !in UnifiedPropertyTriples(props[0].0, props[0].1) {
      PropertySubject(props[1..], t);
      var k :| 0 <= k < |props[1..]| && t.subj == Iri(UNIFIED_NS + props[1..][k].0);
      assert t.subj == Iri(UNIFIED_NS + props[k + 1].0);
    }
  }

  /** Everything an ontology built from the tables says is about a subject the tables name. */
  lemma OntologySubjects(classes: seq<string>, props: seq<(string, string)>, mappings: seq<(string, string)>, t: Triple)
    requires t in OntologyTriples(classes, props, mappings)
    ensures Describes(t.subj, classes, props, mappings)
  {
    if t in SubClassTriples(classes) {
      SubClassSubject(classes, t);
    } else if t in PropertyTriples(props) {
      PropertySubject(props, t);
    } else if t in MappingTriples(mappings) {
      MappingSubject(mappings, t);
    }
  }

  /**
   * Every unified property of the table is declared a property with domain
   * film and range literal.
   */
  lemma UnifiedPropertiesDeclared(props: seq<(string, string)>, k: nat)
    requires k < |props|
    ensures var p := Iri(UNIFIED_NS + props[k].0);
      && Triple(p, RDF_TYPE, Iri(RDF_PROPERTY)) in PropertyTriples(props)
      && Triple(p, RDFS_DOMAIN, Iri(UNIFIED_FILM)) in PropertyTriples(props)
      && Triple(p, RDFS_RANGE, Iri(RDFS_LITERAL)) in PropertyTriples(props)
  {
    PropertyListed(props, k);
  }

  function UnifiedOntologyTriples(): set<Triple> {
    OntologyTriples(DATASET_CLASSES, UNIFIED_PROPERTIES, PROPERTY_MAPPINGS)
  }

  /**
   * `addUnifiedOntology`: the graph grows by the unified ontology only:
   * the unified film class is declared, each unified property gets its
   * type, comment, domain and range, every dataset class becomes a subclass
   * of the unified film class, every mapped property a sub-property of a
   * unified property, and nothing is said about any other subject.
   */
  function AddUnifiedOntology(g: Graph): (r: Graph)
    ensures g <= r
    ensures FilmClassTriples() <= r
    ensures forall k :: 0 <= k < |UNIFIED_PROPERTIES| ==>
      UnifiedPropertyTriples(UNIFIED_PROPERTIES[k].0, UNIFIED_PROPERTIES[k].1) <= r
    ensures forall k :: 0 <= k < |DATASET_CLASSES| ==>
      Triple(Iri(DATASET_CLASSES[k]), RDFS_SUB_CLASS_OF, Iri(UNIFIED_FILM)) in r
    ensures forall k :: 0 <= k < |PROPERTY_MAPPINGS| ==>
      Triple(Iri(PROPERTY_MAPPINGS[k].0), RDFS_SUB_PROPERTY_OF, Iri(UNIFIED_NS + PROPERTY_MAPPINGS[k].1)) in r
    ensures forall t :: t in r && t !in g ==> Describes(t.subj, DATASET_CLASSES, UNIFIED_PROPERTIES, PROPERTY_MAPPINGS)
  {
    var added := UnifiedOntologyTriples();
    forall k | 0 <= k < |UNIFIED_PROPERTIES|
      ensures UnifiedPropertyTriples(UNIFIED_PROPERTIES[k].0, UNIFIED_PROPERTIES[k].1) <= added
    {
      PropertyListed(UNIFIED_PROPERTIES, k);
    }
    forall k | 0 <= k < |DATASET_CLASSES|
      ensures Triple(Iri(DATASET_CLASSES[k]), RDFS_SUB_CLASS_OF, Iri(UNIFIED_FILM)) in added
    {
      SubClassListed(DATASET_CLASSES, k);
    }
    forall k | 0 <= k < |PROPERTY_MAPPINGS|
      ensures Triple(Iri(PROPERTY_MAPPINGS[k].0), RDFS_SUB_PROPERTY_OF, Iri(UNIFIED_NS + PROPERTY_MAPPINGS[k].1)) in added
    {
      MappingListed(PROPERTY_MAPPINGS, k);
    }
    forall t | t in added
      ensures Describes(t.subj, DATASET_CLASSES, UNIFIED_PROPERTIES, PROPERTY_MAPPINGS)
    {
      OntologySubjects(DATASET_CLASSES, UNIFIED_PROPERTIES, PROPERTY_MAPPINGS, t);
    }
    g + added
  }

  /** Every mapping row names one of the five declared unified properties. */
  lemma MappedNamesAreUnified()
    ensures forall k :: 0 <= k < |PROPERTY_MAPPINGS| ==> IsUnifiedName(PROPERTY_MAPPINGS[k].1)
  {
    assert UNIFIED_PROPERTIES[0].0 == "title";
    assert UNIFIED_PROPERTIES[1].0 == "rating";
    assert UNIFIED_PROPERTIES[2].0 == "releaseYear";
    assert UNIFIED_PROPERTIES[3].0 == "genre";
    assert UNIFIED_PROPERTIES[4].0 == "runtime";
  }

  /** Adding the ontology twice adds nothing the second time. */
  lemma AddUnifiedOntologyIdempotent(g: Graph)
    ensures AddUnifiedOntology(AddUnifiedOntology(g)) == AddUnifiedOntology(g)
  {
  }

  function CrossDatasetTriples(props: seq<(string, string)>): (r: set<Triple>)
    ensures forall t :: t in r <==>
      exists k :: 0 <= k < |props| && CrossDeclares(t, props[k])
  {
    if props == [] then {}
    else
      assert forall k :: 1 <= k < |props| ==> props[k] == props[1..][k - 1];
      {Triple(Iri(UNIFIED_NS + props[0].0), RDF_TYPE, Iri(RDF_PROPERTY)),
       Triple(Iri(UNIFIED_NS + props[0].0), RDFS_COMMENT, PlainLiteral(props[0].1))}
        + CrossDatasetTriples(props[1..])
  }

  /** `t` is the type or the comment statement of the cross-dataset property `prop`. */
  predicate CrossDeclares(t: Triple, prop: (string, string)) {
    || t == Triple(Iri(UNIFIED_NS + prop.0), RDF_TYPE, Iri(RDF_PROPERTY))
    || t == Triple(Iri(UNIFIED_NS + prop.0), RDFS_COMMENT, PlainLiteral(prop.1))
  }

  /**
   * `addCrossDatasetRelationships`: only declares `hasSimilarRating` and
   * `sharesSameGenre` as properties; it relates no films.
   */
  function AddCrossDatasetRelationships(g: Graph): (r: Graph)
    ensures g <= r
    ensures forall k :: 0 <= k < |CROSS_DATASET_PROPERTIES| ==>
      Triple(Iri(UNIFIED_NS + CROSS_DATASET_PROPERTIES[k].0), RDF_TYPE, Iri(RDF_PROPERTY)) in r
    ensures forall t :: t in r && t !in g ==>
      exists k :: 0 <= k < |CROSS_DATASET_PROPERTIES| && t.subj == Iri(UNIFIED_NS + CROSS_DATASET_PROPERTIES[k].0)
    ensures forall t :: t in r && t !in g ==> t.pred != OWL_SAME_AS
  {
    g + CrossDatasetTriples(CROSS_DATASET_PROPERTIES)
  }

  /** Declaring the cross-dataset properties twice adds nothing the second time. */
  lemma AddCrossDatasetRelationshipsIdempotent(g: Graph)
    ensures AddCrossDatasetRelationships(AddCrossDatasetRelationships(g)) == AddCrossDatasetRelationships(g)
  {
  }

  function UnionAll(datasets: seq<seq<Triple>>): (r: Graph)
    ensures forall i, k :: 0 <= i < |datasets| && 0 <= k < |datasets[i]| ==> datasets[i][k] in r
    ensures forall t :: t in r ==> InSomeDataset(datasets, t)
  {
    if datasets == [] then {}
    else
      var rest := UnionAll(datasets[1..]);
      assert forall i :: 1 <= i < |datasets| ==> datasets[i] == datasets[1..][i - 1];
      forall t | t in rest
        ensures InSomeDataset(datasets, t)
      {
        var i, k :| 0 <= i < |datasets[1..]| && 0 <= k < |datasets[1..][i]| && datasets[1..][i][k] == t;
        assert datasets[i + 1][k] == t;
      }
      (set k | 0 <= k < |datasets[0]| :: datasets[0][k]) + rest
  }

  predicate InSomeDataset(datasets: seq<seq<Triple>>, t: Triple) {
    exists i, k :: 0 <= i < |datasets| && 0 <= k < |datasets[i]| && datasets[i][k] == t
  }

  /**
   * `integrateDatasets` without the file I/O: each dataset's listing, in
   * dataset order; the titles are looked up in these listings.  Every
   * input statement survives; every other statement is a forward
   * `owl:sameAs` edge between similar films, part of the unified ontology
   * (only when requested), or a cross-dataset property declaration.
   */
  function Integrate(datasets: seq<seq<Triple>>, ns: string -> string, createUnifiedOntology: bool): (r: Graph)
    ensures forall i, k :: 0 <= i < |datasets| && 0 <= k < |datasets[i]| ==> datasets[i][k] in r
    ensures forall t :: t in r ==>
      || InSomeDataset(datasets, t)
      || (IsSameAsEdge(t) && LinkedForward(ns, datasets, t.subj.iri, t.obj.iri))
      || (createUnifiedOntology && Describes(t.subj, DATASET_CLASSES, UNIFIED_PROPERTIES, PROPERTY_MAPPINGS))
      || t in CrossDatasetTriples(CROSS_DATASET_PROPERTIES)
    ensures forall a, b :: LinkedForward(ns, datasets, a, b) ==> SameAs(a, b) in r
  {
    var combined := UnionAll(datasets);
    var linked := AddSameAsRelationships(combined, ns, datasets);
    var unified := if createUnifiedOntology then AddUnifiedOntology(linked) else linked;
    AddCrossDatasetRelationships(unified)
  }
}
