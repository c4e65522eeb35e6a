/**
 * The cross-dataset film matcher: candidate selection, title lookup, and
 * the pairwise loop that adds directed `owl:sameAs` edges to the combined
 * graph.
 *
 * A dataset is the listing of its own model's statements.  Every film
 * resource is taken from its dataset's model, so `Resource.getProperty`
 * looks the film's title up in that dataset, never in the combined graph
 * the edges go to.  Two orders that Jena and `HashMap` leave unspecified
 * are inputs here: the order of the datasets, and the order of each
 * dataset's listing, which decides which statement `getProperty` returns
 * when a resource has several.  Jena's split of an IRI into namespace and
 * local name is the parameter `ns`.
 */
module Integrator {
  import opened Wrappers
  import opened Text
  import opened Rdf
  import opened Titles

  const AMAZON_NS: string := "http://www.amazon.org/"
  const NETFLIX_NS: string := "http://www.netflix.org/"
  const IMDB_NS: string := "http://www.imdb.org/"

  // ---------------------------------------------------------------------
  // Candidates
  // ---------------------------------------------------------------------

  /** A film instance: a named resource of one of the three datasets, not a class. */
  predicate IsFilmResource(r: Node) {
    && r.Iri?
    && (AMAZON_NS <= r.iri || NETFLIX_NS <= r.iri || IMDB_NS <= r.iri)
    && !Contains(r.iri, "Film")
    && !Contains(r.iri, "#")
  }

  /** Is `t` an `rdf:type` statement about the film resource `x`? */
  predicate TypesFilm(t: Triple, x: string) {
    t.pred == RDF_TYPE && t.subj == Iri(x) && IsFilmResource(Iri(x))
  }

  /**
   * The films of one dataset: the subject of every `rdf:type` statement
   * that passes the film filter, once per statement, in listing order.
   */
  function FilmCandidates(dataset: seq<Triple>): (r: seq<string>)
    ensures |r| <= |dataset|
    ensures forall x :: x in r ==> IsFilmResource(Iri(x))
    ensures forall x :: x in r <==> exists k :: 0 <= k < |dataset| && TypesFilm(dataset[k], x)
  {
    if dataset == [] then []
    else
      var t := dataset[0];
      var rest := FilmCandidates(dataset[1..]);
      assert forall k :: 1 <= k < |dataset| ==> dataset[k] == dataset[1..][k - 1];
      if t.pred == RDF_TYPE && IsFilmResource(t.subj) then [t.subj.iri] + rest else rest
  }

  function CandidateLists(datasets: seq<seq<Triple>>): (r: seq<seq<string>>)
    ensures |r| == |datasets|
    ensures forall i :: 0 <= i < |datasets| ==> r[i] == FilmCandidates(datasets[i])
  {
    seq(|datasets|, i requires 0 <= i < |datasets| => FilmCandidates(datasets[i]))
  }

  // ---------------------------------------------------------------------
  // Title lookup
  // ---------------------------------------------------------------------

  predicate About(t: Triple, s: Node, p: string) {
    t.subj == s && t.pred == p
  }

  /** Position of the first listed statement `(s, p, _)`. */
  function FirstIndex(store: seq<Triple>, s: Node, p: string): (r: Option<nat>)
    ensures r.None? <==> forall k :: 0 <= k < |store| ==> !About(store[k], s, p)
    ensures r.Some? ==> r.value < |store| && About(store[r.value], s, p)
                        && forall k :: 0 <= k < r.value ==> !About(store[k], s, p)
  {
    if store == [] then None
    else if About(store[0], s, p) then Some(0)
    else
      assert forall k :: 1 <= k < |store| ==> store[k] == store[1..][k - 1];
      match FirstIndex(store[1..], s, p)
      case None => None
      case Some(k) => Some(k + 1)
  }

  /** `s.getProperty(p)` on the model listed by `store`: the object of its first statement `(s, p, _)`. */
  function FirstObject(store: seq<Triple>, s: Node, p: string): (r: Option<Node>)
    ensures r.None? <==> forall k :: 0 <= k < |store| ==> !About(store[k], s, p)
    ensures r.Some? ==> exists k :: 0 <= k < |store| && store[k] == Triple(s, p, r.value)
                                    && forall k' :: 0 <= k' < k ==> !About(store[k'], s, p)
  {
    match FirstIndex(store, s, p)
    case None => None
    case Some(k) => Some(store[k].obj)
  }

  /**
   * The film's title in its dataset `store`: the `title` property in the
   * film's own namespace, else its `name` property, rendered as text;
   * `None` when it has neither.
   */
  function ExtractTitle(store: seq<Triple>, film: string, ns: string -> string): (r: Option<string>)
    ensures var byTitle := FirstObject(store, Iri(film), ns(film) + "title");
            var byName := FirstObject(store, Iri(film), ns(film) + "name");
            && (byTitle.Some? ==> r == Some(NodeText(byTitle.value)))
            && (byTitle.None? && byName.Some? ==> r == Some(NodeText(byName.value)))
            && (r.None? <==> byTitle.None? && byName.None?)
  {
    match FirstObject(store, Iri(film), ns(film) + "title")
    case Some(o) => Some(NodeText(o))
    case None =>
      match FirstObject(store, Iri(film), ns(film) + "name")
      case Some(o) => Some(NodeText(o))
      case None => None
  }

  /**
   * `areFilmsSimilar`: both titles present and similar, each title read
   * from the dataset its film was taken from.
   */
  predicate AreFilmsSimilar(store1: seq<Triple>, film1: string, store2: seq<Triple>, film2: string, ns: string -> string) {
    match (ExtractTitle(store1, film1, ns), ExtractTitle(store2, film2, ns))
    case (Some(t1), Some(t2)) => TitlesSimilar(t1, t2)
    case _ => false
  }

  /** A resource without a title in its dataset never matches, whichever side it is on. */
  lemma UntitledNeverMatches(store1: seq<Triple>, film1: string, store2: seq<Triple>, film2: string, ns: string -> string)
    requires ExtractTitle(store1, film1, ns).None? || ExtractTitle(store2, film2, ns).None?
    ensures !AreFilmsSimilar(store1, film1, store2, film2, ns)
    ensures !AreFilmsSimilar(store2, film2, store1, film1, ns)
  {
  }

  /** Film similarity is symmetric. */
  lemma FilmsSimilarSymmetric(store1: seq<Triple>, film1: string, store2: seq<Triple>, film2: string, ns: string -> string)
    ensures AreFilmsSimilar(store1, film1, store2, film2, ns) == AreFilmsSimilar(store2, film2, store1, film1, ns)
  {
    var t1, t2 := ExtractTitle(store1, film1, ns), ExtractTitle(store2, film2, ns);
    if t1.Some? && t2.Some? {
      SimilarSymmetric(t1.value, t2.value);
    }
  }

  // ---------------------------------------------------------------------
  // Titles do not depend on `owl:sameAs` statements
  // ---------------------------------------------------------------------

  /** The listing with every `owl:sameAs` statement removed. */
  function WithoutSameAs(store: seq<Triple>): seq<Triple> {
    if store == [] then []
    else if store[0].pred == OWL_SAME_AS then WithoutSameAs(store[1..])
    else [store[0]] + WithoutSameAs(store[1..])
  }

  lemma {:induction false} FirstObjectIgnoresSameAs(store: seq<Triple>, s: Node, p: string)
    requires p != OWL_SAME_AS
    ensures FirstObject(store, s, p) == FirstObject(WithoutSameAs(store), s, p)
  {
    if store != [] {
      FirstObjectIgnoresSameAs(store[1..], s, p);
      FirstObjectStep(store, s, p);
      if store[0].pred != OWL_SAME_AS {
        var w := WithoutSameAs(store);
        assert w[0] == store[0] && w[1..] == WithoutSameAs(store[1..]);
        FirstObjectStep(w, s, p);
      }
    }
  }

  /** `getProperty` looks at the first statement, then at the rest. */
  lemma FirstObjectStep(store: seq<Triple>, s: Node, p: string)
    requires store != []
    ensures FirstObject(store, s, p) == if About(store[0], s, p) then Some(store[0].obj) else FirstObject(store[1..], s, p)
  {
    if !About(store[0], s, p) {
      var k := FirstIndex(store[1..], s, p);
      if k.Some? {
        assert store[k.value + 1] == store[1..][k.value];
      }
    }
  }

  lemma TitlePredicateIsNotSameAs(namespace: string, name: string)
    requires name == "title" || name == "name"
    ensures namespace + name != OWL_SAME_AS
  {
    var p := namespace + name;
    assert p[|p| - 1] == 'e';
    assert OWL_SAME_AS[|OWL_SAME_AS| - 1] == 's';
  }

  /**
   * Two listings that differ only in `owl:sameAs` statements give every
   * film the same title: a dataset that already carries such links is
   * matched as if it had none.
   */
  lemma TitlesIgnoreSameAs(store1: seq<Triple>, store2: seq<Triple>, film: string, ns: string -> string)
    requires WithoutSameAs(store1) == WithoutSameAs(store2)
    ensures ExtractTitle(store1, film, ns) == ExtractTitle(store2, film, ns)
  {
    TitlePredicateIsNotSameAs(ns(film), "title");
    TitlePredicateIsNotSameAs(ns(film), "name");
    FirstObjectIgnoresSameAs(store1, Iri(film), ns(film) + "title");
    FirstObjectIgnoresSameAs(store2, Iri(film), ns(film) + "title");
    FirstObjectIgnoresSameAs(store1, Iri(film), ns(film) + "name");
    FirstObjectIgnoresSameAs(store2, Iri(film), ns(film) + "name");
  }

  // ---------------------------------------------------------------------
  // The pairwise loop
  // ---------------------------------------------------------------------

  function SameAs(a: string, b: string): Triple {
    Triple(Iri(a), OWL_SAME_AS, Iri(b))
  }

  predicate IsSameAsEdge(t: Triple) {
    t.pred == OWL_SAME_AS && t.subj.Iri? && t.obj.Iri?
  }

  /** Edges from `a`, a film of `store1`, to each similar film of `others`, films of `store2`. */
  function LinksFrom(store1: seq<Triple>, store2: seq<Triple>, ns: string -> string, a: string, others: seq<string>): (r: set<Triple>)
    ensures forall t :: t in r ==> IsSameAsEdge(t) && t.subj == Iri(a)
    ensures forall b :: SameAs(a, b) in r <==> b in others && AreFilmsSimilar(store1, a, store2, b, ns)
  {
    if others == [] then {}
    else
      var rest := LinksFrom(store1, store2, ns, a, others[1..]);
      if AreFilmsSimilar(store1, a, store2, others[0], ns) then {SameAs(a, others[0])} + rest else rest
  }

  /** Edges from every film of `films1` to every similar film of `films2`, titles read from their datasets. */
  function PairLinks(store1: seq<Triple>, store2: seq<Triple>, ns: string -> string,
                     films1: seq<string>, films2: seq<string>): (r: set<Triple>)
    ensures forall t :: t in r ==> IsSameAsEdge(t)
    ensures forall a, b :: SameAs(a, b) in r <==>
      a in films1 && b in films2 && AreFilmsSimilar(store1, a, store2, b, ns)
  {
    if films1 == [] then {}
    else
      var here := LinksFrom(store1, store2, ns, films1[0], films2);
      var rest := PairLinks(store1, store2, ns, films1[1..], films2);
      assert forall t :: t in here ==> t.subj == Iri(films1[0]);
      here + rest
  }

  /** `a` is a film of dataset `store1`, `b` one of `store2`, and their titles there are similar. */
  predicate Matches(ns: string -> string, store1: seq<Triple>, a: string, store2: seq<Triple>, b: string) {
    && a in FilmCandidates(store1)
    && b in FilmCandidates(store2)
    && AreFilmsSimilar(store1, a, store2, b, ns)
  }

  /** Edges from the films of `first` to the similar films of every later dataset. */
  function LinksToLater(ns: string -> string, first: seq<Triple>, later: seq<seq<Triple>>): (r: set<Triple>)
    ensures forall t :: t in r ==> IsSameAsEdge(t)
    ensures forall a, b :: SameAs(a, b) in r <==> exists j :: 0 <= j < |later| && Matches(ns, first, a, later[j], b)
  {
    if later == [] then {}
    else
      var here := PairLinks(first, later[0], ns, FilmCandidates(first), FilmCandidates(later[0]));
      var rest := LinksToLater(ns, first, later[1..]);
      var r := here + rest;
      forall a, b
        ensures SameAs(a, b) in r <==> exists j :: 0 <= j < |later| && Matches(ns, first, a, later[j], b)
      {
        LaterStep(ns, first, later, a, b);
      }
      r
  }

  /** A match among the later datasets is with the next one or with one after it. */
  lemma LaterStep(ns: string -> string, first: seq<Triple>, later: seq<seq<Triple>>, a: string, b: string)
    requires later != []
    ensures (exists j :: 0 <= j < |later| && Matches(ns, first, a, later[j], b)) <==>
      Matches(ns, first, a, later[0], b) || exists j :: 0 <= j < |later[1..]| && Matches(ns, first, a, later[1..][j], b)
  {
    if exists j :: 0 <= j < |later[1..]| && Matches(ns, first, a, later[1..][j], b) {
      var j :| 0 <= j < |later[1..]| && Matches(ns, first, a, later[1..][j], b);
      assert later[1..][j] == later[j + 1];
    }
    if exists j :: 0 <= j < |later| && Matches(ns, first, a, later[j], b) {
      var j :| 0 <= j < |later| && Matches(ns, first, a, later[j], b);
      if j > 0 {
        assert later[1..][j - 1] == later[j];
      }
    }
  }

  /**
   * The loop links `a` to `b`: `a` is a film of an earlier dataset than `b`
   * in the given order, and their titles, each read in its own dataset,
   * are similar.
   */
  predicate LinkedForward(ns: string -> string, datasets: seq<seq<Triple>>, a: string, b: string) {
    exists i, j :: 0 <= i < j < |datasets| && Matches(ns, datasets[i], a, datasets[j], b)
  }

  /**
   * The edges of the whole loop: for datasets i < j in the given order,
   * every similar pair (film of i, film of j), in that direction only.
   */
  function DatasetLinks(ns: string -> string, datasets: seq<seq<Triple>>): (r: set<Triple>)
    ensures forall t :: t in r ==> IsSameAsEdge(t)
    ensures forall a, b :: SameAs(a, b) in r <==> LinkedForward(ns, datasets, a, b)
  {
    if datasets == [] then {}
    else
      var tail := datasets[1..];
      var rest := DatasetLinks(ns, tail);
      var here := LinksToLater(ns, datasets[0], tail);
      var r := here + rest;
      forall a, b
        ensures SameAs(a, b) in r <==> LinkedForward(ns, datasets, a, b)
      {
        LinkedForwardStep(ns, datasets, a, b);
      }
      r
  }

  /** A forward pair either starts at the first dataset or lies wholly among the others. */
  lemma LinkedForwardStep(ns: string -> string, datasets: seq<seq<Triple>>, a: string, b: string)
    requires datasets != []
    ensures LinkedForward(ns, datasets, a, b) <==>
      (exists j :: 0 <= j < |datasets[1..]| && Matches(ns, datasets[0], a, datasets[1..][j], b))
      || LinkedForward(ns, datasets[1..], a, b)
  {
    var tail := datasets[1..];
    if exists j :: 0 <= j < |tail| && Matches(ns, datasets[0], a, tail[j], b) {
      var j :| 0 <= j < |tail| && Matches(ns, datasets[0], a, tail[j], b);
      assert tail[j] == datasets[j + 1];
    }
    if LinkedForward(ns, tail, a, b) {
      var i, j :| 0 <= i < j < |tail| && Matches(ns, tail[i], a, tail[j], b);
      assert tail[i] == datasets[i + 1] && tail[j] == datasets[j + 1];
    }
    if LinkedForward(ns, datasets, a, b) {
      var i, j :| 0 <= i < j < |datasets| && Matches(ns, datasets[i], a, datasets[j], b);
      if i == 0 {
        assert tail[j - 1] == datasets[j];
      } else {
        assert tail[i - 1] == datasets[i] && tail[j - 1] == datasets[j];
      }
    }
  }

  /**
   * `addSameAsRelationships`: the combined graph plus the loop's edges.
   * The graph only grows, every new statement is a forward `owl:sameAs`
   * edge between films of two datasets whose titles match, and every such
   * pair is linked.  The titles come from the datasets, so the edges added
   * to the combined graph never change a later comparison.
   */
  function AddSameAsRelationships(combined: Graph, ns: string -> string, datasets: seq<seq<Triple>>): (r: Graph)
    ensures combined <= r
    ensures forall t :: t in r && t !in combined ==>
      IsSameAsEdge(t) && LinkedForward(ns, datasets, t.subj.iri, t.obj.iri)
    ensures forall a, b :: LinkedForward(ns, datasets, a, b) ==> SameAs(a, b) in r
  {
    var links := DatasetLinks(ns, datasets);
    forall t | t in links
      ensures LinkedForward(ns, datasets, t.subj.iri, t.obj.iri)
    {
      assert t == SameAs(t.subj.iri, t.obj.iri);
    }
    combined + links
  }

  /**
   * A film without a title in every dataset that lists it is never linked,
   * even when another dataset gives the same IRI a title.
   */
  lemma UntitledFilmNeverLinked(ns: string -> string, datasets: seq<seq<Triple>>, a: string)
    requires forall i :: 0 <= i < |datasets| && a in FilmCandidates(datasets[i]) ==> ExtractTitle(datasets[i], a, ns).None?
    ensures forall b :: !LinkedForward(ns, datasets, a, b) && !LinkedForward(ns, datasets, b, a)
  {
    forall b, i, j | 0 <= i < |datasets| && 0 <= j < |datasets|
      ensures !Matches(ns, datasets[i], a, datasets[j], b) && !Matches(ns, datasets[i], b, datasets[j], a)
    {
      if a in FilmCandidates(datasets[i]) {
        UntitledNeverMatches(datasets[i], a, datasets[j], b, ns);
      }
      if a in FilmCandidates(datasets[j]) {
        UntitledNeverMatches(datasets[j], a, datasets[i], b, ns);
      }
    }
  }

  /** No film is a candidate of two datasets. */
  predicate Disjoint(datasets: seq<seq<Triple>>) {
    forall i, j, x :: 0 <= i < j < |datasets| && x in FilmCandidates(datasets[i]) ==> x !in FilmCandidates(datasets[j])
  }

  /** Under disjointness a film's dataset is unique. */
  lemma DatasetUnique(datasets: seq<seq<Triple>>, x: string, i: nat)
    requires Disjoint(datasets)
    requires i < |datasets| && x in FilmCandidates(datasets[i])
    ensures forall k :: 0 <= k < |datasets| && x in FilmCandidates(datasets[k]) ==> k == i
  {
  }

  /**
   * When no film is shared between datasets, the loop never links a film
   * to itself and never adds both directions of an edge.
   */
  lemma NoSelfOrReverseEdges(ns: string -> string, datasets: seq<seq<Triple>>, a: string, b: string)
    requires Disjoint(datasets)
    requires SameAs(a, b) in DatasetLinks(ns, datasets)
    ensures a != b
    ensures SameAs(b, a) !in DatasetLinks(ns, datasets)
  {
    var i, j :| 0 <= i < j < |datasets| && Matches(ns, datasets[i], a, datasets[j], b);
    DatasetUnique(datasets, a, i);
    DatasetUnique(datasets, b, j);
  }
}
