/**
 * Namespace prefixes for the converted N-Triples file: the namespace part
 * of an IRI, the short name chosen for a namespace, and the prefix table
 * built from the namespaces ordered by how often they occur.
 */
module Prefixes {
  import opened Wrappers
  import opened Text

  // ---------------------------------------------------------------------
  // extractPrefix
  // ---------------------------------------------------------------------

  predicate IsSeparator(c: char) {
    c == '/' || c == '#'
  }

  /**
   * `uri[..n]` is a namespace of `uri`: it ends with the last `/` or `#`,
   * that separator is not the first character, and something follows it.
   */
  predicate IsNamespaceSplit(uri: string, n: int) {
    && 2 <= n < |uri|
    && IsSeparator(uri[n - 1])
    && forall k :: n <= k < |uri| ==> !IsSeparator(uri[k])
  }

  /** `extractPrefix`: `null` (here `None`) unless the last separator is strictly inside the IRI. */
  function ExtractPrefix(uri: string): (r: Option<string>)
    ensures r.Some? ==> |r.value| <= |uri| && r.value == uri[..|r.value|] && IsNamespaceSplit(uri, |r.value|)
    ensures r.None? ==> forall n :: 0 <= n <= |uri| ==> !IsNamespaceSplit(uri, n)
  {
    var slash := LastIndexOf(uri, '/');
    var hash := LastIndexOf(uri, '#');
    var last := if slash >= hash then slash else hash;
    if 0 < last < |uri| - 1 then Some(uri[..last + 1]) else None
  }

  /** There is at most one way to split an IRI into namespace and local name. */
  lemma NamespaceSplitUnique(uri: string, m: int, n: int)
    requires IsNamespaceSplit(uri, m) && IsNamespaceSplit(uri, n)
    ensures m == n
  {
  }

  /** `extractPrefix` finds the namespace exactly when the IRI has one. */
  lemma ExtractPrefixIff(uri: string, n: int)
    ensures IsNamespaceSplit(uri, n) <==> 0 <= n <= |uri| && ExtractPrefix(uri) == Some(uri[..n])
  {
    if IsNamespaceSplit(uri, n) {
      var r := ExtractPrefix(uri);
      assert r.Some?;
      NamespaceSplitUnique(uri, |r.value|, n);
    }
  }

  /** A namespace ends with its separator, so it has no namespace of its own. */
  lemma NamespaceHasNoNamespace(uri: string)
    requires ExtractPrefix(uri).Some?
    ensures ExtractPrefix(ExtractPrefix(uri).value).None?
  {
    var ns := ExtractPrefix(uri).value;
    assert IsSeparator(ns[|ns| - 1]);
  }

  // ---------------------------------------------------------------------
  // generatePrefixName
  // ---------------------------------------------------------------------

  /** A substring test and the short name it gives, in the order they are tried. */
  datatype Rule = Rule(pattern: string, name: string)

  const RULES: seq<Rule> := [
    Rule("linkedmdb.org/resource/movie/", "movie"),
    Rule("linkedmdb.org/resource/actor/", "actor"),
    Rule("linkedmdb.org/resource/director/", "director"),
    Rule("linkedmdb.org/resource/writer/", "writer"),
    Rule("linkedmdb.org/resource/producer/", "producer"),
    Rule("linkedmdb.org/resource/film/", "film"),
    Rule("linkedmdb.org/resource/country/", "country"),
    Rule("linkedmdb.org/resource/film_genre/", "genre"),
    Rule("linkedmdb.org/resource/performance/", "perf"),
    Rule("linkedmdb.org/resource/oddlinker/", "oddlinker"),
    Rule("linkedmdb.org/resource/interlink/", "interlink"),
    Rule("linkedmdb.org/resource/", "lmdb"),
    Rule("dbpedia.org/ontology/", "dbo"),
    Rule("dbpedia.org/property/", "dbp"),
    Rule("dbpedia.org/resource/", "dbr"),
    Rule("wikidata.org/entity/", "wd"),
    Rule("wikidata.org/prop/direct/", "wdt"),
    Rule("freebase.com/", "freebase"),
    Rule("schema.org/", "schema")
  ]

  /** The index of the first rule from `k` on whose pattern occurs in `uri`. */
  function FirstRule(uri: string, k: nat): (r: Option<nat>)
    requires k <= |RULES|
    ensures r.Some? ==> k <= r.value < |RULES| && Contains(uri, RULES[r.value].pattern)
    ensures r.Some? ==> forall j :: k <= j < r.value ==> !Contains(uri, RULES[j].pattern)
    ensures r.None? ==> forall j :: k <= j < |RULES| ==> !Contains(uri, RULES[j].pattern)
    decreases |RULES| - k
  {
    if k == |RULES| then None
    else if Contains(uri, RULES[k].pattern) then Some(k)
    else FirstRule(uri, k + 1)
  }

  /**
   * `generatePrefixName`: the first matching rule's name; otherwise the
   * second-to-last piece of `uri.split("/")` when there are more than
   * three pieces (trailing empty pieces dropped), else `ns`.
   */
  function GeneratePrefixName(uri: string): (r: string)
    ensures FirstRule(uri, 0).Some? ==> r == RULES[FirstRule(uri, 0).value].name
    ensures FirstRule(uri, 0).None? && |Split(uri, '/')| > 3 ==> r == Split(uri, '/')[|Split(uri, '/')| - 2]
    ensures FirstRule(uri, 0).None? && |Split(uri, '/')| <= 3 ==> r == "ns"
  {
    match FirstRule(uri, 0)
    case Some(i) => RULES[i].name
    case None =>
      var parts := Split(uri, '/');
      if |parts| > 3 then parts[|parts| - 2] else "ns"
  }

  /** An earlier rule always shadows a later one: the name comes from the lowest matching rule. */
  lemma RuleOrder(uri: string, i: nat)
    requires i < |RULES| && Contains(uri, RULES[i].pattern)
    ensures FirstRule(uri, 0).Some? && FirstRule(uri, 0).value <= i
    ensures (forall j :: 0 <= j < i ==> !Contains(uri, RULES[j].pattern)) ==> GeneratePrefixName(uri) == RULES[i].name
  {
  }

  /** Any LinkedMDB resource namespace is named by one of the twelve LinkedMDB rules. */
  lemma LinkedMdbNamed(uri: string)
    requires Contains(uri, "linkedmdb.org/resource/")
    ensures exists i :: 0 <= i < 12 && GeneratePrefixName(uri) == RULES[i].name
  {
    RuleOrder(uri, 11);
    var i := FirstRule(uri, 0).value;
    assert GeneratePrefixName(uri) == RULES[i].name;
  }

  // ---------------------------------------------------------------------
  // setPrefixes
  // ---------------------------------------------------------------------

  /** The seven prefixes bound before any discovered namespace. */
  const STANDARD: map<string, string> := map[
    "rdf" := "http://www.w3.org/1999/02/22-rdf-syntax-ns#",
    "rdfs" := "http://www.w3.org/2000/01/rdf-schema#",
    "owl" := "http://www.w3.org/2002/07/owl#",
    "xsd" := "http://www.w3.org/2001/XMLSchema#",
    "foaf" := "http://xmlns.com/foaf/0.1/",
    "dc" := "http://purl.org/dc/elements/1.1/",
    "dcterms" := "http://purl.org/dc/terms/"
  ]

  /** A namespace and the number of IRIs found in it, in the map's iteration order. */
  datatype Entry = Entry(ns: string, count: int)

  /**
   * Entry `a` comes before entry `b` after sorting by descending count;
   * the sort is stable, so equal counts keep their iteration order.
   */
  predicate Before(entries: seq<Entry>, a: int, b: int) {
    && 0 <= a < |entries| && 0 <= b < |entries|
    && (entries[a].count > entries[b].count || (entries[a].count == entries[b].count && a < b))
  }

  predicate SortedBy(entries: seq<Entry>, order: seq<nat>) {
    forall i, j :: 0 <= i < j < |order| ==> Before(entries, order[i], order[j])
  }

  /** Insert a later index into an ordered run of earlier ones: after every entry with at least its count. */
  function Insert(entries: seq<Entry>, order: seq<nat>, x: nat): (r: seq<nat>)
    requires x < |entries| && SortedBy(entries, order)
    requires forall k :: 0 <= k < |order| ==> order[k] < x
    ensures |r| == |order| + 1
    ensures forall y: int :: y in r <==> y == x || y in order
    ensures SortedBy(entries, r)
  {
    if order == [] then [x]
    else if entries[x].count > entries[order[0]].count then
      [x] + order
    else
      var rest := Insert(entries, order[1..], x);
      forall k | 0 <= k < |rest|
        ensures Before(entries, order[0], rest[k])
      {
        assert rest[k] in rest;
        if rest[k] != x {
          assert rest[k] in order[1..];
          var j :| 0 <= j < |order[1..]| && order[1..][j] == rest[k];
          assert order[1..][j] == order[j + 1];
        }
      }
      [order[0]] + rest
  }

  /**
   * `sortedPrefixes`: the indices of the first `n` entries, stably sorted
   * by descending count.  Being sorted by a strict order, it repeats no
   * index, so it is a permutation of `0..n`.
   */
  function SortedOrder(entries: seq<Entry>, n: nat): (r: seq<nat>)
    requires n <= |entries|
    ensures |r| == n
    ensures forall k :: 0 <= k < n ==> r[k] < n
    ensures forall y: int :: y in r <==> 0 <= y < n
    ensures SortedBy(entries, r)
  {
    if n == 0 then []
    else
      var r := Insert(entries, SortedOrder(entries, n - 1), n - 1);
      assert forall k :: 0 <= k < |r| ==> r[k] in r;
      r
  }

  /** The order of all entries. */
  function Order(entries: seq<Entry>): (r: seq<nat>)
    ensures |r| == |entries|
    ensures forall k :: 0 <= k < |r| ==> r[k] < |entries|
    ensures forall i :: 0 <= i < |entries| ==> i in r
    ensures SortedBy(entries, r)
  {
    SortedOrder(entries, |entries|)
  }

  /** A discovered namespace with the short name generated for it. */
  datatype Binding = Binding(name: string, ns: string)

  /** `k` is the first binding that produces its short name. */
  predicate FirstWithName(bindings: seq<Binding>, k: int) {
    0 <= k < |bindings| && forall j :: 0 <= j < k ==> bindings[j].name != bindings[k].name
  }

  /**
   * The de-duplication loop: `used` holds the names bound so far (its key
   * set is `usedNames`); a binding whose name is taken is dropped.
   */
  function FirstWins(bindings: seq<Binding>, used: map<string, string>): (r: map<string, string>)
    ensures forall name :: name in used ==> name in r && r[name] == used[name]
    ensures forall k :: 0 <= k < |bindings| ==> bindings[k].name in r
  {
    if bindings == [] then used
    else
      var b := bindings[0];
      var next := if b.name in used then used else used[b.name := b.ns];
      var r := FirstWins(bindings[1..], next);
      assert forall k :: 1 <= k < |bindings| ==> bindings[k] == bindings[1..][k - 1];
      r
  }

  /** Nothing but the names already used and the names produced is bound. */
  lemma {:induction false} FirstWinsKeys(bindings: seq<Binding>, used: map<string, string>)
    ensures FirstWins(bindings, used).Keys == used.Keys + set k | 0 <= k < |bindings| :: bindings[k].name
  {
    if bindings != [] {
      var b := bindings[0];
      var next := if b.name in used then used else used[b.name := b.ns];
      FirstWinsKeys(bindings[1..], next);
      assert (set k | 0 <= k < |bindings| :: bindings[k].name)
          == {b.name} + (set k | 0 <= k < |bindings[1..]| :: bindings[1..][k].name) by {
        assert forall k :: 1 <= k < |bindings| ==> bindings[k] == bindings[1..][k - 1];
      }
    }
  }

  /** Each name is bound to the first binding that produces it, unless it was already used. */
  lemma {:induction false} FirstWinsFirst(bindings: seq<Binding>, used: map<string, string>, k: int)
    requires FirstWithName(bindings, k) && bindings[k].name !in used
    ensures FirstWins(bindings, used)[bindings[k].name] == bindings[k].ns
  {
    var b := bindings[0];
    var next := if b.name in used then used else used[b.name := b.ns];
    if k > 0 {
      assert bindings[k] == bindings[1..][k - 1];
      assert FirstWithName(bindings[1..], k - 1) by {
        forall j | 0 <= j < k - 1
          ensures bindings[1..][j].name != bindings[1..][k - 1].name
        {
          assert bindings[1..][j] == bindings[j + 1];
        }
      }
      FirstWinsFirst(bindings[1..], next, k - 1);
    }
  }

  /** The generated name of entry `i`. */
  function NameOf(entries: seq<Entry>, i: nat): string
    requires i < |entries|
  {
    GeneratePrefixName(entries[i].ns)
  }

  /** The namespaces in sorted order, each with its generated name. */
  function SortedBindings(entries: seq<Entry>): (r: seq<Binding>)
    ensures |r| == |entries|
    ensures forall k :: 0 <= k < |r| ==> r[k] == Binding(NameOf(entries, Order(entries)[k]), entries[Order(entries)[k]].ns)
  {
    var order := Order(entries);
    seq(|order|, i requires 0 <= i < |order| => Binding(NameOf(entries, order[i]), entries[order[i]].ns))
  }

  /** The names bound from the discovered namespaces. */
  function Discovered(entries: seq<Entry>): map<string, string> {
    FirstWins(SortedBindings(entries), map[])
  }

  /** `setPrefixes`: the standard prefixes, then each discovered name, which replaces a standard one of the same name. */
  function SetPrefixes(entries: seq<Entry>): (r: map<string, string>)
    ensures r.Keys == STANDARD.Keys + Discovered(entries).Keys
    ensures forall name :: name in Discovered(entries) ==> r[name] == Discovered(entries)[name]
    ensures forall name :: name in STANDARD && name !in Discovered(entries) ==> r[name] == STANDARD[name]
  {
    STANDARD + Discovered(entries)
  }

  /**
   * Of all namespaces that generate the same short name, the one with the
   * highest count is bound to it, the earliest in iteration order on a tie.
   */
  lemma BestNamespaceWins(entries: seq<Entry>, i: nat)
    requires i < |entries|
    requires forall j :: 0 <= j < |entries| && j != i && NameOf(entries, j) == NameOf(entries, i) ==> Before(entries, i, j)
    ensures NameOf(entries, i) in Discovered(entries)
    ensures Discovered(entries)[NameOf(entries, i)] == entries[i].ns
  {
    var order := Order(entries);
    var bindings := SortedBindings(entries);
    assert i in order;
    var p :| 0 <= p < |order| && order[p] == i;
    forall j | 0 <= j < p
      ensures bindings[j].name != bindings[p].name
    {
      assert Before(entries, order[j], order[p]);
      assert bindings[j].name == NameOf(entries, order[j]);
    }
    assert FirstWithName(bindings, p);
    assert bindings[p] == Binding(NameOf(entries, i), entries[i].ns);
    FirstWinsFirst(bindings, map[], p);
  }

  /** A namespace that another one beats for its short name is not bound. */
  lemma OutcountedNamespaceDropped(entries: seq<Entry>, i: nat, j: nat)
    requires i < |entries| && j < |entries| && i != j
    requires NameOf(entries, j) == NameOf(entries, i) && entries[i].ns != entries[j].ns
    requires forall k :: 0 <= k < |entries| && k != i && NameOf(entries, k) == NameOf(entries, i) ==> Before(entries, i, k)
    ensures NameOf(entries, j) in Discovered(entries) && Discovered(entries)[NameOf(entries, j)] != entries[j].ns
  {
    BestNamespaceWins(entries, i);
  }

  /** A standard prefix survives unless a discovered namespace generates the same name. */
  lemma StandardKept(entries: seq<Entry>, name: string)
    requires name in STANDARD
    requires forall j :: 0 <= j < |entries| ==> NameOf(entries, j) != name
    ensures SetPrefixes(entries)[name] == STANDARD[name]
  {
    var bindings := SortedBindings(entries);
    FirstWinsKeys(bindings, map[]);
    assert forall k :: 0 <= k < |bindings| ==> bindings[k].name != name;
    assert name !in Discovered(entries);
  }
}
