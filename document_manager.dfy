/** The in-memory document store: an id-keyed map with upsert (`save`),
    exact-id lookup (`findById`) and a five-way conjunctive filter (`search`). */
module Documents {
  import opened Wrappers
  import opened Strings
  import opened Streams

  /** A point in time, as whole seconds from the epoch (java.time.Instant). */
  type Instant = int

  datatype Author = Author(id: string, name: string)

  /** A document; an empty id means "not yet saved". */
  datatype Document = Document(id: string, title: string, content: string, author: Author, created: Instant)

  /** Every list may be absent (Java null) or empty; either way it does not
      constrain the search. An absent date does not constrain it either. */
  datatype SearchRequest = SearchRequest(
    titlePrefixes: Option<seq<string>>,
    containsContents: Option<seq<string>>,
    authorIds: Option<seq<string>>,
    createdFrom: Option<Instant>,
    createdTo: Option<Instant>)

  /** What `findById` as written raises on an unknown id: `Optional.of` given null. */
  datatype Fault = NullValue

  /** `Instant.isAfter`, a strict comparison: no instant is after itself. */
  predicate IsAfter(a: Instant, b: Instant): (after: bool)
    ensures after ==> a != b
  {
    a > b
  }

  /** `Instant.isBefore`: the converse of IsAfter. */
  predicate IsBefore(a: Instant, b: Instant)
    ensures IsBefore(a, b) <==> IsAfter(b, a)
  {
    a < b
  }

  /** `isNew`: a document whose id is the empty string has not been saved. */
  predicate IsNew(document: Document) { document.id == "" }

  /** In a store whose keys are all non-empty ids, a new document's id is never
      a key: this is why `save` draws an id for it instead of overwriting. */
  lemma NewIdIsNeverStored(storage: map<string, Document>, document: Document)
    requires forall k | k in storage :: k != ""
    ensures IsNew(document) ==> document.id !in storage
  {
  }

  /** `list == null || list.isEmpty()` */
  predicate NoConstraint(values: Option<seq<string>>) {
    values.None? || values.value == []
  }

  // The five filters of the search pipeline, in the order the pipeline applies them.
  // Each states, as its contract, the condition it imposes without the
  // "filtered list is not empty" detour.

  /** Some listed prefix starts the title. */
  predicate TitleFilter(req: SearchRequest, d: Document)
    ensures TitleFilter(req, d) <==>
      NoConstraint(req.titlePrefixes) || exists p :: p in req.titlePrefixes.value && StartsWith(d.title, p)
  {
    NoConstraint(req.titlePrefixes) || AnyMatch(req.titlePrefixes.value, tp => StartsWith(d.title, tp))
  }

  /** Some listed text occurs somewhere in the content. */
  predicate ContentFilter(req: SearchRequest, d: Document)
    ensures ContentFilter(req, d) <==>
      NoConstraint(req.containsContents) || exists c, i :: c in req.containsContents.value && OccursAt(d.content, c, i)
  {
    NoConstraint(req.containsContents) || AnyMatch(req.containsContents.value, c => Contains(d.content, c))
  }

  /** The author's id is listed. */
  predicate AuthorFilter(req: SearchRequest, d: Document)
    ensures AuthorFilter(req, d) <==> NoConstraint(req.authorIds) || d.author.id in req.authorIds.value
  {
    NoConstraint(req.authorIds) || AnyMatch(req.authorIds.value, a => d.author.id == a)
  }

  /** The lower bound is inclusive: a document created at createdFrom passes. */
  predicate CreatedFromFilter(req: SearchRequest, d: Document)
    ensures CreatedFromFilter(req, d) <==> req.createdFrom.None? || req.createdFrom.value <= d.created
  {
    req.createdFrom.None? || !IsAfter(req.createdFrom.value, d.created)
  }

  /** The upper bound is inclusive: a document created at createdTo passes. */
  predicate CreatedToFilter(req: SearchRequest, d: Document)
    ensures CreatedToFilter(req, d) <==> req.createdTo.None? || d.created <= req.createdTo.value
  {
    req.createdTo.None? || !IsBefore(req.createdTo.value, d.created)
  }

  /** The meaning of a request, stated independently of the pipeline: some
      listed prefix starts the title, some listed text occurs in the content,
      the author's id is listed, and createdFrom <= created <= createdTo with
      both bounds inclusive; an absent or empty list and an absent bound
      admit everything. */
  ghost predicate Admits(req: SearchRequest, d: Document) {
    && (NoConstraint(req.titlePrefixes) || exists p :: p in req.titlePrefixes.value && StartsWith(d.title, p))
    && (NoConstraint(req.containsContents) ||
        exists c, i :: c in req.containsContents.value && OccursAt(d.content, c, i))
    && (NoConstraint(req.authorIds) || d.author.id in req.authorIds.value)
    && (req.createdFrom.None? || req.createdFrom.value <= d.created)
    && (req.createdTo.None? || d.created <= req.createdTo.value)
  }

  /** A request that constrains nothing: every list absent or empty, no bounds. */
  predicate Unconstrained(req: SearchRequest) {
    && NoConstraint(req.titlePrefixes)
    && NoConstraint(req.containsContents)
    && NoConstraint(req.authorIds)
    && req.createdFrom.None?
    && req.createdTo.None?
  }

  /** The five filters together accept exactly what the request admits. */
  lemma FiltersAdmit(req: SearchRequest, d: Document)
    ensures (&& TitleFilter(req, d) && ContentFilter(req, d) && AuthorFilter(req, d)
             && CreatedFromFilter(req, d) && CreatedToFilter(req, d)) <==> Admits(req, d)
  {
  }

  /** The order in which a HashMap hands out its entries: every key exactly once. */
  ghost predicate IsEnumeration(order: seq<string>, keys: set<string>) {
    && Distinct(order)
    && (forall k :: k in order <==> k in keys)
  }

  /** Every key of the sequence is stored. */
  ghost predicate AllStored(storage: map<string, Document>, keys: seq<string>) {
    forall k | k in keys :: k in storage
  }

  /** `storage.values()` visited in the given key order. */
  function Values(storage: map<string, Document>, order: seq<string>): (vs: seq<Document>)
    requires AllStored(storage, order)
    ensures |vs| == |order|
  {
    if order == [] then [] else [storage[order[0]]] + Values(storage, order[1..])
  }

  /** Visiting every key once visits every stored document and nothing else. */
  lemma ValuesOfEnumeration(storage: map<string, Document>, order: seq<string>)
    requires IsEnumeration(order, storage.Keys)
    ensures forall d :: d in Values(storage, order) <==> d in storage.Values
  {
    var vs := Values(storage, order);
    forall d | d in storage.Values ensures d in vs {
      var k :| k in storage && storage[k] == d;
      var i :| 0 <= i < |order| && order[i] == k;
      ValuesAt(storage, order, i);
    }
    forall d | d in vs ensures d in storage.Values {
      var i :| 0 <= i < |vs| && vs[i] == d;
      ValuesAt(storage, order, i);
    }
  }

  /** Position i of the visited documents holds the document at the i-th key. */
  lemma {:induction false} ValuesAt(storage: map<string, Document>, order: seq<string>, i: nat)
    requires AllStored(storage, order) && i < |order|
    ensures Values(storage, order)[i] == storage[order[i]]
  {
    if i > 0 {
      ValuesAt(storage, order[1..], i - 1);
    }
  }

  /** Visiting a + b visits a, then b. */
  lemma {:induction false} ValuesConcat(storage: map<string, Document>, a: seq<string>, b: seq<string>)
    requires AllStored(storage, a) && AllStored(storage, b)
    ensures AllStored(storage, a + b)
    ensures Values(storage, a + b) == Values(storage, a) + Values(storage, b)
  {
    if a != [] {
      assert (a + b)[1..] == a[1..] + b;
      ValuesConcat(storage, a[1..], b);
      assert (a + b)[0] == a[0];
      calc {
        Values(storage, a + b);
        [storage[a[0]]] + Values(storage, a[1..] + b);
        [storage[a[0]]] + (Values(storage, a[1..]) + Values(storage, b));
        ([storage[a[0]]] + Values(storage, a[1..])) + Values(storage, b);
      }
    } else {
      assert a + b == b;
    }
  }

  /** Two orders of the same keys give two orders of the same documents. */
  lemma {:induction false} ValuesPermutation(storage: map<string, Document>, xs: seq<string>, ys: seq<string>)
    requires AllStored(storage, xs) && AllStored(storage, ys)
    requires multiset(xs) == multiset(ys)
    ensures multiset(Values(storage, xs)) == multiset(Values(storage, ys))
    decreases |xs|
  {
    if xs == [] {
      assert |ys| == |multiset(ys)| == 0;
    } else {
      var j := RemoveFirst(xs, ys);
      var k, before, after := xs[0], ys[..j], ys[j + 1..];
      assert AllStored(storage, before) && AllStored(storage, after) by {
        assert forall x | x in before :: x in ys;
        assert forall x | x in after :: x in ys;
      }
      ValuesConcat(storage, before, after);
      ValuesConcat(storage, [k], after);
      ValuesConcat(storage, before, [k] + after);
      assert ys == before + ([k] + after);
      ValuesPermutation(storage, xs[1..], before + after);
    }
  }

  /** The head of xs sits at some position j of its permutation ys, and the
      rest of xs is a permutation of ys without position j. */
  lemma RemoveFirst(xs: seq<string>, ys: seq<string>) returns (j: nat)
    requires xs != [] && multiset(xs) == multiset(ys)
    ensures j < |ys| && ys[j] == xs[0]
    ensures multiset(xs[1..]) == multiset(ys[..j] + ys[j + 1..])
  {
    var k := xs[0];
    assert k in multiset(ys);
    j :| 0 <= j < |ys| && ys[j] == k;
    var rest := ys[..j] + ys[j + 1..];
    assert xs == [k] + xs[1..];
    assert ys == ys[..j] + [k] + ys[j + 1..];
    assert multiset(xs) == multiset{k} + multiset(xs[1..]);
    assert multiset(ys) == multiset{k} + multiset(rest);
    forall e ensures multiset(xs[1..])[e] == multiset(rest)[e] {
      assert multiset(xs)[e] == multiset{k}[e] + multiset(xs[1..])[e];
      assert multiset(ys)[e] == multiset{k}[e] + multiset(rest)[e];
    }
  }

  /** Two enumerations of the same keys list the same keys. */
  lemma EnumerationsArePermutations(o1: seq<string>, o2: seq<string>, keys: set<string>)
    requires IsEnumeration(o1, keys) && IsEnumeration(o2, keys)
    ensures multiset(o1) == multiset(o2)
  {
    forall k ensures multiset(o1)[k] == multiset(o2)[k] {
      DistinctCount(o1, k);
      DistinctCount(o2, k);
    }
  }

  /** `UUID.randomUUID().toString()` as a sequence of draws: draw i is uuid(i).
      Version-4 UUIDs are taken to be non-empty and never to repeat. */
  ghost predicate IsUuidSource(uuid: nat -> string) {
    && (forall i: nat :: uuid(i) != "")
    && (forall i: nat, j: nat :: uuid(i) == uuid(j) ==> i == j)
  }

  /** n distinct draws that all hit existing keys cannot outnumber the keys, so
      the retry loop of `save` stops after at most |keys| collisions. */
  lemma {:induction false} CollidingDrawsBounded(uuid: nat -> string, n: nat, keys: set<string>)
    requires IsUuidSource(uuid)
    requires forall j: nat | j < n :: uuid(j) in keys
    ensures n <= |keys|
  {
    if n > 0 {
      var last := uuid(n - 1);
      forall j: nat | j < n - 1 ensures uuid(j) in keys - {last} {
        assert uuid(j) != last;
      }
      CollidingDrawsBounded(uuid, n - 1, keys - {last});
    }
  }

  class DocumentManager {
    var storage: map<string, Document>

    /** Every key is a non-empty id and holds the document carrying that id. */
    ghost predicate Valid()
      reads this
    {
      forall k | k in storage :: k != "" && storage[k].id == k
    }

    /** `new DocumentManager()`: an empty store. */
    constructor ()
      ensures storage == map[] && Valid()
    {
      storage := map[];
    }

    /** A store seeded with an initial mapping (what the tests inject into
        the private field). */
    constructor Seeded(initial: map<string, Document>)
      ensures storage == initial
    {
      storage := initial;
    }

    /** `save`: upsert. A new document gets a drawn id, redrawn while it
        collides with a stored key; a document with an id overwrites the
        entry at that id. */
    method Save(document: Document, uuid: nat -> string) returns (saved: Document)
      requires IsUuidSource(uuid)
      modifies this
      ensures IsNew(document) ==> saved.id != "" && saved.id !in old(storage) && saved == document.(id := saved.id)
      ensures !IsNew(document) ==> saved == document
      ensures storage == old(storage)[saved.id := saved]
      ensures FindById(saved.id) == Some(saved)
      ensures old(Valid()) ==> Valid()
    {
      if IsNew(document) {
        var draws: nat := 0;
        var id := uuid(0);
        while id in storage
          invariant storage == old(storage)
          invariant id == uuid(draws)
          invariant forall j: nat | j < draws :: uuid(j) in storage
          decreases |storage.Keys| - draws
        {
          CollidingDrawsBounded(uuid, draws + 1, storage.Keys);
          draws := draws + 1;
          id := uuid(draws);
        }
        saved := document.(id := id);
        storage := storage[id := saved];
      } else {
        saved := document;
        storage := storage[document.id := saved];
      }
    }

    /** `search`: the stored documents, visited in the map's iteration order,
        passed through the five filters. */
    function Search(order: seq<string>, req: SearchRequest): (r: seq<Document>)
      reads this
      requires IsEnumeration(order, storage.Keys)
      ensures forall d :: d in r <==> d in storage.Values && Admits(req, d)
      ensures |r| <= |storage.Keys|
    {
      var all := Values(storage, order);
      ValuesOfEnumeration(storage, order);
      forall d ensures (&& TitleFilter(req, d) && ContentFilter(req, d) && AuthorFilter(req, d)
                        && CreatedFromFilter(req, d) && CreatedToFilter(req, d)) <==> Admits(req, d) {
        FiltersAdmit(req, d);
      }
      CardinalityOfEnumeration(order, storage.Keys);
      Filter(Filter(Filter(Filter(Filter(all,
        d => TitleFilter(req, d)),
        d => ContentFilter(req, d)),
        d => AuthorFilter(req, d)),
        d => CreatedFromFilter(req, d)),
        d => CreatedToFilter(req, d))
    }

    /** `findById`, with an unknown id answered by an empty Optional. */
    function FindById(id: string): (r: Option<Document>)
      reads this
      ensures r.Some? <==> id in storage
      ensures r.Some? ==> r.value == storage[id]
      ensures Valid() && r.Some? ==> r.value.id == id
    {
      if id in storage then Some(storage[id]) else None
    }

    /** `findById` as written: `Optional.of(storage.get(id))`, which throws when
        the id is unknown because `get` then returns null. */
    function FindByIdAsWritten(id: string): (r: Result<Option<Document>, Fault>)
      reads this
      ensures r.Success? <==> id in storage
      ensures r.Success? ==> r.value == Some(storage[id])
    {
      var found := if id in storage then Some(storage[id]) else None;
      if found.None? then Failure(NullValue) else Success(found)
    }
  }

  /** An enumeration lists as many keys as there are. */
  lemma {:induction false} CardinalityOfEnumeration(order: seq<string>, keys: set<string>)
    requires IsEnumeration(order, keys)
    ensures |order| == |keys|
    decreases |order|
  {
    if order != [] {
      var k := order[0];
      assert IsEnumeration(order[1..], keys - {k}) by {
        forall i, j | 0 <= i < j < |order[1..]| ensures order[1..][i] != order[1..][j] {
          assert order[1..][i] == order[i + 1] && order[1..][j] == order[j + 1];
        }
        forall x ensures x in order[1..] <==> x in keys - {k} {
          if x in order[1..] {
            var i :| 0 <= i < |order[1..]| && order[1..][i] == x;
            assert order[i + 1] == x;
          }
          if x in keys - {k} {
            var i :| 0 <= i < |order| && order[i] == x;
            assert i != 0;
            assert order[1..][i - 1] == x;
          }
        }
      }
      CardinalityOfEnumeration(order[1..], keys - {k});
    } else {
      assert forall x :: x !in keys;
      assert keys == {};
    }
  }

  /** The iteration order decides only the order of the result: any two
      enumerations of the keys give the same documents, each as often. */
  lemma SearchOrderIrrelevant(m: DocumentManager, o1: seq<string>, o2: seq<string>, req: SearchRequest)
    requires IsEnumeration(o1, m.storage.Keys) && IsEnumeration(o2, m.storage.Keys)
    ensures multiset(m.Search(o1, req)) == multiset(m.Search(o2, req))
  {
    EnumerationsArePermutations(o1, o2, m.storage.Keys);
    var v1, v2 := Values(m.storage, o1), Values(m.storage, o2);
    ValuesPermutation(m.storage, o1, o2);
    var title := (d: Document) => TitleFilter(req, d);
    var content := (d: Document) => ContentFilter(req, d);
    var author := (d: Document) => AuthorFilter(req, d);
    var from := (d: Document) => CreatedFromFilter(req, d);
    var to := (d: Document) => CreatedToFilter(req, d);
    FilterPermutation(v1, v2, title);
    FilterPermutation(Filter(v1, title), Filter(v2, title), content);
    FilterPermutation(Filter(Filter(v1, title), content), Filter(Filter(v2, title), content), author);
    FilterPermutation(Filter(Filter(Filter(v1, title), content), author),
                      Filter(Filter(Filter(v2, title), content), author), from);
    FilterPermutation(Filter(Filter(Filter(Filter(v1, title), content), author), from),
                      Filter(Filter(Filter(Filter(v2, title), content), author), from), to);
  }

  /** While the store is valid no document is returned twice: the search
      returns each matching stored document exactly once. */
  lemma SearchWithoutRepeats(m: DocumentManager, order: seq<string>, req: SearchRequest, d: Document)
    requires m.Valid() && IsEnumeration(order, m.storage.Keys)
    ensures multiset(m.Search(order, req))[d] == if d in m.storage.Values && Admits(req, d) then 1 else 0
  {
    var vs := Values(m.storage, order);
    assert Distinct(vs) by {
      forall i, j | 0 <= i < j < |vs| ensures vs[i] != vs[j] {
        ValuesAt(m.storage, order, i);
        ValuesAt(m.storage, order, j);
      }
    }
    var title := (d: Document) => TitleFilter(req, d);
    var content := (d: Document) => ContentFilter(req, d);
    var author := (d: Document) => AuthorFilter(req, d);
    var from := (d: Document) => CreatedFromFilter(req, d);
    FilterDistinct(vs, title);
    FilterDistinct(Filter(vs, title), content);
    FilterDistinct(Filter(Filter(vs, title), content), author);
    FilterDistinct(Filter(Filter(Filter(vs, title), content), author), from);
    FilterDistinct(Filter(Filter(Filter(Filter(vs, title), content), author), from), d => CreatedToFilter(req, d));
    DistinctCount(m.Search(order, req), d);
  }

  /** A request that constrains nothing returns every stored document, in
      iteration order. */
  lemma UnconstrainedSearchReturnsAll(m: DocumentManager, order: seq<string>, req: SearchRequest)
    requires Unconstrained(req) && IsEnumeration(order, m.storage.Keys)
    ensures m.Search(order, req) == Values(m.storage, order)
  {
    var vs := Values(m.storage, order);
    FilterAll(vs, d => TitleFilter(req, d));
    FilterAll(vs, d => ContentFilter(req, d));
    FilterAll(vs, d => AuthorFilter(req, d));
    FilterAll(vs, d => CreatedFromFilter(req, d));
    FilterAll(vs, d => CreatedToFilter(req, d));
  }

  /** The request with every absent list replaced by an empty one. */
  function WithEmptyLists(req: SearchRequest): (r: SearchRequest)
    ensures r.titlePrefixes.Some? && r.containsContents.Some? && r.authorIds.Some?
  {
    req.(titlePrefixes := Some(OrEmpty(req.titlePrefixes)),
         containsContents := Some(OrEmpty(req.containsContents)),
         authorIds := Some(OrEmpty(req.authorIds)))
  }

  function OrEmpty(values: Option<seq<string>>): seq<string> {
    if values.None? then [] else values.value
  }

  /** An absent list and an empty list constrain the search alike. */
  lemma NullAndEmptyListsAgree(m: DocumentManager, order: seq<string>, req: SearchRequest)
    requires IsEnumeration(order, m.storage.Keys)
    ensures m.Search(order, req) == m.Search(order, WithEmptyLists(req))
  {
    var req' := WithEmptyLists(req);
    var vs := Values(m.storage, order);
    forall d: Document ensures TitleFilter(req, d) == TitleFilter(req', d)
                          && ContentFilter(req, d) == ContentFilter(req', d)
                          && AuthorFilter(req, d) == AuthorFilter(req', d) {
      NoConstraintOrEmpty(req.titlePrefixes);
      NoConstraintOrEmpty(req.containsContents);
      NoConstraintOrEmpty(req.authorIds);
    }
    var title, title' := (d: Document) => TitleFilter(req, d), (d: Document) => TitleFilter(req', d);
    var content, content' := (d: Document) => ContentFilter(req, d), (d: Document) => ContentFilter(req', d);
    var author, author' := (d: Document) => AuthorFilter(req, d), (d: Document) => AuthorFilter(req', d);
    var from, from' := (d: Document) => CreatedFromFilter(req, d), (d: Document) => CreatedFromFilter(req', d);
    var to, to' := (d: Document) => CreatedToFilter(req, d), (d: Document) => CreatedToFilter(req', d);
    FilterCongruent(vs, title, title');
    var s1 := Filter(vs, title);
    FilterCongruent(s1, content, content');
    var s2 := Filter(s1, content);
    FilterCongruent(s2, author, author');
    var s3 := Filter(s2, author);
    FilterCongruent(s3, from, from');
    FilterCongruent(Filter(s3, from), to, to');
  }

  lemma NoConstraintOrEmpty(values: Option<seq<string>>)
    ensures NoConstraint(values) == NoConstraint(Some(OrEmpty(values)))
    ensures !NoConstraint(values) ==> values.value == OrEmpty(values)
  {
  }
}
