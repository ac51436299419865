/** The repository's test fixtures and test cases, restated against the
    model: four seeded books, searches by date range, by content and with no
    constraint, a lookup, and saves. */
module Scenarios {
  import opened Wrappers
  import opened Strings
  import opened Documents

  const Kotsiubynskyi := Author("97b56df5-1169-42b7-9da3-6a65ae8258c4", "Михайло Коцюбинський")
  const Lovecraft := Author("46360406-445d-467b-a26e-486ceac3f4e2", "Howard Phillips Lovecraft")
  const Herbert := Author("a057efb3-40be-4d43-a174-fdb720679647", "Frank Herbert")

  // Creation times, in seconds since 1970-01-01T00:00Z.
  const Jan1908: Instant := -1956614400
  const Jan1910: Instant := -1893456000
  const Jan1912: Instant := -1830384000
  const Jun1936: Instant := -1059868800
  const Jan1940: Instant := -946771200
  const Aug1965: Instant := -139449600

  // Long contents are written in short pieces, each of which the verifier can
  // inspect character by character.
  const Book1Content := "Іван був дев'ятнадцятою " + "дитиною в гуцульській " + "родині Палійчуків."
  const Book2Content := "Лишилось тільки ще " + "спакуватись... Се було " + "одно з тих незчисленних " +
    "\"треба\", які мене так " + "утомили і не давали спати."

  const Book1 := Document(
    "61ee816f-b321-4e04-b35f-79a38dd37426",
    "Тіні забутих предків",
    Book1Content,
    Kotsiubynskyi, Jan1912)

  const Book2 := Document(
    "6d0265183-fb24-4cfe-b55a-fcfc26ff351f",
    "Intermezzo",
    Book2Content,
    Kotsiubynskyi, Jan1908)

  const Book3 := Document(
    "aa614e44-0ccb-4c27-a8da-6417e5b8dfc4",
    "The Shadow Out of Time",
    "After twenty-two years of " + "nightmare and terror" + Book3Rest,
    Lovecraft, Jun1936)

  const Book4 := Document(
    "31db7354-c2a9-4a2d-966b-62913839482e",
    "Dune",
    "In the week before their " + "departure to Arrakis" + Book4Rest,
    Herbert, Aug1965)

  // The contents of the 1936 and 1965 books after the phrases the content search looks for.
  const Book3Rest := ", saved only by a desperate conviction of the mythical source of certain impressions, I am unwilling to vouch for the truth of that which I think I found in Western Australia on the night of July 17–18, 1935."
  const Book4Rest := ", when all the final scurrying about had reached a nearly unbearable frenzy, an old crone came to visit a mother of the boy, Paul."

  /** The seeded storage: each book under its own id. */
  function Shelf(): (s: map<string, Document>)
    ensures s.Keys == {Book1.id, Book2.id, Book3.id, Book4.id}
    ensures s.Values == {Book1, Book2, Book3, Book4}
  {
    map[Book1.id := Book1, Book2.id := Book2, Book3.id := Book3, Book4.id := Book4]
  }

  const DateRange := SearchRequest(None, None, None, Some(Jan1910), Some(Jan1940))
  const ByContent := SearchRequest(None, Some(["nightmare and terror", "departure to Arrakis"]), None, None, None)
  const Everything := SearchRequest(None, None, None, None, None)

  /** A search returns exactly the given distinct books, once each, in some order. */
  ghost predicate ReturnsExactly(m: DocumentManager, order: seq<string>, req: SearchRequest, books: set<Document>)
    reads m
    requires IsEnumeration(order, m.storage.Keys)
  {
    forall d :: multiset(m.Search(order, req))[d] == if d in books then 1 else 0
  }

  /** The seeded store satisfies the store invariant. */
  lemma ShelfIsValid(m: DocumentManager)
    requires m.storage == Shelf()
    ensures m.Valid()
  {
  }

  /** A valid store returns, for any iteration order, exactly the stored
      documents the request admits. */
  lemma ExactResult(m: DocumentManager, order: seq<string>, req: SearchRequest, books: set<Document>)
    requires m.Valid() && IsEnumeration(order, m.storage.Keys)
    requires forall d | d in m.storage.Values :: Admits(req, d) <==> d in books
    requires books <= m.storage.Values
    ensures ReturnsExactly(m, order, req, books)
  {
    forall d ensures multiset(m.Search(order, req))[d] == if d in books then 1 else 0 {
      SearchWithoutRepeats(m, order, req, d);
    }
  }

  /** Created 1910-01-01 to 1940-01-01: the 1912 and 1936 books. */
  lemma DateRangeScenario(m: DocumentManager, order: seq<string>)
    requires m.storage == Shelf() && IsEnumeration(order, m.storage.Keys)
    ensures ReturnsExactly(m, order, DateRange, {Book1, Book3})
  {
    ShelfIsValid(m);
    ExactResult(m, order, DateRange, {Book1, Book3});
  }

  /** Content containing "nightmare and terror" or "departure to Arrakis":
      the 1936 and 1965 books. */
  lemma ContentScenario(m: DocumentManager, order: seq<string>)
    requires m.storage == Shelf() && IsEnumeration(order, m.storage.Keys)
    ensures ReturnsExactly(m, order, ByContent, {Book3, Book4})
  {
    ShelfIsValid(m);
    ContentMatches();
    ExactResult(m, order, ByContent, {Book3, Book4});
  }

  /** Which of the four books the content request admits. */
  lemma ContentMatches()
    ensures Admits(ByContent, Book3) && Admits(ByContent, Book4)
    ensures !Admits(ByContent, Book1) && !Admits(ByContent, Book2)
  {
    Book3Admitted();
    Book4Admitted();
    Book1Rejected();
    Book2Rejected();
  }

  lemma Book3Admitted() ensures Admits(ByContent, Book3) {
    var phrases := ByContent.containsContents.value;
    Occurrence("After twenty-two years of ", phrases[0], Book3Rest);
    assert phrases[0] in phrases;
  }

  lemma Book4Admitted() ensures Admits(ByContent, Book4) {
    var phrases := ByContent.containsContents.value;
    Occurrence("In the week before their ", phrases[1], Book4Rest);
    assert phrases[1] in phrases;
  }

  lemma Book1Rejected() ensures !Admits(ByContent, Book1) {
    Book1Cyrillic();
    NoLatinIn(Book1Content, ByContent.containsContents.value);
  }

  lemma Book2Rejected() ensures !Admits(ByContent, Book2) {
    Book2Cyrillic();
    NoLatinIn(Book2Content, ByContent.containsContents.value);
  }

  // The two Ukrainian texts contain no Latin 'n' or 'd'.

  lemma Book1Cyrillic() ensures 'n' !in Book1Content && 'd' !in Book1Content {
    assert 'n' !in "Іван був дев'ятнадцятою " && 'd' !in "Іван був дев'ятнадцятою " by {}
    assert 'n' !in "дитиною в гуцульській " && 'd' !in "дитиною в гуцульській " by {}
    assert 'n' !in "родині Палійчуків." && 'd' !in "родині Палійчуків." by {}
  }

  lemma Book2Cyrillic() ensures 'n' !in Book2Content && 'd' !in Book2Content {
    Book2FirstHalf();
    Book2SecondHalf();
  }

  lemma Book2FirstHalf()
    ensures 'n' !in "Лишилось тільки ще " + "спакуватись... Се було " + "одно з тих незчисленних "
    ensures 'd' !in "Лишилось тільки ще " + "спакуватись... Се було " + "одно з тих незчисленних "
  {
    assert 'n' !in "Лишилось тільки ще " && 'd' !in "Лишилось тільки ще " by {}
    assert 'n' !in "спакуватись... Се було " && 'd' !in "спакуватись... Се було " by {}
    assert 'n' !in "одно з тих незчисленних " && 'd' !in "одно з тих незчисленних " by {}
  }

  lemma Book2SecondHalf()
    ensures 'n' !in "\"треба\", які мене так " + "утомили і не давали спати."
    ensures 'd' !in "\"треба\", які мене так " + "утомили і не давали спати."
  {
    assert 'n' !in "\"треба\", які мене так " && 'd' !in "\"треба\", які мене так " by {}
    assert 'n' !in "утомили і не давали спати." && 'd' !in "утомили і не давали спати." by {}
  }

  /** Neither phrase can occur in a text lacking their first letters. */
  lemma NoLatinIn(text: string, phrases: seq<string>)
    requires phrases == ["nightmare and terror", "departure to Arrakis"]
    requires 'n' !in text && 'd' !in text
    ensures forall c, i | c in phrases :: !OccursAt(text, c, i)
  {
    forall c | c in phrases ensures !Contains(text, c) {
      AbsentFirstCharacter(text, c);
    }
  }

  lemma Occurrence(head: string, sub: string, tail: string)
    ensures OccursAt(head + sub + tail, sub, |head|)
  {
    assert (head + sub + tail)[|head|..|head| + |sub|] == sub;
  }

  /** A request with every field unset: all four books. */
  lemma EverythingScenario(m: DocumentManager, order: seq<string>)
    requires m.storage == Shelf() && IsEnumeration(order, m.storage.Keys)
    ensures ReturnsExactly(m, order, Everything, {Book1, Book2, Book3, Book4})
  {
    ShelfIsValid(m);
    ExactResult(m, order, Everything, {Book1, Book2, Book3, Book4});
  }

  /** Looking up the 1912 book's id finds that book. */
  lemma FindByIdScenario(m: DocumentManager)
    requires m.storage == Shelf()
    ensures m.FindById(Book1.id) == Some(Book1)
  {
  }

  /** On a store without the key, `findById` as written throws where the
      corrected lookup answers "absent". */
  lemma MissingKeyScenario(m: DocumentManager)
    requires m.storage == Shelf()
    ensures m.FindByIdAsWritten("no-such-id") == Failure(NullValue)
    ensures m.FindById("no-such-id") == None
  {
  }

  /** Saving a new document into the seeded store and looking up the returned
      id finds that same document. */
  method SaveThenFind(uuid: nat -> string, now: Instant) returns (saved: Document, found: Option<Document>)
    requires IsUuidSource(uuid)
    ensures saved.id != "" && saved.id !in Shelf()
    ensures found == Some(saved)
  {
    var m := new DocumentManager.Seeded(Shelf());
    var draft := Document("", "title", "content", Author("d6adfb43-43cc-4f3c-86e9-18bb795821b9", "name"), now);
    saved := m.Save(draft, uuid);
    found := m.FindById(saved.id);
  }

  /** Two saves under one id leave one entry, holding the later document. */
  method SaveTwiceUnderOneId(first: Document, second: Document, uuid: nat -> string) returns (entries: map<string, Document>)
    requires IsUuidSource(uuid)
    requires first.id != "" && second.id == first.id
    ensures entries == map[first.id := second]
  {
    var m := new DocumentManager();
    var _ := m.Save(first, uuid);
    var _ := m.Save(second, uuid);
    entries := m.storage;
  }

  /** Two new documents saved one after the other get distinct ids, and the
      store then holds both under those ids. */
  method SaveTwoNew(a: Document, b: Document, uuid: nat -> string) returns (savedA: Document, savedB: Document, entries: map<string, Document>)
    requires IsUuidSource(uuid)
    requires IsNew(a) && IsNew(b)
    ensures savedA.id != savedB.id
    ensures entries == map[savedA.id := savedA, savedB.id := savedB]
  {
    var m := new DocumentManager();
    savedA := m.Save(a, uuid);
    savedB := m.Save(b, uuid);
    entries := m.storage;
  }
}
