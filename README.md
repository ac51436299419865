# DocumentManager in Dafny

A model of `DocumentManager`, an in-memory document store keyed by document id.
It has three operations:

- `save` is an upsert. A document with an empty id gets a fresh UUID. The UUID is
  redrawn while it collides with a stored key. A document that already has an id
  replaces whatever is stored under that id.
- `findById` looks an id up.
- `search` runs every stored document through five filters and keeps the ones
  that pass all of them: title prefix, content substring, author id, created
  from (inclusive) and created to (inclusive). A list that is null or empty does
  not constrain its filter, and neither does a null date.

Files:

- `wrappers.dfy`: `Option` (java.util.Optional) and `Result` (a call that may throw).
- `strings.dfy`: `String.startsWith` and `String.contains`.
- `streams.dfy`: `stream().filter(...).toList()` and the "filtered list is not
  empty" test, with their permutation, distinctness and congruence lemmas.
- `document_manager.dfy`: the data classes as datatypes, the five filter
  predicates, the `DocumentManager` class (a `storage` map field, `Save` with its
  retry loop, `Search`, `FindById`) and the lemmas about search.
- `scenarios.dfy`: the repository's test fixtures (four books, 1908 to 1965) and
  its test cases, restated as lemmas and client methods.

Modelling choices:

- `Instant` is an `int` count of seconds since the epoch. `isAfter` and
  `isBefore` are strict comparisons on it.
- The UUID generator is a parameter `uuid: nat -> string`: draw number i returns
  `uuid(i)`. Callers must supply draws that are non-empty and never repeat
  (`IsUuidSource`). That is the uniqueness a version-4 UUID is relied on for. It
  also bounds the retry loop: at most `|storage|` draws can collide. Draws are
  numbered per call: every `Save` starts at `uuid(0)`. Two saves that share one
  `uuid` therefore replay its early draws, which the second save finds taken
  and skips. Java's successive `randomUUID()` calls do not replay, so the
  second save may collide more often here than in the source. The results
  promised by `Save` are the same either way.
- The HashMap's iteration order is a parameter `order`. It must list every key
  exactly once (`IsEnumeration`). `SearchOrderIrrelevant` shows that the order
  changes only the order of the result.
- Documents are values. `setId` on the caller's object becomes the returned copy
  `document.(id := id)`.
- `findById` as written, `Optional.of(storage.get(id))`, throws on an unknown
  id. The model keeps that behaviour as `FindByIdAsWritten`. The operation the
  rest of the model uses is `FindById`, which answers `None` for an unknown id
  (see Findings).

## Model

| member | source | states |
|---|---|---|
| Documents.DocumentManager.Save | src/main/java/org/dmdev/demo/DocumentManager.java:31-44 | A new document (empty id) gets an id that is non-empty and was not a key before. A document with an id keeps it. The new storage is the old storage with the returned document written at its id, and every other entry unchanged. `findById` on the returned id then yields the returned document. The store invariant is preserved. |
| Documents.CollidingDrawsBounded | src/main/java/org/dmdev/demo/DocumentManager.java:33-36 | n distinct UUID draws that all collide with stored keys number at most the keys, so the retry loop ends. |
| Documents.DocumentManager.Search | src/main/java/org/dmdev/demo/DocumentManager.java:56-75 | A document is in the result iff it is stored and the request admits it: some prefix starts its title, some text occurs in its content, its author id is listed, and createdFrom <= created <= createdTo. Null or empty lists and null dates do not constrain. The result is no longer than the store. |
| Documents.FiltersAdmit | src/main/java/org/dmdev/demo/DocumentManager.java:59-72 | The five chained filters accept exactly what `Admits` describes. Each "filtered list not empty" test is an existential over its list. `!from.isAfter(created)` is `created >= from` and `!to.isBefore(created)` is `created <= to`. |
| Documents.SearchOrderIrrelevant | src/main/java/org/dmdev/demo/DocumentManager.java:57-74 | Two iteration orders of the same storage give results that are permutations of each other. |
| Documents.SearchWithoutRepeats | src/main/java/org/dmdev/demo/DocumentManager.java:57-74 | In a valid store, every stored document the request admits occurs exactly once in the result, and no other document occurs. |
| Documents.UnconstrainedSearchReturnsAll | src/main/java/org/dmdev/demo/DocumentManager.java:59-72 | A request whose lists are all null or empty and whose dates are null returns every stored value, in iteration order. |
| Documents.NullAndEmptyListsAgree | src/main/java/org/dmdev/demo/DocumentManager.java:59-66 | Replacing null lists by empty lists never changes the search result. |
| Documents.DocumentManager.FindById | src/main/java/org/dmdev/demo/DocumentManager.java:83-85 | Present iff the id is a key, and then it holds the stored document, whose id in a valid store is the id looked up. |
| Documents.DocumentManager.FindByIdAsWritten | src/main/java/org/dmdev/demo/DocumentManager.java:83-85 | As written: succeeds with the stored document iff the id is a key, and throws otherwise (Optional.of rejects the null that get returns). |
| Documents.DocumentManager.constructor | src/main/java/org/dmdev/demo/DocumentManager.java:22 | `storage = new HashMap<>()`: an empty store, which satisfies the store invariant. |
| Documents.IsAfter | src/main/java/org/dmdev/demo/DocumentManager.java:69 | `Instant.isAfter` is strict `>`: no instant is after itself. |
| Documents.IsBefore | src/main/java/org/dmdev/demo/DocumentManager.java:72 | `Instant.isBefore` is strict `<`, the converse of `isAfter`. |
| Documents.IsNew | src/main/java/org/dmdev/demo/DocumentManager.java:46-48 | `getId().isEmpty()`: a document is new iff its id is the empty string. `Save` branches on it. |
| Documents.NewIdIsNeverStored | src/main/java/org/dmdev/demo/DocumentManager.java:46-48 | `isNew` holds of a document whose id is empty. In a store whose keys are non-empty, such an id is never a key, so `save` must draw one rather than overwrite. |
| Documents.TitleFilter | src/main/java/org/dmdev/demo/DocumentManager.java:59-60 | Passes iff the prefix list is null or empty, or some listed prefix starts the title. |
| Documents.ContentFilter | src/main/java/org/dmdev/demo/DocumentManager.java:62-63 | Passes iff the text list is null or empty, or some listed text occurs at some index of the content. |
| Documents.AuthorFilter | src/main/java/org/dmdev/demo/DocumentManager.java:65-66 | Passes iff the author id list is null or empty, or the document's author id is listed. |
| Documents.CreatedFromFilter | src/main/java/org/dmdev/demo/DocumentManager.java:68-69 | Passes iff createdFrom is null or createdFrom <= created: `!isAfter` makes the lower bound inclusive. |
| Documents.CreatedToFilter | src/main/java/org/dmdev/demo/DocumentManager.java:71-72 | Passes iff createdTo is null or created <= createdTo: `!isBefore` makes the upper bound inclusive. |
| Documents.Values | src/main/java/org/dmdev/demo/DocumentManager.java:57 | `storage.values()` in a given key order yields one document per key visited; `ValuesAt` gives the document at each position. |
| Documents.ValuesAt | src/main/java/org/dmdev/demo/DocumentManager.java:57 | Position i of the visited documents holds the document stored under the i-th key of the order. |
| Documents.ValuesOfEnumeration | src/main/java/org/dmdev/demo/DocumentManager.java:57 | Visiting every key once yields every stored document and nothing else. |
| Documents.ValuesPermutation | src/main/java/org/dmdev/demo/DocumentManager.java:57 | Two orders of the same keys yield two orders of the same documents. |
| Documents.EnumerationsArePermutations | src/main/java/org/dmdev/demo/DocumentManager.java:57 | Two iteration orders over the same keys are permutations of each other. |
| Documents.CardinalityOfEnumeration | src/main/java/org/dmdev/demo/DocumentManager.java:57 | An iteration order lists exactly as many keys as the map holds. |
| Streams.Filter | src/main/java/org/dmdev/demo/DocumentManager.java:57-74 | `filter(...).toList()` keeps exactly the elements that pass, and is no longer than its input. |
| Streams.AnyMatch | src/main/java/org/dmdev/demo/DocumentManager.java:60 | `!list.stream().filter(f).toList().isEmpty()` holds iff some element satisfies f. |
| Streams.FilterCount | src/main/java/org/dmdev/demo/DocumentManager.java:57-74 | A filter keeps every copy of a passing element and drops every copy of a failing one. |
| Streams.FilterPermutation | src/main/java/org/dmdev/demo/DocumentManager.java:57-74 | Filtering two permutations gives two permutations. |
| Streams.FilterDistinct | src/main/java/org/dmdev/demo/DocumentManager.java:57-74 | Filtering a sequence without repeats leaves none. |
| Streams.FilterAll | src/main/java/org/dmdev/demo/DocumentManager.java:59-72 | A filter that every element passes returns its input unchanged. |
| Streams.FilterCongruent | src/main/java/org/dmdev/demo/DocumentManager.java:59-72 | Two filters that agree on every element give the same result. |
| Strings.StartsWith | src/main/java/org/dmdev/demo/DocumentManager.java:60 | `title.startsWith(tp)` holds iff tp occurs at index 0 of the title; every string starts with the empty string. |
| Strings.Contains | src/main/java/org/dmdev/demo/DocumentManager.java:63 | `content.contains(c)` holds iff c occurs at some index of content. |
| Strings.AbsentFirstCharacter | src/main/java/org/dmdev/demo/DocumentManager.java:63 | A text without the first character of a non-empty string does not contain that string. |
| Scenarios.DateRangeScenario | src/test/java/org/dmdev/demo/DocumentManagerTest.java:79-87 | Over the four seeded books, created 1910-01-01 to 1940-01-01 returns exactly the 1912 and 1936 books, once each, for every iteration order. |
| Scenarios.ContentScenario | src/test/java/org/dmdev/demo/DocumentManagerTest.java:89-98 | Content containing "nightmare and terror" or "departure to Arrakis" returns exactly the 1936 and 1965 books. |
| Scenarios.EverythingScenario | src/test/java/org/dmdev/demo/DocumentManagerTest.java:100-107 | A request with every field null returns all four books. |
| Scenarios.FindByIdScenario | src/test/java/org/dmdev/demo/DocumentManagerTest.java:109-113 | Looking up the 1912 book's id finds that book. |
| Scenarios.SaveThenFind | src/test/java/org/dmdev/demo/DocumentManagerTest.java:115-122 | Saving a new document into the seeded store gives it an id that was not stored, and `findById` on that id returns it. |
| Scenarios.SaveTwiceUnderOneId | src/main/java/org/dmdev/demo/DocumentManager.java:40-42 | Two saves under one id into an empty store leave exactly one entry, holding the later document. |
| Scenarios.SaveTwoNew | src/main/java/org/dmdev/demo/DocumentManager.java:32-38 | Two new documents saved in turn get distinct ids, and both are stored under them. |
| Scenarios.MissingKeyScenario | src/main/java/org/dmdev/demo/DocumentManager.java:83-85 | On the seeded store, `findById` as written throws for an unknown id, where the corrected lookup returns empty. |

## Left out

- UUID generation: the format of version-4 UUIDs and their randomness are not modelled. Draws are a caller-supplied sequence of non-empty strings that never repeat.
- `java.time.Instant`: only its ordering is modelled, as integer seconds. Nanosecond precision, calendars and time zones are left out.
- HashMap iteration order: left to the caller as a parameter. The results are shown to be equal up to order for every enumeration.
- Java reference aliasing: `save` returns and stores the caller's own object, and `setId` mutates it. Later changes the caller makes to that object are therefore visible in the store. Documents here are values, so that sharing is not modelled.
- Null inputs, on each of which the source throws: a null `document` passed to `save`; a document with a null id; a null `request` passed to `search` when the store is non-empty (the request is read only inside the filter lambdas, so over an empty store `search(null)` returns an empty list); a null `id` passed to `findById` (no key is ever null, so `get` returns null and `Optional.of` throws); a null element in `titlePrefixes` or `containsContents` (`startsWith(null)` and `contains(null)` throw); and a stored document whose title, content, author, author id or `created` is null (`search` throws on it once the filter that reads that field is active). A null element in `authorIds` does not throw: `String.equals(null)` is false, so it matches no document. Dafny strings and values cannot be null, so none of these paths is modelled.
- Concurrency: the class is documented as not thread-safe, and the model is sequential.
- Lombok-generated builders, getters and setters: replaced by datatype constructors and fields.
- Test plumbing (Spring context, reflection into the private `storage` field, JUnit/AssertJ): the seeded store is built with the `Seeded` constructor instead.
- `String.startsWith` and `String.contains` work on UTF-16 code units in Java and on Unicode scalar values here. The two agree on text without surrogate pairs, such as the test fixtures.

## Findings

| source | as written | input that shows it | evidently intended | confidence | as-written member | corrected member |
|---|---|---|---|---|---|---|
| src/main/java/org/dmdev/demo/DocumentManager.java:83-85 | `Optional.of(storage.get(id))` throws when id is not a key, because `get` then returns null and `Optional.of` rejects null | `findById("no-such-id")` on the four seeded books | an empty Optional for an unknown id, as the method's "optional document" return states | high, not executed | Documents.DocumentManager.FindByIdAsWritten (exhibited by Scenarios.MissingKeyScenario) | Documents.DocumentManager.FindById |
