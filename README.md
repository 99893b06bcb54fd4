# Masterblog post store, modelled in Dafny

The Masterblog API keeps its blog posts in memory: an ordered list of
records `{id, title, content}` and an id counter that only goes up. It
starts with two seed posts (ids 1 and 2) and the counter at 3. Five
request handlers work on it:

- listing, optionally sorted case-insensitively on `title` or `content`, ascending or descending;
- create, which needs both `title` and `content`;
- partial update by id;
- delete by id;
- search by case-insensitive substrings of title and content.

This project models that store and its five operations, with the HTTP
layer removed, and proves what each operation does to the records and
the counter.

Layout, one module per file:

- `wrappers.dfy` (`Wrappers`): `Option` and `Result`.
- `text.dfy` (`Text`): ASCII lowercasing, the substring test behind Python's `in` on strings, and Python's string order (code points compared lexicographically, a proper prefix first), proved a total order.
- `posts.dfy` (`Posts`): the `Post` record, request bodies with optional fields, sort fields, the error outcomes, and the seed data.
- `sorting.dfy` (`Sorting`): the stable sort behind `sorted(..., key=..., reverse=...)`, written as an insertion sort. It is proved to be a permutation, ordered, and stable. It is also proved to be the only sequence that is both ordered and stable.
- `listing.dfy` (`Listing`): the listing request, which validates `sort` and `direction` and then either returns the store as it is or sorts it.
- `search.dfy` (`Search`): the search request, a loop specified by a filter function.
- `store.dfy` (`PostStore`): the `Store` class (fields `posts` and `nextId`), its invariant, and the create, update and delete methods. Update and delete scan in a loop, as the source does.
- `scenarios.dfy` (`Scenarios`): concrete requests. It includes a session of store calls whose outcomes follow from the method contracts alone.

The store invariant `StoreInvariant(posts, nextId)` says:

- ids strictly increase in store order, and so are unique;
- every id is below the counter.

Every mutating method keeps it. Because of it, a new record always gets an unused id, and a deleted id is never given out again.

Queries take the store's record sequence by value. Listing and search therefore cannot change the store, and a rejected listing leaves the store and the counter as they were.

Two consequences of the code worth spelling out:

- `sorted(..., reverse=True)` keeps tied records in store order, so the descending listing is not the ascending one reversed when there are ties (`Scenarios.DescendingKeepsTies`).
- An empty `sort` parameter (`?sort=`) is rejected. It is not treated as "no sort", because the membership test on line 25 runs before the truthiness test on line 33.

## Model

| member | source | states |
|---|---|---|
| `Listing.ListPosts` | backend/backend_app.py:21-43 | Rejects a sort field other than absent/"title"/"content" and, after that, a direction other than absent/"asc"/"desc" (absent meaning "asc"), with the parameter named; with no sort field returns the records exactly as stored; otherwise returns a permutation of the records, ordered by the lowercased field in the chosen direction, with tied records in store order |
| `Sorting.SortBy` | backend/backend_app.py:37-41 | The definition of the sort (an insertion sort that keeps the length); its properties are the `SortPermutes`, `SortOrdered`, `SortStable` and `SortUnique` rows |
| `Sorting.Insert` | backend/backend_app.py:37-41 | The definition of one insertion step (adds one record); its properties are the `InsertPermutes`, `InsertOrdered` and `InsertWithKey` rows |
| `Sorting.SortPermutes` | backend/backend_app.py:37-41 | The sorted listing holds exactly the stored records, each as often as stored |
| `Sorting.SortOrdered` | backend/backend_app.py:37-41 | Every pair in the sorted listing is in key order: non-decreasing for "asc", non-increasing for "desc" |
| `Sorting.SortKeepsTies` | backend/backend_app.py:37-41 | For one key, the records with that key appear in the sorted listing in their store order |
| `Sorting.SortStable` | backend/backend_app.py:37-41 | Stability for every key at once, in both directions (Python's `sorted` is stable also with `reverse=True`) |
| `Sorting.SortUnique` | backend/backend_app.py:37-41 | Any sequence that is ordered and keeps every tie in store order is exactly the sort's result, so the insertion sort is the stable sort Python computes |
| `Sorting.OrderedTiesDetermine` | backend/backend_app.py:37-41 | Two ordered sequences with the same tied records in the same order are equal |
| `Sorting.InsertPermutes` | backend/backend_app.py:37-41 | Inserting a record adds exactly that record |
| `Sorting.InsertOrdered` | backend/backend_app.py:37-41 | Inserting into an ordered sequence keeps it ordered |
| `Sorting.InsertWithKey` | backend/backend_app.py:37-41 | An inserted record stays ahead of records with the same key that were in the sequence before it |
| `Sorting.InOrderTotal` | backend/backend_app.py:39-40 | Any two records can be placed in one order or the other |
| `Sorting.InOrderTransitive` | backend/backend_app.py:39-40 | The key order of a direction is transitive |
| `Sorting.InOrderBothWays` | backend/backend_app.py:39-40 | Records in order both ways have equal lowercased keys |
| `Posts.Key` | backend/backend_app.py:39 | The sort key holds no upper-case letter and is its own lowercasing, so the letter case of the field cannot change the order |
| `Text.Lower` | backend/backend_app.py:39 | Lowercasing keeps the length, leaves no upper-case letter, and leaves a result whose every character is its own lowercasing |
| `Text.LowerIdempotent` | backend/backend_app.py:39 | `.lower()` is idempotent: lowercasing an already lowercased string changes nothing |
| `Text.StrLe` | backend/backend_app.py:37-41 | The definition of Python's `str` comparison used by `sorted` (a prefix sorts first); its properties are the `StrLeTotal`, `StrLeTransitive` and `StrLeAntisymmetric` rows |
| `Text.StrLeTotal` | backend/backend_app.py:39 | Python's string order compares any two strings |
| `Text.StrLeTransitive` | backend/backend_app.py:39 | Python's string order is transitive |
| `Text.StrLeAntisymmetric` | backend/backend_app.py:39 | Strings ordered both ways are equal |
| `Text.Contains` | backend/backend_app.py:129-134 | The definition of the substring test `query in field`; a contained query is never longer than the field; its meaning is the `ContainsIff` row |
| `Text.ContainsIff` | backend/backend_app.py:129 | The scanning substring test holds exactly when the query occurs at some position of the field |
| `Text.EmptyContained` | backend/backend_app.py:128-136 | The empty query is contained in every string |
| `Search.Matches` | backend/backend_app.py:128-138 | The definition of the two filters and their AND; a matching record's fields are at least as long as the queries; see the `SearchGuardsRedundant` row |
| `Search.SearchResult` | backend/backend_app.py:125-139 | The definition of the search result as a filter of the store (never longer than the store); its meaning is the `SearchMembers`, `SearchConcat`, `SearchSubMultiset` and `SearchWithoutQueries` rows |
| `Search.SearchPosts` | backend/backend_app.py:121-141 | The loop returns, in store order, exactly the records whose lowercased title contains the lowercased title query (if non-empty) and whose lowercased content contains the lowercased content query (if non-empty); absent queries are empty |
| `Search.SearchMembers` | backend/backend_app.py:127-139 | A record is in the search result exactly when it is stored and passes both filters |
| `Search.SearchConcat` | backend/backend_app.py:125-139 | Searching a concatenation gives the results for each part, joined, so store order is kept |
| `Search.SearchSubMultiset` | backend/backend_app.py:125-139 | The result contains no record more often than the store does |
| `Search.SearchWithoutQueries` | backend/backend_app.py:121-141 | With no queries the result is every record, in store order |
| `Search.SearchGuardsRedundant` | backend/backend_app.py:128-138 | Skipping the test for an empty query gives the same answer as running it |
| `PostStore.FindIndex` | backend/backend_app.py:89-90 | Finds the first record with the id, scanning in store order, or reports that no record has it |
| `PostStore.MissingFieldNames` | backend/backend_app.py:64-65 | Names exactly the absent required fields, each once, "title" before "content" |
| `PostStore.Updated` | backend/backend_app.py:91-93 | The updated record keeps its id, and a body with no fields leaves the record unchanged |
| `PostStore.UpdatedIdempotent` | backend/backend_app.py:91-93 | Sending the same update body twice gives the same record as sending it once |
| `PostStore.RemoveAt` | backend/backend_app.py:109 | Drops the one record at the position and keeps the others in order |
| `PostStore.Store.constructor` | backend/backend_app.py:7-12 | The store starts with the two seed records and the counter at 3, satisfying the invariant |
| `PostStore.Store.AddPost` | backend/backend_app.py:63-82 | With a field absent, reports the missing names and changes nothing; otherwise appends a record with the old counter as id and the given title and content, leaves earlier records alone, increments the counter by one, returns the new record, and keeps the invariant |
| `PostStore.Store.UpdatePost` | backend/backend_app.py:86-97 | Unknown id: NotFound and nothing changes; otherwise replaces only the supplied fields of the first record with the id, leaves every other record, the order and the counter alone, and returns the whole updated record (unchanged when no field is supplied) |
| `PostStore.Store.DeletePost` | backend/backend_app.py:100-112 | Unknown id: NotFound and nothing changes; otherwise removes exactly the first record with the id, keeps the others in order and leaves the counter alone |
| `PostStore.IncreasingIdsUnique` | backend/backend_app.py:12 | Ids that increase in store order are pairwise distinct |
| `PostStore.SeedSatisfiesInvariant` | backend/backend_app.py:7-12 | The seed records and counter satisfy the invariant |
| `PostStore.AppendKeepsInvariant` | backend/backend_app.py:69-79 | The counter's id is unused before a create, and the create keeps the invariant |
| `PostStore.UpdateKeepsInvariant` | backend/backend_app.py:92-93 | An update keeps the invariant |
| `PostStore.RemoveKeepsInvariant` | backend/backend_app.py:109 | A delete keeps the invariant |
| `PostStore.RemoveIsWithoutId` | backend/backend_app.py:107-109 | With unique ids, deleting the first match removes exactly the records with that id and keeps the rest in order |
| `PostStore.DeletedIdNotFound` | backend/backend_app.py:107-112 | After a delete, no record has the id, so a later update or delete of it reports NotFound |
| `PostStore.DeletedIdNeverReused` | backend/backend_app.py:70-79 | A create after a delete never gives the new record the deleted id |
| `Scenarios.SortIgnoresCase` | backend/backend_app.py:37-41 | Titles "Banana", "apple" list as "apple", "Banana" ascending and the other way descending |
| `Scenarios.DescendingKeepsTies` | backend/backend_app.py:37-41 | Titles "x", "X" are a tie and list in store order in both directions |
| `Scenarios.InvalidParametersRejected` | backend/backend_app.py:24-30 | "bogus" as field, "up" as direction and "" as field are rejected, and the field is checked first |
| `Scenarios.SearchSeedByTitle` | backend/backend_app.py:121-141 | Searching the seed records for title "first" returns only "First post" |

## Left out

- HTTP transport: Flask routing, reading query parameters and JSON bodies, `jsonify`, status codes, message texts, CORS and `app.run` (backend/backend_app.py:1-5, 144-145). Each outcome is a `Result` value instead; the parameters and request bodies are `Option` values.
- A request body that is not a JSON object. Depending on its value the source either crashes (at line 64, 65, 71 or 92; a `null` body in update crashes at line 92 only when some record has the id, and gets 404 otherwise) or, at create, answers with those of "title" and "content" that Python's `in` does not find in the value. That is both names for `[]` or `"abc"`, only "content" for `["title"]` or `"title"`, and only "title" for `["content"]` or `"xcontent"`. The model takes the body to be a record of optional fields.
- Non-string `title` or `content` values. The source stores whatever JSON value was sent; the model uses strings.
- `Text.Lower`: lowercases ASCII letters only, where Python's `str.lower()` does full Unicode case mapping.
- Object aliasing. Listing and search in the source return the very dictionaries held in the list; the model returns record values.
- Concurrency. The handlers share one global list without locks; the model runs one operation at a time.
- The path converter `<int:post_id>` only accepts non-negative integers. The model accepts any integer id, and ids the routes cannot produce simply report NotFound.
