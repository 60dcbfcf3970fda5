# A verified model of the marketplace, evaluation, user-portal and resume-pipeline logic

This project models, in Dafny, the core logic of four small Python services and proves
properties of it.

- **Marketplace (venta-de-garage-web).**
  - Semantic product search. `build_faiss_index` builds the position-to-id map. `get_products` takes the vector hits through a threshold, re-sorts the fetched rows into rank order, applies the chain of post-filters, then pages the result and drops products that have no seller. When the search text is empty, a SQL path orders rows by popularity instead.
  - Search suggestions.
  - The view and search counters.
  - The featured-products batch, where one cycle is a top-6 selection by searches.
  - The keyword categoriser of the seed script.
  - The GeoNames loader, which reads provinces and localities.
- **Retrieval scorecard (rag_scorecard_project).**
  - The keyword-overlap retriever and its per-id token cache.
  - Question-key extraction.
  - Context precision.
  - The per-line evaluation loop.
- **User portal (user_management_portal).**
  - The email, username and department validators.
  - The `validate_user_data` decorator.
  - The `User` model, with its validating constructor and its `update`.
  - The five CRUD routes, over a table of rows keyed by id.
- **Resume pipeline (resume_parser).**
  - The S3 key and content type of an upload.
  - The API's `upload_file`, `get_status` and `list_resumes`.
  - The DynamoDB-stream worker that runs the AI step.
  - The second Lambda handler, its update-expression builder and the `json.dumps` encoding of its response bodies.

How the source is represented:

- Stateful code keeps its form. The product table, the vector index, the retriever, the `User` row, the user table, the resume store and the processing table are classes whose methods update fields.
- Loops are methods with invariants. Each is proved equal to a specification function, and the properties are then proved about that function.
- Databases, S3, Gemini, SymSpell, the sentence encoder and FAISS are parameters: their answers, including failures, come in as inputs.
- Time is an integer number of seconds; prices are reals.

The worker (`ResumeWorker.ProcessFile`) reads the S3 object under the bare record id. The API (`ResumeApi.ResumeStore.UploadFile`) stores it under `id.ext` and keeps every key of the bucket dotted, while a `uuid4` id holds no dot. So a record uploaded through that API fails in the worker with `NoSuchKey` and is marked `error` (`ResumeWorker.UploadedObjectMissed`, under "## Findings").

The second Lambda's `update_dynamodb_status` writes `result = :result`, but `result` is a DynamoDB reserved word and is not aliased. DynamoDB refuses every update that carries a result (`ResumeStream.StatusRejection`), so as written the handler stops with a 500 at the first selected record and never writes the table (`ResumeStream.Handle`).

`get_products` returns a dictionary with `items`, `total` and `suggestion` (`ProductSearch.Listing`). The route declares `response_model=ProductListResponse`, whose only fields are `items` and `total`. FastAPI serialises the dictionary through that model, so the spelling suggestion the handler computes never reaches the client (`ProductSearch.Served`).

The model follows the code where the code and its documentation differ. Examples:

- `create_user`'s duplicate-email rejection is caught by the catch-all and surfaces as a 500, although the tests expect 400.
- `get_status` turns its own 404 into a 500.
- The email pattern is a narrow subset of the addr-spec of section 3.4.1 of RFC 5322, not the whole of it.

## Model

| member | source | states |
|---|---|---|
| Catalog.Find | venta-de-garage-web/backend/routes.py:429-431 | finds the position of the row with the id, or proves no row has it |
| Catalog.ProductTable.IncrementView | venta-de-garage-web/backend/routes.py:427-434 | an unknown id gives 404 "Producto no encontrado" and changes nothing; otherwise only that row's view counter goes up by one and the new value is returned; a NULL counter raises an uncaught TypeError, so FastAPI answers its generic 500 "Internal Server Error", and nothing changes |
| Catalog.ProductTable.IncrementSearch | venta-de-garage-web/backend/routes.py:436-443 | the same for the search counter |
| SearchIndex.EmbeddedRows | venta-de-garage-web/backend/routes.py:51-60 | the id map and the vectors have the same length; row k holds the vector of the product whose id is entry k; every product with a non-empty embedding is listed |
| SearchIndex.VectorIndex.Rebuild | venta-de-garage-web/backend/routes.py:51-66 | the map lists, in query order, exactly the ids of products with a non-empty embedding; the index exists iff that list is non-empty |
| SearchIndex.CandidateIds | venta-de-garage-web/backend/routes.py:182-186 | the candidates are the mapped ids of the hits with a row of at least 0 and a score above 0.35, one per such hit, in hit order |
| SearchIndex.IndexOf | venta-de-garage-web/backend/routes.py:191 | `ids.index(id)`: the first position of the id, with no earlier occurrence |
| SearchIndex.RankedRowsSpec | venta-de-garage-web/backend/routes.py:190-191 | the re-sorted rows are a permutation of the fetched rows, i.e. exactly the table rows whose id is a candidate (ids without a row disappear), ordered by candidate position |
| ProductSearch.Correct | venta-de-garage-web/backend/routes.py:167-179 | with a top term the search continues with it; the handler's `suggestion` value is set iff the top term differs from the input; without a term nothing changes |
| ProductSearch.ParseConditionSpec | venta-de-garage-web/backend/routes.py:198-208 | any casing of "nuevo" or "usado" selects that condition; every other string gives the 422 error |
| ProductSearch.BucketsPartition | venta-de-garage-web/backend/routes.py:227-235 | "30+" implies "7+"; "7+", "1" and "0" split every expiry time into disjoint buckets |
| ProductSearch.FirstNamed | venta-de-garage-web/backend/routes.py:280-286 | the first province (or locality) with the name, with none before it; none when no row has it |
| ProductSearch.ResolveLocation | venta-de-garage-web/backend/routes.py:278-291 | a province of that name wins over a locality of that name; a name that is neither, or no name, filters nothing |
| ProductSearch.LocalityById | venta-de-garage-web/backend/routes.py:283-288 | the locality row a product joins to, or none |
| ProductSearch.MorePopularTotal | venta-de-garage-web/backend/routes.py:162 | ordering by searches, views and id, all descending, with NULL lowest, is a total preorder |
| ProductSearch.KeepWithSeller | venta-de-garage-web/backend/routes.py:247-256 | the loop keeps exactly the products that have a seller, in order |
| ProductSearch.PageOf | venta-de-garage-web/backend/routes.py:243-250 | for any page and page size, the page loop equals the path's window (Python slice or SQL offset and limit) with seller-less rows dropped |
| ProductSearch.FilterByListing | venta-de-garage-web/backend/routes.py:196-226 | the category, condition and price comprehensions equal one filter by the first four criteria |
| ProductSearch.FilterByStatus | venta-de-garage-web/backend/routes.py:227-242 | the bucket, active, featured and seller comprehensions equal one filter by the last four criteria |
| ProductSearch.PostFilters | venta-de-garage-web/backend/routes.py:196-242 | the whole comprehension chain equals one filter by every criterion |
| ProductSearch.SearchPage | venta-de-garage-web/backend/routes.py:167-259 | for any page and page size, the semantic path returns the specified value, asking the index about the corrected text and slicing as Python does |
| ProductSearch.PopularPage | venta-de-garage-web/backend/routes.py:261-332 | for any page and page size, the empty-search path returns the specified value, paging as SQLite's OFFSET and LIMIT do |
| ProductSearch.GetProducts | venta-de-garage-web/backend/routes.py:147-332 | for any parameters, the handler returns the specified value, the condition's 422 included |
| ProductSearch.Served | venta-de-garage-web/backend/routes.py:29-31 | the body sent keeps the handler's items and total |
| ProductSearch.SuggestionNotServed | venta-de-garage-web/backend/routes.py:146-332 | return values that differ only in `suggestion` are served alike: the client never sees the suggestion |
| ProductSearch.SemanticMatchesSpec | venta-de-garage-web/backend/routes.py:182-242 | the semantic result holds exactly the table rows whose id is a qualifying candidate and that meet every criterion, in candidate rank order |
| ProductSearch.SearchRunsOnCorrection | venta-de-garage-web/backend/routes.py:167-186 | with a top term the index is asked about that term, not the typed text, and the total counts the matches of that answer; the returned suggestion value is the top term iff it differs from the input |
| ProductSearch.NoIndexNoResults | venta-de-garage-web/backend/routes.py:193-195 | with no index or an empty id map, a search returns no item and total 0 |
| ProductSearch.LocationIgnoredBySearch | venta-de-garage-web/backend/routes.py:209-222 | the location parameter does not change a search's response |
| ProductSearch.PopularMatchesSpec | venta-de-garage-web/backend/routes.py:261-318 | the empty-search result is a permutation of the rows meeting every criterion and the location scope, sorted most popular first |
| ProductSearch.LocationOnlyInPopular | venta-de-garage-web/backend/routes.py:261-317 | without a location, both paths select by the same criteria |
| ProductSearch.PageItemsSpec | venta-de-garage-web/backend/routes.py:243-250 | for page and size at least 1 both paths take positions (page-1)*size to page*size-1; a page has at most a non-negative `size` items, in window order, exactly the window's rows that have a seller |
| ProductSearch.PagesOutOfRange | venta-de-garage-web/backend/routes.py:243-319 | page 0 is empty on the semantic path but the first page on the SQL path; a negative size returns every row from the offset in SQL and drops that many rows from the end of page 1 on the semantic path |
| ProductSearch.TotalIgnoresPaging | venta-de-garage-web/backend/routes.py:243 | `total` does not depend on the page or the page size |
| ProductSearch.FiftyInPagesOfFifteen | venta-de-garage-web/backend/routes.py:244-247 | with 50 results in pages of 15, on either path page 4 is cut from the last 5 and page 5 is empty |
| Seqs.PySliceWindow | venta-de-garage-web/backend/routes.py:243-246 | a Python slice with non-negative bounds is the window between them, and `s[:k]` is the slice from 0 |
| Seqs.PySliceBound | venta-de-garage-web/backend/routes.py:243-246 | unless a non-negative start meets a negative end, a slice is at most as long as its bounds are apart, and empty when they do not increase |
| SearchSuggestions.AppendFresh | venta-de-garage-web/backend/routes.py:355-380 | appending a hint whose key is unseen keeps the no-repeat invariant |
| SearchSuggestions.StepConsistent | venta-de-garage-web/backend/routes.py:352-380 | one row adds at most three hints, each matching the normalised query and with an unseen key |
| SearchSuggestions.GatherSpec | venta-de-garage-web/backend/routes.py:352-382 | the loop never repeats a product key, a locality or a seller name, and stops with at most 10 hints |
| SearchSuggestions.CollectHints | venta-de-garage-web/backend/routes.py:348-382 | the loop with its seen-sets computes the specified list |
| SearchSuggestions.Spelling | venta-de-garage-web/backend/routes.py:384-389 | the spelling suggestion is set iff SymSpell's top term differs from the query |
| SearchSuggestions.ActiveRows | venta-de-garage-web/backend/routes.py:347 | exactly the rows still on sale |
| SearchSuggestions.GetSearchSuggestions | venta-de-garage-web/backend/routes.py:335-390 | a query shorter than 2 gives the empty answer; otherwise the hints of the active rows and the spelling suggestion |
| SearchSuggestions.SuggestionsBounded | venta-de-garage-web/backend/routes.py:340-382 | at most 10 suggestions, none repeated |
| StableSort.SortSorted | venta-de-garage-web/backend/featured_batch.py:16 | `sorted(..., reverse=True)` gives a descending order |
| StableSort.SortStable | venta-de-garage-web/backend/featured_batch.py:16 | tied elements keep their input order |
| FeaturedRanker.FlagActive | venta-de-garage-web/backend/featured_batch.py:20-24 | each non-expired row gets the flag of top-6 membership, and the flips are recorded in query order |
| FeaturedRanker.ClearExpired | venta-de-garage-web/backend/featured_batch.py:26-29 | each expired featured row is unflagged and recorded |
| FeaturedRanker.RunCycle | venta-de-garage-web/backend/featured_batch.py:11-30 | on commit the table becomes the cycle's relabelling and the changes are returned; a failed commit changes nothing |
| FeaturedRanker.RankingStable | venta-de-garage-web/backend/featured_batch.py:14-16 | the ranking is a permutation of the non-expired products, by searches descending (None as 0), ties in query order |
| FeaturedRanker.TopIdsBound | venta-de-garage-web/backend/featured_batch.py:18 | at most six ids are selected |
| FeaturedRanker.SameIdsAfterCycle | venta-de-garage-web/backend/featured_batch.py:20-29 | a cycle keeps the ids unique |
| FeaturedRanker.CycleSpec | venta-de-garage-web/backend/featured_batch.py:14-29 | only flags change; a non-expired product is featured iff it is in the top six; no expired product is featured; at most six are featured |
| FeaturedRanker.ActiveChangesFrom | venta-de-garage-web/backend/featured_batch.py:20-23 | first-loop entries belong to non-expired rows, carry old != new, and name each id once |
| FeaturedRanker.ExpiredChangesFrom | venta-de-garage-web/backend/featured_batch.py:26-28 | second-loop entries belong to expired rows, are (id, True, False), and name each id once |
| FeaturedRanker.FlipsRecorded | venta-de-garage-web/backend/featured_batch.py:20-29 | every flipped row appears in the changes |
| FeaturedRanker.ChangesExact | venta-de-garage-web/backend/featured_batch.py:19-29 | `changes` holds exactly one entry per flipped product, with old != new |
| FeaturedRanker.EntriesIgnoreFlags | venta-de-garage-web/backend/featured_batch.py:14-16 | the ranking does not depend on the flags the cycle writes |
| FeaturedRanker.CycleIdempotent | venta-de-garage-web/backend/featured_batch.py:11-34 | a second cycle at the same time leaves the table unchanged and records no change |
| FeaturedRanker.NoActiveChanges | venta-de-garage-web/backend/featured_batch.py:20-24 | rows already flagged by rank give no first-loop change |
| FeaturedRanker.NoExpiredChanges | venta-de-garage-web/backend/featured_batch.py:26-29 | with no expired featured row there is no second-loop change |
| Categorizer.Normalize | venta-de-garage-web/backend/seed_data.py:158-159 | the result holds only kept lower-case characters and is no longer than the input |
| Categorizer.NormalizeIdempotent | venta-de-garage-web/backend/seed_data.py:158-159 | normalising twice is normalising once |
| Categorizer.NormalizeFixes | venta-de-garage-web/backend/seed_data.py:158-159 | a string of kept lower-case characters is its own normal form |
| Categorizer.HasKeyword | venta-de-garage-web/backend/seed_data.py:164-167 | the inner loop with its break finds a keyword iff one occurs in the text |
| Categorizer.Categorize | venta-de-garage-web/backend/seed_data.py:160-170 | the nested loops compute the specified categories of the normalised title and description |
| Categorizer.MatchingAppend | venta-de-garage-web/backend/seed_data.py:163-167 | one more table entry adds its category iff a keyword of it occurs |
| Categorizer.MatchingSpec | venta-de-garage-web/backend/seed_data.py:163-167 | a category is found iff one of its keywords occurs, in table order |
| Categorizer.CategoriesSpec | venta-de-garage-web/backend/seed_data.py:160-170 | one or two categories; exactly ["Otros"] iff no keyword occurs; otherwise the first two matching categories |
| Categorizer.CategoriesDistinct | venta-de-garage-web/backend/seed_data.py:147-170 | no category is listed twice |
| Categorizer.NamesDistinct | venta-de-garage-web/backend/seed_data.py:147-157 | the keyword table names each category once |
| Geonames.TrailingEmptyFieldsDropped | venta-de-garage-web/backend/load_geonames_locations.py:64-67 | after `strip()` the last field of a non-blank line is never empty, so trailing empty fields do not count |
| Geonames.ProvinceCode | venta-de-garage-web/backend/load_geonames_locations.py:52-53 | the code is the text after "AR." up to the next dot |
| Geonames.ProvinceRows | venta-de-garage-web/backend/load_geonames_locations.py:54-57 | one province row per province line, in order |
| Geonames.ProvinceMapKeys | venta-de-garage-web/backend/load_geonames_locations.py:55-58 | a code is mapped iff some province line has it |
| Geonames.ProvinceMapLast | venta-de-garage-web/backend/load_geonames_locations.py:55-58 | a mapped code points at the row of the last line with that code |
| Geonames.LocalityEntrySpec | venta-de-garage-web/backend/load_geonames_locations.py:64-79 | a line yields a locality iff it has at least 11 fields and field 10 is a loaded code; the locality joins that province, and empty coordinates are None |
| Geonames.Localities | venta-de-garage-web/backend/load_geonames_locations.py:63-80 | every locality is attached to a loaded province |
| Geonames.FindCountry | venta-de-garage-web/backend/load_geonames_locations.py:41 | the first country with the code, or none |
| Geonames.LoadProvinces | venta-de-garage-web/backend/load_geonames_locations.py:47-58 | the province loop creates the specified rows and map, or stops at the first line with no second field |
| Geonames.ProvinceEntriesStop | venta-de-garage-web/backend/load_geonames_locations.py:50-54 | an error on a line is the error of the whole file |
| Geonames.LoadLocalities | venta-de-garage-web/backend/load_geonames_locations.py:61-83 | the locality loop creates the specified rows, and `loc_count` equals their number |
| Geonames.GeoStore.Load | venta-de-garage-web/backend/load_geonames_locations.py:34-85 | the tables grow by the country (if absent), the provinces and the localities |
| Geonames.CountryCreatedOnlyIfAbsent | venta-de-garage-web/backend/load_geonames_locations.py:41-45 | after a load "AR" exists, and it was created only if absent |
| Geonames.LocalitiesAttached | venta-de-garage-web/backend/load_geonames_locations.py:72-76 | every loaded locality points at a province row created by this load |
| KeywordRetriever.WordsSpec | rag_scorecard_project/eval/evaluate.py:62-66 | the words are non-empty runs of `\w` characters that together hold every word character of the text, in order |
| KeywordRetriever.WordsFromSplit | rag_scorecard_project/eval/evaluate.py:62-66 | a non-word character separates the words of what comes before and after it |
| KeywordRetriever.LowerSetSpec | rag_scorecard_project/eval/evaluate.py:66 | the tokens are exactly the lower-cased words |
| KeywordRetriever.LowerSetConcat | rag_scorecard_project/eval/evaluate.py:66 | the tokens of two word lists together are the union of their tokens |
| KeywordRetriever.RepeatedWordsCountOnce | rag_scorecard_project/eval/evaluate.py:64-66 | a repeated text has the same tokens |
| KeywordRetriever.Scored | rag_scorecard_project/eval/evaluate.py:79-81 | one score per node |
| KeywordRetriever.ByScoreTotal | rag_scorecard_project/eval/evaluate.py:82 | ordering by score is a total preorder |
| KeywordRetriever.NodesOf | rag_scorecard_project/eval/evaluate.py:83 | the nodes of the scored pairs, in order |
| KeywordRetriever.Retriever.NodeTokens | rag_scorecard_project/eval/evaluate.py:72-75 | tokenises a node the first time its id is seen and caches the tokens; afterwards it answers from the cache |
| KeywordRetriever.Retriever.Retrieve | rag_scorecard_project/eval/evaluate.py:77-83 | returns the specified top nodes; the cache grows by the ids asked for |
| KeywordRetriever.ScoredStep | rag_scorecard_project/eval/evaluate.py:79-81 | scoring one more node appends its score |
| KeywordRetriever.RetrievedLength | rag_scorecard_project/eval/evaluate.py:83 | min(k, number of nodes) for k >= 0, with Python's slice for negative k |
| KeywordRetriever.RetrievedRanked | rag_scorecard_project/eval/evaluate.py:79-83 | the ranking is sorted by descending score, with ties in corpus order |
| KeywordRetriever.ScoredFirstAt | rag_scorecard_project/eval/evaluate.py:72-81 | whatever the ids, the i-th node's score is the number of query tokens shared with the first node carrying its id, once every cached id holds its first owner's tokens |
| KeywordRetriever.ScoresAreFirstOverlaps | rag_scorecard_project/eval/evaluate.py:72-81 | the same for every node of the corpus at once |
| KeywordRetriever.ScoresAreOverlaps | rag_scorecard_project/eval/evaluate.py:78-80 | with distinct ids every node is its own first owner, so its score is the number of query tokens it shares |
| KeywordRetriever.CacheStaysFirst | rag_scorecard_project/eval/evaluate.py:72-81 | a retrieval keeps every cached id of a corpus node holding the tokens of the first node with that id |
| KeywordRetriever.CacheAfterKeys | rag_scorecard_project/eval/evaluate.py:72-75 | the cache grows by exactly the ids asked for, and old entries never change |
| KeywordRetriever.SharedIdScoresFirstText | rag_scorecard_project/eval/evaluate.py:72-75 | a second node with an already cached id is scored with the first node's tokens |
| KeywordRetriever.ExtractQuestionSpec | rag_scorecard_project/eval/evaluate.py:104-108 | the value of the first key present among user_input, question and query; a KeyError iff none is present |
| KeywordRetriever.Hits | rag_scorecard_project/eval/evaluate.py:196 | at most the number of contexts |
| KeywordRetriever.HitsCount | rag_scorecard_project/eval/evaluate.py:196 | hits counts the contexts that share a token with the question |
| KeywordRetriever.PrecisionBounds | rag_scorecard_project/eval/evaluate.py:196-197 | precision is in [0, 1]; it is 0 iff there is no context or no hit, and 1 iff every context hits |
| KeywordRetriever.NonBlank | rag_scorecard_project/eval/evaluate.py:187-190 | no more trimmed lines than input lines |
| KeywordRetriever.NonBlankGrows | rag_scorecard_project/eval/evaluate.py:187-190 | the non-blank lines of a prefix are a prefix of the non-blank lines |
| KeywordRetriever.NonBlankAt | rag_scorecard_project/eval/evaluate.py:187-190 | a non-blank line sits right after the non-blank lines before it |
| KeywordRetriever.Texts | rag_scorecard_project/eval/evaluate.py:183 | the texts of the nodes, in order |
| KeywordRetriever.CachedFirstAnswersAlike | rag_scorecard_project/eval/evaluate.py:176-183 | whatever the ids, a cache holding first owners' tokens answers as an empty one does, so later questions see the retriever as if fresh |
| KeywordRetriever.Answer | rag_scorecard_project/eval/evaluate.py:188-205 | a line fails iff its JSON does not decode, no question key is present or the question is not a string, with that error; otherwise its contexts are the texts of the nodes a fresh retriever ranks first for the question, whatever the ids, with their precision, and the cache keeps holding first owners' tokens |
| KeywordRetriever.AnsweredStep | rag_scorecard_project/eval/evaluate.py:187-205 | one more line keeps one answer per non-blank line |
| KeywordRetriever.Evaluate | rag_scorecard_project/eval/evaluate.py:176-205 | one output per non-blank line, in order, each with the contexts a fresh retriever returns for its question, or an error at the first failing line after the outputs before it |
| UserValidation.EmailShapeIff | user_management_portal/backend/app/utils.py:37-38 | the deterministic reading of the email pattern matches iff some cut of the string matches it |
| UserValidation.EmailSpec | user_management_portal/backend/app/utils.py:35-43 | an email is accepted iff it matches the pattern, optionally followed by one final newline |
| UserValidation.EmailOneAt | user_management_portal/backend/app/utils.py:37 | an accepted email has exactly one `@`, with something before it |
| UserValidation.EmailAccepted | user_management_portal/backend/app/utils.py:30-31 | "user@example.com" is accepted |
| UserValidation.EmailRejected | user_management_portal/backend/app/utils.py:32-33 | "invalid-email" is rejected |
| UserValidation.UsernameSpec | user_management_portal/backend/app/utils.py:61-72 | accepted iff 6 to 20 characters, all ASCII letters or digits apart from one final newline |
| UserValidation.UsernameExamples | user_management_portal/backend/app/utils.py:55-59 | "validUser123" is accepted and "short" is not |
| UserValidation.NonStringsRejected | user_management_portal/backend/app/utils.py:35-96 | a value that is not a string is rejected by all three validators rather than raising |
| UserValidation.RejectedBeforeHandler | user_management_portal/backend/app/utils.py:119-141 | a failing truthy field gives a 400 whatever the handler does |
| UserValidation.ValidationOrder | user_management_portal/backend/app/utils.py:119-141 | email is checked first, then username, then department |
| UserValidation.DecoratorOutcome | user_management_portal/backend/app/utils.py:112-151 | success iff every checked field passes and the handler succeeds, returning its value unchanged; an HTTP error passes through; any other error becomes 500 |
| UserValidation.FalsyFieldsSkipped | user_management_portal/backend/app/utils.py:115-141 | empty or missing fields are never rejected |
| UserModel.CheckFieldsSpec | user_management_portal/backend/app/models/user.py:53-61 | the guard passes iff every supplied field is valid; the first invalid field, email first, names the error |
| UserModel.StricterThanDecorator | user_management_portal/backend/app/models/user.py:53-61 | what the guard accepts the decorator accepts, but an empty email passes the decorator and fails the guard |
| UserModel.ValidMerge | user_management_portal/backend/app/models/user.py:141-142 | assigning valid attributes keeps a valid user valid |
| UserModel.User.New | user_management_portal/backend/app/models/user.py:44-70 | ValueError iff the guard fails; then a keyword that is not a column raises TypeError naming it; otherwise a user holding exactly the supplied attributes |
| UserModel.User.Create | user_management_portal/backend/app/models/user.py:81-112 | success iff the fields are valid, every keyword is a column and the commit succeeds; the decorator's 400 comes first; a constructor ValueError or TypeError or a failed commit becomes 500 |
| UserModel.User.Update | user_management_portal/backend/app/models/user.py:114-155 | an invalid field changes nothing and raises ValueError; a failed commit rolls back; otherwise every supplied key is assigned and validity is kept |
| UserModel.UpdateChangesOnlySupplied | user_management_portal/backend/app/models/user.py:141-142 | an update sets each supplied key and leaves every other attribute unchanged |
| UserRoutes.AssignPatched | user_management_portal/backend/app/routes/users.py:162-164 | one more setattr extends the patch by that field |
| UserRoutes.PatchAlgebra | user_management_portal/backend/app/routes/users.py:162-164 | an empty request changes nothing, a request applied twice is applied once, and two requests compose |
| UserRoutes.NewIdFresh | user_management_portal/backend/app/routes/users.py:90-92 | the new row's id is larger than every id in use, so it is fresh and the id order is kept |
| UserRoutes.LargestIdReused | user_management_portal/backend/app/routes/users.py:90-92 | deleting the largest id and inserting again reuses it |
| UserRoutes.Remove | user_management_portal/backend/app/routes/users.py:207-208 | the id order without the deleted id |
| UserRoutes.RemoveOrdered | user_management_portal/backend/app/routes/users.py:207-208 | removing an id keeps the remaining ids increasing |
| UserRoutes.IntegrityWithout | user_management_portal/backend/app/routes/users.py:207-208 | a delete keeps the NOT NULL and unique constraints |
| UserRoutes.InsertKeepsIntegrity | user_management_portal/backend/app/routes/users.py:73-91 | a new row with an unused email and username keeps the constraints |
| UserRoutes.ViewsOf | user_management_portal/backend/app/routes/users.py:46-48 | the response of each listed row, in order |
| Seqs.OffsetStart | user_management_portal/backend/app/routes/users.py:46 | SQLite's offset, a negative one counting as none, stays within the table |
| Seqs.LimitEnd | user_management_portal/backend/app/routes/users.py:46 | SQLite's limit, a negative one meaning no bound, stays within the table |
| UserRoutes.UserTable.ListUsers | user_management_portal/backend/app/routes/users.py:28-54 | the users from position `skip` on, at most `limit` of them, in id order |
| UserRoutes.UserTable.GetUser | user_management_portal/backend/app/routes/users.py:100-131 | 404 iff the id is unknown; otherwise that user's response |
| UserRoutes.UserTable.CreateUser | user_management_portal/backend/app/routes/users.py:56-98 | a taken email (checked first), a taken username or an invalid field gives 500 with the caught error and inserts nothing; otherwise the row is stored under a fresh id with the password's hash, never the password |
| UserRoutes.UserTable.UpdateUser | user_management_portal/backend/app/routes/users.py:133-185 | 404 for an unknown id; otherwise only the explicitly set fields change, and a constraint violation rolls back with 400 |
| UserRoutes.UserTable.DeleteUser | user_management_portal/backend/app/routes/users.py:187-218 | 404 for an unknown id; otherwise the row is gone, so a later get answers 404 |
| Http.DescribedStatus | user_management_portal/backend/app/routes/users.py:95-98 | the text of a caught HTTP error starts with its three-digit status and ": " |
| S3Keys.FinalStart | resume_parser/challenge-fernando/s3_service.py:52 | the final path component holds no slash |
| S3Keys.SplitExt | resume_parser/challenge-fernando/s3_service.py:52 | root and extension put back together give the path |
| S3Keys.SplitExtSpec | resume_parser/challenge-fernando/s3_service.py:52 | the extension is empty or starts with a dot and holds no further dot or slash; it is non-empty iff the final component has a dot with a non-dot before it |
| S3Keys.SplitExtExamples | resume_parser/challenge-fernando/s3_service.py:52 | ".bashrc" has no extension; "cv.tar.gz" has ".gz" |
| S3Keys.ContentTypeIgnoresCase | resume_parser/challenge-fernando/s3_service.py:115 | the lookup ignores case |
| S3Keys.ContentTypeDefault | resume_parser/challenge-fernando/s3_service.py:99-115 | one of four types; application/octet-stream iff the lower-cased extension is not a known one |
| S3Keys.ContentTypeExamples | resume_parser/challenge-fernando/s3_service.py:109-115 | ".PDF" is application/pdf, ".JpEg" is image/jpeg, and no extension is application/octet-stream |
| S3Keys.KeyKeepsExtension | resume_parser/challenge-fernando/s3_service.py:52-53 | splitting the key again yields the file name's extension, so the same content type |
| S3Keys.UploadReturnsWrittenKey | resume_parser/challenge-fernando/s3_service.py:50-68 | the returned key is the key written, under incoming/ and the processing id; a failed write returns its error |
| ResumeApi.WithStatus | resume_parser/lambda-resume-parser/api-gateway/main.py:168-173 | a status update upserts that record's status and leaves the others unchanged |
| ResumeApi.FileExtensionSpec | resume_parser/lambda-resume-parser/api-gateway/main.py:138 | the extension is the text after the last dot, lower-cased |
| ResumeApi.FileExtensionNoDot | resume_parser/lambda-resume-parser/api-gateway/main.py:138 | a name with no dot is its own extension |
| ResumeApi.AcceptedBareExtension | resume_parser/lambda-resume-parser/api-gateway/main.py:138-140 | a file named "pdf" is accepted |
| ResumeApi.AcceptedUpperCase | resume_parser/lambda-resume-parser/api-gateway/main.py:138-140 | "CV.PDF" is accepted |
| ResumeApi.RejectedDoubleExtension | resume_parser/lambda-resume-parser/api-gateway/main.py:138-145 | "cv.pdf.exe" is rejected |
| ResumeApi.ResumeStore.UploadFile | resume_parser/lambda-resume-parser/api-gateway/main.py:114-199 | no name or a bad extension gives 400 and writes nothing; success writes upload_in_progress then upload_finished and stores `id.ext`; a ClientError marks the record error and gives 500; any other error gives 500 and leaves the status; every key of the bucket stays dotted |
| ResumeApi.StoreKeepsDotted | resume_parser/lambda-resume-parser/api-gateway/main.py:159-163 | storing under `f"{file_id}.{file_extension}"` keeps every key of the bucket holding a dot |
| ResumeApi.UuidNotUploadKey | resume_parser/lambda-resume-parser/api-gateway/main.py:137 | the `str(uuid.uuid4())` id holds no dot, so it is never an upload key |
| ResumeApi.ResumeStore.GetStatus | resume_parser/lambda-resume-parser/api-gateway/main.py:201-240 | the record iff it exists; a missing record gives 500 "Unexpected error: 404: File not found"; every error is a 500 |
| ResumeApi.NotFoundDetail | resume_parser/lambda-resume-parser/api-gateway/main.py:221-240 | the caught 404 is described as `404: File not found`, so a missing record reads `Unexpected error: 404: File not found` |
| ResumeApi.ScanRequest | resume_parser/lambda-resume-parser/api-gateway/main.py:264-272 | the status filter is present iff a non-empty status is given |
| ResumeApi.ListResumes | resume_parser/lambda-resume-parser/api-gateway/main.py:275-289 | at most `limit` items, a prefix of the scanned pages, of length min(total, limit) |
| ResumeApi.StatusShadowsModule | resume_parser/lambda-resume-parser/api-gateway/main.py:243-302 | as written, every scan failure raises an AttributeError instead of the 500 |
| ResumeApi.ScanFailureSpec | resume_parser/lambda-resume-parser/api-gateway/main.py:291-302 | corrected: status 500; the detail starts "DynamoDB error: " iff the failure is a ClientError, and ends with its message |
| ResumeWorker.TriggersSpec | resume_parser/lambda-resume-parser/lambda/lambda_function.py:212-221 | processed iff MODIFY and the status changes into upload_finished; a MODIFY without its NewImage or OldImage raises KeyError for that image whatever its status; a missing status raises KeyError |
| ResumeWorker.FirstTriggered | resume_parser/lambda-resume-parser/lambda/lambda_function.py:209-223 | the first record that triggers, with none before it (or the KeyError of an earlier one) |
| ResumeWorker.FirstTriggeredAt | resume_parser/lambda-resume-parser/lambda/lambda_function.py:209-223 | once every earlier record is skipped, record i decides: its KeyError, itself, or (past the end) no record |
| ResumeWorker.ExtractPdfText | resume_parser/lambda-resume-parser/lambda/lambda_function.py:67-74 | the text is the page texts concatenated, its length the sum of theirs |
| ResumeWorker.ConcatLength | resume_parser/lambda-resume-parser/lambda/lambda_function.py:70-72 | the concatenation's length is the sum of the page lengths |
| ResumeWorker.ImagesYieldPlaceholder | resume_parser/lambda-resume-parser/lambda/lambda_function.py:79-97 | every readable non-PDF file yields "Sample resume text" |
| ResumeWorker.ImagesAnsweredByContent | resume_parser/lambda-resume-parser/lambda/lambda_function.py:160-170 | Gemini is sent the file's bytes, so two readable images with different bytes can get different replies |
| ResumeWorker.FirstMissing | resume_parser/lambda-resume-parser/lambda/lambda_function.py:179-182 | none iff every required field is present; otherwise a missing one |
| ResumeWorker.CheckRequired | resume_parser/lambda-resume-parser/lambda/lambda_function.py:179-182 | the loop finds the first missing required field |
| ResumeWorker.ProcessResume | resume_parser/lambda-resume-parser/lambda/lambda_function.py:99-189 | an extraction error, a missing API key (before the model is called), a model error or a missing field fails; the model is asked with the extracted text, the file's bytes and its MIME type; a result has every required field; the reply is exactly the one the file's type, body, key and model determine |
| ResumeWorker.ProcessFile | resume_parser/lambda-resume-parser/lambda/lambda_function.py:223-282 | the outcome, the new records and the status updates written are exactly those the file id, the starting records and objects and the outcomes of the S3, DynamoDB and model calls determine; objects never change |
| ResumeWorker.FileEffectProcessed | resume_parser/lambda-resume-parser/lambda/lambda_function.py:223-268 | processed iff the ai_thinking update succeeds, the object exists and is read, process_resume succeeds and the completed update succeeds; then the record is completed with ai_response equal to process_resume's result, holding every required field, after exactly the ai_thinking and completed updates |
| ResumeWorker.FileEffectFailed | resume_parser/lambda-resume-parser/lambda/lambda_function.py:270-282 | a failure re-raises the message of the step that failed and marks the record error with "Error processing file <id>: <message>" as the last update; if that update fails, its own error is re-raised and the record stays as the try block left it, unchanged when the ai_thinking update failed too; a missing object re-raises NoSuchKey after ai_thinking and error |
| ResumeWorker.FileEffectFrame | resume_parser/lambda-resume-parser/lambda/lambda_function.py:223-282 | only the processed record changes; it is added when absent |
| ResumeWorker.UploadedObjectMissed | resume_parser/lambda-resume-parser/lambda/lambda_function.py:236-241 | with every key dotted and a uuid id, the read fails with NoSuchKey, the record is marked error with that message and NoSuchKey is re-raised |
| ResumeWorker.UploadKeyRead | resume_parser/lambda-resume-parser/lambda/lambda_function.py:236-258 | read under the key the upload wrote, the object is found and the record completes iff process_resume and the completed update succeed, with the reply as result |
| ResumeWorker.MarkFailed | resume_parser/lambda-resume-parser/lambda/lambda_function.py:273-281 | the record (upserted if absent) gets status error and the message; no other record and no object changes; the log gains one error entry |
| ResumeWorker.HandleStream | resume_parser/lambda-resume-parser/lambda/lambda_function.py:191-287 | only the first triggering record is processed, with exactly ProcessFile's outcome and state for its id; none gives None and changes nothing; a KeyError before it (a missing image or status) is re-raised |
| ResumeStream.RenderBase | resume_parser/challenge-fernando/lambda_function.py:68 | the base expression |
| ResumeStream.RenderWithResult | resume_parser/challenge-fernando/lambda_function.py:77-78 | with a result, ", result = :result" is appended |
| ResumeStream.StatusUpdate | resume_parser/challenge-fernando/lambda_function.py:48-92 | keyed by processing_id; the expression is the base plus the result clause iff a result is given; DynamoDB refuses it iff it carries the un-aliased `result`; the clauses set exactly status, updated_at and result |
| ResumeStream.Rejection | resume_parser/challenge-fernando/lambda_function.py:68-86 | DynamoDB accepts an expression iff every target is a defined `#` alias or a name that is not reserved; the first refused clause names the ValidationException |
| ResumeStream.StatusRejection | resume_parser/challenge-fernando/lambda_function.py:68-79 | as written, the expression is refused iff it carries a result, for the reserved keyword `result` |
| ResumeStream.AliasedUpdateAccepted | resume_parser/challenge-fernando/lambda_function.py:68-86 | with `result` aliased as `#result`, DynamoDB accepts the update and it sets status, updated_at and result, keeping the rest |
| ResumeStream.UpdateFailure | resume_parser/challenge-fernando/lambda_function.py:81-92 | as written every update with a result raises; with the alias an update raises exactly when the service fails |
| ResumeStream.ApplyStatusClauses | resume_parser/challenge-fernando/lambda_function.py:68-86 | applying the clauses is the specified item update |
| ResumeStream.RecordWriteSpec | resume_parser/challenge-fernando/lambda_function.py:130-153 | ai_finished with the result iff the read, the call and the write succeed; otherwise error with {"error": message} |
| ResumeStream.AsWrittenNeverFinishes | resume_parser/challenge-fernando/lambda_function.py:135 | as written, every readable record ends in error with the TypeError text |
| ResumeStream.AsWrittenOutcome | resume_parser/challenge-fernando/lambda_function.py:130-153 | as written a selected record's outcome is error and its error update raises, the service's error or the refusal of `result` |
| ResumeStream.CorrectedFinishes | resume_parser/challenge-fernando/lambda_function.py:130-143 | with the MIME type passed and `result` aliased, an uploaded record ends ai_finished iff the read, the service update and Gemini (asked with the upload's content type) succeed, and then holds Gemini's reply |
| ResumeStream.FirstMissingVar | resume_parser/challenge-fernando/lambda_function.py:107-109 | none iff all three variables are set; otherwise a missing one |
| ResumeStream.SelectedSpec | resume_parser/challenge-fernando/lambda_function.py:114-122 | processed iff INSERT with status ai_ready_to_process and both processing_id and s3_key present; other events are skipped; a malformed INSERT raises, one without a NewImage with KeyError for it |
| ResumeStream.ProcessingTable.Write | resume_parser/challenge-fernando/lambda_function.py:81-86 | as written the update is refused and nothing changes; aliased, an upsert of status, updated_at and result |
| ResumeStream.ProcessRecord | resume_parser/challenge-fernando/lambda_function.py:130-153 | the record's item takes its outcome; if the error update itself raises (as written it always does), processing stops with the table unchanged |
| ResumeStream.HandledStep | resume_parser/challenge-fernando/lambda_function.py:112-153 | one more record keeps the loop invariant |
| ResumeStream.HandledPrefix | resume_parser/challenge-fernando/lambda_function.py:112-153 | handled items only grow and untouched ones keep their value |
| ResumeStream.Handle | resume_parser/challenge-fernando/lambda_function.py:94-165 | a missing variable gives 500 with the JSON-encoded "Error: 'NAME'" and processes nothing; otherwise 200 with the JSON-encoded "Processing completed" once every selected record holds its outcome, failures isolated per record; as written the table is never written and a 200 means no record was selected |
| ResumeStream.CompletedBody | resume_parser/challenge-fernando/lambda_function.py:155-158 | the 200 body is "Processing completed" in double quotes |
| ResumeStream.MissingVarBody | resume_parser/challenge-fernando/lambda_function.py:160-165 | the 500 body for a missing variable is Error: 'NAME' in double quotes |
| JsonText.Hex4OfUnit | resume_parser/challenge-fernando/lambda_function.py:158 | the four hex digits of a `\uXXXX` escape read back as the code unit |
| JsonText.UnescapeChar | resume_parser/challenge-fernando/lambda_function.py:158 | every character, as `json.dumps` writes it (short escape, itself, one unit escape or a surrogate pair), reads back as that character |
| JsonText.UnescapeAll | resume_parser/challenge-fernando/lambda_function.py:158 | the escaped characters read back as the string |
| JsonText.JsonStringRoundTrip | resume_parser/challenge-fernando/lambda_function.py:158 | decoding `json.dumps(s)` as a JSON string literal gives back `s` |
| JsonText.JsonStringAscii | resume_parser/challenge-fernando/lambda_function.py:158 | with `ensure_ascii` every character written is printable ASCII |
| JsonText.PlainTextQuoted | resume_parser/challenge-fernando/lambda_function.py:158 | printable ASCII text without `"` or `\` is written as itself in double quotes |

## Left out

- Embeddings and vector maths: the sentence encoder, L2 normalisation and FAISS inner-product search are floating-point and foreign, so the index comes in as a function from a text to its `(row, score)` hits.
- SymSpell `lookup_compound` and `unicodedata` NFKD normalisation are foreign libraries, so they are function parameters.
- The non-ASCII case mappings of `str.lower` and `str.upper` beyond Latin-1, and `\w` beyond ASCII and Latin-1, are not modelled. The white space `str.strip()` removes is modelled in full.
- Concurrency: the module globals of the vector index are reassigned without a lock, and the ranker loops forever with `sleep(60)`. One rebuild and one cycle are modelled as single atomic steps; the ranker's logging of an exception and moving on is not modelled.
- `set_featured` writes the flag directly. It is outside this model.
- JWT, bcrypt and werkzeug password hashing: the hash is a function parameter. Image saving and `create_product` are not modelled.
- Seeding, image download, HTTP downloads and zip extraction are not modelled.
- The loader's periodic flush every 1000 localities is not modelled.
- `float()` parsing of coordinates and prices: coordinates keep their field text, and prices are reals. So a malformed coordinate, whose `ValueError` aborts the whole locality load before any commit, is loaded as text in the model.
- The order in which `', '.join(VALID_DEPARTMENTS)` lists a set is fixed in the model, while Python's set order is unspecified.
- JSON decoding and logging are out of scope: decoding is a parameter that may fail.
- The BM25 plugin, the rank_bm25 fallback and `_get_text_from_node` are out of scope, because they are foreign retrievers.
- UserModel.User.New: accepts only the column names as keywords. The declarative constructor also accepts any other attribute of the class (its methods, `metadata`, dunder names), which the model rejects with TypeError.
- UserRoutes.UserTable.CreateUser: models only the integrity failures it checks itself. Other database failures on commit are not modelled.
- The pydantic 422 responses for malformed request bodies are not modelled.
- UserRoutes.NewId: follows SQLite's largest-id-plus-one rule, not the random row id it can fall back to.
- boto3, S3 and Gemini calls are parameters that answer with a value or an error. Their request encoding is not modelled.
- ResumeApi.ResumeStore.UploadFile: does not model the error-marking `update_item` itself failing inside the `ClientError` handler.
- ResumeStream.ReservedWords: holds only `STATUS` and `RESULT` of DynamoDB's reserved-word list, the two the handler's attribute names touch. DynamoDB's refusal of unused attribute names is respected by the aliased update but not checked.
- ResumeApi.ListResumes: requires the first scan page to hold at most `limit` items, as DynamoDB's `Limit` guarantees. Scan failures are modelled separately by ResumeApi.ScanFailure.
- A stream record without its `dynamodb` key is not represented: a record always carries the two (possibly absent) images.
- The Gemini reply's JSON value types are modelled as a map from strings to strings.
- The worker's outer `except` only logs and re-raises, so it is modelled by passing the error through.
- ResumeWorker.ProcessFile: the success outcome `Processed(fileId)` stands for the 200 response; the `json.dumps` of its `message`/`file_id` dictionary is not spelled out.
- JsonText.Unescape: a reference decoder for the round-trip lemma, not a model of `json.loads`. It rejects a lone surrogate escape, which `json.loads` accepts, because a Dafny `char` cannot hold one.

## Findings

| source | as written | input that shows it | evidently intended | confidence | as-written member | corrected member |
|---|---|---|---|---|---|---|
| resume_parser/challenge-fernando/lambda_function.py:135 | `process_resume_with_gemini(file_content, api_key)` passes two arguments to a three-parameter function (resume_parser/challenge-fernando/services.py:95-99), which raises TypeError | any INSERT record with status ai_ready_to_process whose S3 object is readable | pass the content type derived from the key's extension, so a successful model call ends in ai_finished once `result` is aliased too (see the `result` row) | high, not executed | ResumeStream.AsWrittenNeverFinishes | ResumeStream.CorrectedFinishes |
| resume_parser/lambda-resume-parser/lambda/lambda_function.py:238-241 | the worker reads `Key=file_id`, while the upload stores the object under `f"{file_id}.{file_extension}"` (resume_parser/lambda-resume-parser/api-gateway/main.py:159-163) | any file uploaded through `POST /upload`, e.g. "cv.pdf" | read the object under the key the upload wrote, so the record reaches process_resume | high, not executed | ResumeWorker.UploadedObjectMissed | ResumeWorker.UploadKeyRead |
| resume_parser/challenge-fernando/lambda_function.py:77-79 | `", result = :result"` names the reserved word `result` without an ExpressionAttributeNames alias, so DynamoDB refuses every update with a result, the error update included | any INSERT record with status ai_ready_to_process | write `#result = :result` with `#result` bound to `result`, so the outcome is stored and the batch goes on | high, not executed | ResumeStream.StatusRejection | ResumeStream.AliasedUpdateAccepted |
| resume_parser/lambda-resume-parser/api-gateway/main.py:291-302 | the `status` query parameter (line 245) shadows the `status` module, so `status.HTTP_500_INTERNAL_SERVER_ERROR` raises AttributeError in both handlers | any scan that raises, e.g. a ClientError, with or without a status filter | answer 500 with "DynamoDB error: ..." or "Unexpected error: ..." | high, not executed | ResumeApi.StatusShadowsModule | ResumeApi.ScanFailureSpec |
