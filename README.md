# Search-query suggestions of ckanext-discovery, in Dafny

This project models the search-suggestion store of the CKAN extension
ckanext-discovery (`ckanext/discovery/plugins/search_suggestions/model.py`).
The store has two parts:

- the **query log**, the `discovery_searchquery` table. Every search adds
  one row (`SearchQuery.create`). Rows are never changed or removed, so
  duplicate texts pile up and measure popularity;
- the **suggestion query** (`SearchQuery.suggest`), one SQL statement
  that works in stages. It keeps the rows whose text matches at least one
  term (the terms are joined with `' | '`, an OR tsquery). It groups them
  by text and counts each group. It ranks each group with `ts_rank`,
  sorts by rank and then count, both descending, and drops rows ranked
  below `min_score`. Finally it applies `LIMIT` and returns the texts.

The text-search configuration ("language") comes from the option
`ckanext.discovery.search_suggestions.language`, with default
`english` (`_get_language`).

Modules:

- `Results` (results.dfy): the `Result` type for errors the database reports.
- `Language` (language.dfy): `_get_language` over an explicit configuration map.
- `TextSearch` (text_search.dfy): the PostgreSQL text-search built-ins. `Engine` holds function
  values for `to_tsvector … @@ to_tsquery …` (per term) and `ts_rank`. The model assumes nothing about
  them except that a tsquery `t1 | t2 | …` matches when one of its terms matches. `JoinTerms` is
  `' | '.join(terms)`. `TextQuery` bundles an engine, a language and the terms of one request.
- `Ranking` (ranking.dfy): rows `(q, rank, count)`, the order `ORDER BY rank DESC, count DESC`
  (an insertion sort proved to be a sorted permutation), and the threshold `WHERE rank >= :min_rank`.
- `Suggestions` (suggestions.dfy): the statement's stages as functions (`Matching`, `GroupByText`,
  `RankGroups`, `SortByRank`, `AtLeast`, `Take`, `TextsOf`), composed in `Suggest`. It also has the
  predicate `IsSuggestion`, which describes every answer the statement may give, since SQL leaves
  the order of full ties open. The main theorem is that `Suggest` always gives such an answer.
- `SearchQueries` (search_queries.dfy): the table as a class. Its rows are a `seq` of
  `(id, q)` and the primary-key sequence is a counter. `Create` appends a row and `Suggest` runs the
  query over the stored texts. Two client methods check the popular-query case and the limit edge cases.

The engine's functions, the configuration map and the stored rows are parameters or state, so
nothing here performs I/O.

## Model

| member | source | states |
|---|---|---|
| `Language.GetLanguage` | ckanext/discovery/plugins/search_suggestions/model.py:35-43 | the configured `search_suggestions.language` value when the option is present, otherwise `english` |
| `TextSearch.JoinTermsSnoc` | ckanext/discovery/plugins/search_suggestions/model.py:111 | the tsquery text is the terms joined left to right with the OR separator: one more term adds one separator and that term at the end |
| `TextSearch.MatchesAnyIff` | ckanext/discovery/plugins/search_suggestions/model.py:102-111 | the OR tsquery matches a text exactly when at least one single term matches it (both directions) |
| `TextSearch.JoinTerms` | ckanext/discovery/plugins/search_suggestions/model.py:111 | the terms joined with the OR separator `OrSeparator`, as Python's `join` does; it has no contract of its own: `JoinTermsSnoc` states its join law |
| `TextSearch.MatchesAny` | ckanext/discovery/plugins/search_suggestions/model.py:102 | the `@@` match against the OR tsquery; it has no contract of its own: `MatchesAnyIff` states that it holds exactly when some term matches |
| `TextSearch.TextQuery.Matches` | ckanext/discovery/plugins/search_suggestions/model.py:102 | the WHERE condition of one request, `MatchesAny` over its engine, language and terms; covered by `MatchesAnyIff` |
| `TextSearch.TextQuery.Rank` | ckanext/discovery/plugins/search_suggestions/model.py:96-97 | the `ts_rank` of a text against the request's joined tsquery; the engine's value, with no contract of its own |
| `Ranking.Insert` | ckanext/discovery/plugins/search_suggestions/model.py:105 | inserting into a rank-sorted sequence keeps it sorted, adds exactly that row (multiset), and keeps texts distinct when the row's text is new |
| `Ranking.SortByRank` | ckanext/discovery/plugins/search_suggestions/model.py:105 | `ORDER BY rank DESC, count DESC`: the result is a permutation of the rows, sorted non-increasing by rank and, at equal rank, by count; distinct texts stay distinct |
| `Ranking.AtLeast` | ckanext/discovery/plugins/search_suggestions/model.py:107 | `WHERE rank >= :min_rank`: keeps exactly the rows ranked at least `minScore`, and keeps a sorted, distinct input sorted and distinct |
| `Suggestions.Matching` | ckanext/discovery/plugins/search_suggestions/model.py:100-102 | the WHERE filter keeps exactly the matching records, each matching text with its full stored multiplicity, and no other text |
| `Suggestions.Distinct` | ckanext/discovery/plugins/search_suggestions/model.py:103 | the distinct values of a sequence: the same elements, none twice |
| `Suggestions.GroupByText` | ckanext/discovery/plugins/search_suggestions/model.py:100-103 | `GROUP BY q` with `COUNT(q)`: one group per distinct matching text, whose count is that text's number of occurrences |
| `Suggestions.RankGroups` | ckanext/discovery/plugins/search_suggestions/model.py:94-98 | one row per group, in order, with the group's text and count and the rank of its text |
| `Suggestions.Take` | ckanext/discovery/plugins/search_suggestions/model.py:108 | `LIMIT`: the first min(`limit`, length) rows, a prefix of its input |
| `Suggestions.TextsOf` | ckanext/discovery/plugins/search_suggestions/model.py:115 | `[r[0] for r in results]`: same length, element i is row i's text |
| `Suggestions.Suggest` | ckanext/discovery/plugins/search_suggestions/model.py:90-115 | the whole statement plus the projection: at most `limit` texts, none twice, each stored, matching and at least `minScore`; its order and completeness are stated by `SuggestMeetsSpec` |
| `Suggestions.CandidatesExact` | ckanext/discovery/plugins/search_suggestions/model.py:94-104 | the ranked groups are exactly the rows `(q, rank of q, number of stored records equal to q)` of the stored texts that match, each text once |
| `Suggestions.OrderedExact` | ckanext/discovery/plugins/search_suggestions/model.py:92-107 | after sorting and the threshold: exactly the rows of the qualifying texts (stored, matching, rank at least `minScore`), sorted, each text once |
| `Suggestions.SuggestMeetsSpec` | ckanext/discovery/plugins/search_suggestions/model.py:69-115 | `suggest` returns at most `limit` texts, pairwise distinct. Each one is stored, matches a term and ranks at least `min_score`. They are ordered non-increasing by rank and then by count. A qualifying text is missing only when `limit` texts are returned and none of them ranks strictly below it |
| `Suggestions.SuggestionLength` | ckanext/discovery/plugins/search_suggestions/model.py:105-108 | every admissible answer has length min(`limit`, number of qualifying distinct texts) |
| `Suggestions.SuggestLength` | ckanext/discovery/plugins/search_suggestions/model.py:105-108 | the same for the pipeline, so `limit = 0` gives the empty list |
| `Suggestions.NoMatchNoSuggestions` | ckanext/discovery/plugins/search_suggestions/model.py:102 | an empty store, or a store with no text matching any term, yields no suggestions |
| `Suggestions.EmptyTermsNoSuggestions` | ckanext/discovery/plugins/search_suggestions/model.py:111 | an empty term list yields no suggestions |
| `Suggestions.TieBrokenByCount` | ckanext/discovery/plugins/search_suggestions/model.py:84-85 | of two listed texts with equal rank, the one stored more often comes first |
| `Suggestions.TopSuggestion` | ckanext/discovery/plugins/search_suggestions/model.py:105-108 | with `limit = 1` and some qualifying text, exactly one text is returned, and no qualifying text strictly outranks it |
| `Suggestions.TwoTiedAnswer` | ckanext/discovery/plugins/search_suggestions/model.py:100-108 | when exactly two texts qualify with equal rank and the limit admits both, every admissible answer lists both, the more frequent first |
| `Suggestions.TwoTiedTexts` | ckanext/discovery/plugins/search_suggestions/model.py:100-108 | the same for the pipeline's result |
| `Suggestions.RepeatedQueryListedFirst` | ckanext/discovery/plugins/search_suggestions/model.py:98-105 | "cat dog" stored three times and "cat fish" once, equally ranked matches of "cat": every admissible answer is exactly `["cat dog", "cat fish"]` |
| `SearchQueries.SearchQueryTable.constructor` | ckanext/discovery/plugins/search_suggestions/model.py:50-56 | a new table holds no rows |
| `SearchQueries.SearchQueryTable.Create` | ckanext/discovery/plugins/search_suggestions/model.py:58-66 | appends exactly one row holding `q` with an id no earlier row has; earlier rows are unchanged; the id invariant is kept |
| `SearchQueries.SearchQueryTable.Suggest` | ckanext/discovery/plugins/search_suggestions/model.py:68-115 | uses the resolved language; a negative limit is the database's error; otherwise the answer is admissible (`IsSuggestion` over the stored texts); it promises no order among full ties |
| `SearchQueries.LogTwice` | ckanext/discovery/plugins/search_suggestions/model.py:56-66 | logging one text twice stores two rows, and its count as seen by the suggestion query rises by two |
| `SearchQueries.PopularSearchSuggestedFirst` | ckanext/discovery/plugins/search_suggestions/model.py:58-115 | logging "cat dog" three times and "cat fish" once, then suggesting for `["cat"]` with the defaults `limit = 10`, `min_score = 0` and language `english`, gives `["cat dog", "cat fish"]` |
| `SearchQueries.LimitEdgeCases` | ckanext/discovery/plugins/search_suggestions/model.py:108 | `limit = 0` gives the empty list; a negative limit gives the error |

## Left out

- PostgreSQL text search: the tokenising, stemming and stop words of `to_tsvector` and `to_tsquery`, the `ts_rank` formula, and its single-precision floats. `Engine` abstracts them, and ranks are exact `real` numbers.
- Query syntax of the terms: the code does not escape them before joining. A term that contains tsquery operators changes the query, and a malformed term makes `to_tsquery` fail. The model treats each term as one operand of the OR and does not model parse errors: the code interpolates the terms unescaped (model.py:111).
- `_execute`, `Session.add` and `Session.commit`, and connection handling: these are I/O. A commit is modelled as the append having happened. A storage failure (an exception from the database driver) is not modelled.
- `create_tables`: the DDL that creates the table and drops and recreates the GIN index. An index changes speed, not answers, so the model leaves it out. The constructor stands for a newly created, empty table.
- The `nullable=False` constraint on `q`: Dafny strings cannot be null, so a NULL insert cannot be expressed. Empty strings are stored: the column only forbids NULL (model.py:56), and nothing checks for empty text.
- `limit = None` (SQL `LIMIT NULL`, no limit): the model's limit is an integer.
- `SearchQueries.SearchQueryTable.Create`: ids come from a counter. Gaps left by rolled-back transactions and interleaving between concurrent sessions are not modelled. Only uniqueness is stated.
- `Suggestions.Suggest` orders full ties (equal rank and equal count) in one fixed way: the insertion sort is stable, so tied texts keep the order `Distinct` gives them, which is by last stored occurrence. SQL leaves that order open, for example under a hash aggregate. So `SearchQueries.SearchQueryTable.Suggest` promises only an answer that `IsSuggestion` admits, and does not promise the pipeline's particular tie order. The lemmas about the pipeline's own result (`SuggestLength`, `TwoTiedTexts`) state only facts that hold for every admissible answer.
- The order of the `sorted` subquery is taken to survive the outer `WHERE` and `LIMIT`, as the statement evidently intends.
- `SearchQueries.SearchQueryTable.Suggest`: when the configured language is not a PostgreSQL text-search configuration, `to_tsvector` and `to_tsquery` raise an error. The model returns `Success` for any language string, because the set of installed configurations belongs to the database.
- `get_config` (the `..` package's option lookup, which adds the `ckanext.discovery.` prefix) is not part of this model. The full option name comes from `_get_language`'s docstring.
- The similar-datasets feature and `ckanext/discovery/tests/plugins/test_similar_datasets.py`: it wraps the external catalogue search, and that source is not part of this model.
