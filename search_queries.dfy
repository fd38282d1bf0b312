/**
 * The `discovery_searchquery` table and the class methods of
 * `SearchQuery` (ckanext/discovery/plugins/search_suggestions/model.py):
 * an append-only log of submitted search strings, and the suggestion
 * query over it.
 */
module SearchQueries {
  import opened Results
  import opened TextSearch
  import Language
  import Suggestions

  /** One row of the table: the primary key `id` and the search string `q`. */
  datatype SearchQuery = SearchQuery(id: nat, q: string)

  /** What the database reports when asked for suggestions it cannot compute. */
  datatype SuggestError =
    | NegativeLimit  // PostgreSQL rejects a negative LIMIT

  /** The search strings of `rows`, in order. */
  function QueryTexts(rows: seq<SearchQuery>): (texts: seq<string>)
    ensures |texts| == |rows|
    ensures forall i :: 0 <= i < |rows| ==> texts[i] == rows[i].q
  {
    seq(|rows|, i requires 0 <= i < |rows| => rows[i].q)
  }

  class SearchQueryTable {
    /** The stored rows, oldest first. */
    var rows: seq<SearchQuery>
    /** The next value of the primary-key sequence. */
    var nextId: nat

    /** Every stored id was drawn from the key sequence, and no two rows share one. */
    ghost predicate Valid()
      reads this
    {
      && (forall i :: 0 <= i < |rows| ==> rows[i].id < nextId)
      && (forall i, j :: 0 <= i < j < |rows| ==> rows[i].id != rows[j].id)
    }

    /** The stored search strings, duplicates included. */
    function Texts(): seq<string>
      reads this
    {
      QueryTexts(rows)
    }

    /** A freshly created, empty table. */
    constructor ()
      ensures Valid()
      ensures rows == []
    {
      rows := [];
      nextId := 0;
    }

    /**
     * `SearchQuery.create(q)`: add one row holding `q` and commit it.
     * Earlier rows are untouched; a text already stored is stored again.
     */
    method Create(q: string) returns (query: SearchQuery)
      requires Valid()
      modifies this
      ensures Valid()
      ensures query.q == q
      ensures forall i :: 0 <= i < |old(rows)| ==> old(rows)[i].id != query.id
      ensures rows == old(rows) + [query]
      ensures Texts() == old(Texts()) + [q]
    {
      query := SearchQuery(nextId, q);
      rows := rows + [query];
      nextId := nextId + 1;
    }

    /**
     * `SearchQuery.suggest(terms, limit, min_score)`, with the language
     * resolved from `config` and the engine's text-search functions given
     * as `engine`.
     */
    method Suggest(config: Language.Config, engine: Engine, terms: seq<string>,
                   limit: int := 10, minScore: real := 0.0)
      returns (result: Result<seq<string>, SuggestError>)
      ensures limit < 0 ==> result == Failure(NegativeLimit)
      ensures limit >= 0 ==> result.Success?
      ensures result.Success? ==>
                var tq := TextQuery(engine, Language.GetLanguage(config), terms);
                Suggestions.IsSuggestion(result.value, tq, Texts(), limit as nat, minScore)
    {
      if limit < 0 {
        return Failure(NegativeLimit);
      }
      var tq := TextQuery(engine, Language.GetLanguage(config), terms);
      Suggestions.SuggestMeetsSpec(tq, Texts(), limit, minScore);
      result := Success(Suggestions.Suggest(tq, Texts(), limit, minScore));
    }
  }

  /** Logging the same search twice stores two rows, both counted by the suggestion query. */
  method LogTwice(table: SearchQueryTable, q: string)
    requires table.Valid()
    modifies table
    ensures table.Valid()
    ensures table.Texts() == old(table.Texts()) + [q, q]
    ensures Suggestions.Count(table.Texts(), q) == Suggestions.Count(old(table.Texts()), q) + 2
  {
    var _ := table.Create(q);
    var _ := table.Create(q);
    assert old(table.Texts()) + [q] + [q] == old(table.Texts()) + [q, q];
  }

  /**
   * A client of the table: searches logged three times and once, then
   * suggestions for ["cat"] under the default language.
   */
  method PopularSearchSuggestedFirst(engine: Engine) returns (suggestions: Result<seq<string>, SuggestError>)
    requires engine.matches("english", "cat dog", "cat") && engine.matches("english", "cat fish", "cat")
    requires engine.rank("english", "cat dog", "cat") == engine.rank("english", "cat fish", "cat") >= 0.0
    ensures suggestions == Success(["cat dog", "cat fish"])
  {
    var table := new SearchQueryTable();
    var _ := table.Create("cat dog");
    assert table.Texts() == ["cat dog"];
    var _ := table.Create("cat dog");
    assert table.Texts() == ["cat dog", "cat dog"];
    var _ := table.Create("cat dog");
    assert table.Texts() == ["cat dog", "cat dog", "cat dog"];
    var _ := table.Create("cat fish");
    assert table.Texts() == ["cat dog", "cat dog", "cat dog", "cat fish"];
    assert Language.GetLanguage(map[]) == "english";
    suggestions := table.Suggest(map[], engine, ["cat"]);
    Suggestions.RepeatedQueryListedFirst(engine, "english", suggestions.value);
  }

  /** A zero limit suggests nothing; a negative limit is rejected by the database. */
  method LimitEdgeCases(table: SearchQueryTable, config: Language.Config, engine: Engine, terms: seq<string>)
    returns (none: Result<seq<string>, SuggestError>, rejected: Result<seq<string>, SuggestError>)
    ensures none == Success([])
    ensures rejected == Failure(NegativeLimit)
  {
    none := table.Suggest(config, engine, terms, limit := 0);
    rejected := table.Suggest(config, engine, terms, limit := -1);
  }

}
