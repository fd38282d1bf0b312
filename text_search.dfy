/**
 * The PostgreSQL full-text search built-ins that the suggestion query
 * calls. Their behaviour (tokenising, stemming, stop words, the ranking
 * formula) belongs to the database engine, so the model takes them as
 * parameters and relies on nothing about them beyond the OR semantics
 * of a tsquery built with `|`.
 */
module TextSearch {

  /**
   * One text-search engine:
   *   matches(language, document, term)  stands for
   *     to_tsvector(language, document) @@ to_tsquery(language, term);
   *   rank(language, document, tsquery)  stands for
   *     ts_rank(to_tsvector(language, document), to_tsquery(language, tsquery)).
   */
  datatype Engine = Engine(
    matches: (string, string, string) -> bool,
    rank: (string, string, string) -> real)

  /** The separator Python's `' | '.join(terms)` puts between terms: tsquery OR. */
  const OrSeparator: string := " | "

  /** The tsquery text `' | '.join(terms)`. */
  function JoinTerms(terms: seq<string>): (query: string)
    decreases |terms|
  {
    if |terms| == 0 then ""
    else if |terms| == 1 then terms[0]
    else terms[0] + OrSeparator + JoinTerms(terms[1..])
  }

  /** Joining is left to right: adding a term puts one separator and that term at the end. */
  lemma {:induction false} JoinTermsSnoc(terms: seq<string>, t: string)
    requires |terms| > 0
    ensures JoinTerms(terms + [t]) == JoinTerms(terms) + OrSeparator + t
    decreases |terms|
  {
    var ts := terms + [t];
    if |terms| == 1 {
      assert ts[1..] == [t];
    } else {
      assert ts[1..] == terms[1..] + [t];
      JoinTermsSnoc(terms[1..], t);
    }
  }

  /** Whether `document` matches at least one of `terms` (the OR tsquery). */
  function MatchesAny(engine: Engine, language: string, document: string, terms: seq<string>): bool
    decreases |terms|
  {
    if terms == [] then false
    else engine.matches(language, document, terms[0]) || MatchesAny(engine, language, document, terms[1..])
  }

  /** The OR tsquery matches exactly when some single term matches. */
  lemma {:induction false} MatchesAnyIff(engine: Engine, language: string, document: string, terms: seq<string>)
    ensures MatchesAny(engine, language, document, terms)
            <==> exists i :: 0 <= i < |terms| && engine.matches(language, document, terms[i])
    decreases |terms|
  {
    if terms != [] {
      MatchesAnyIff(engine, language, document, terms[1..]);
      if MatchesAny(engine, language, document, terms[1..]) {
        var i :| 0 <= i < |terms[1..]| && engine.matches(language, document, terms[1..][i]);
        assert engine.matches(language, document, terms[i + 1]);
      }
      if exists i :: 0 <= i < |terms| && engine.matches(language, document, terms[i]) {
        var i :| 0 <= i < |terms| && engine.matches(language, document, terms[i]);
        if i > 0 {
          assert engine.matches(language, document, terms[1..][i - 1]);
        }
      }
    }
  }

  /**
   * One suggestion request's text search: the engine, the resolved
   * language and the terms, whose join is the tsquery.
   */
  datatype TextQuery = TextQuery(engine: Engine, language: string, terms: seq<string>) {

    /** The WHERE condition of the innermost subquery. */
    predicate Matches(document: string) {
      MatchesAny(engine, language, document, terms)
    }

    /** The rank column computed for a matching text. */
    function Rank(document: string): real {
      engine.rank(language, document, JoinTerms(terms))
    }
  }

}
