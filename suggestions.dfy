/**
 * The suggestion query of `SearchQuery.suggest`
 * (ckanext/discovery/plugins/search_suggestions/model.py): the SQL
 * statement's stages as functions over the stored query texts, a
 * predicate describing every result the statement may return, and the
 * proof that the staged pipeline returns such a result.
 */
module Suggestions {
  import opened TextSearch
  import opened Ranking

  /** The number of stored records whose text is exactly `q`. */
  function Count(records: seq<string>, q: string): nat {
    multiset(records)[q]
  }

  predicate NoDuplicates(s: seq<string>) {
    forall i, j :: 0 <= i < j < |s| ==> s[i] != s[j]
  }

  /** One row of the innermost subquery: a distinct matching text and `COUNT(q)`. */
  datatype Group = Group(q: string, count: nat)

  /** The row the ranked subquery computes for text `q`. */
  function RowOf(tq: TextQuery, records: seq<string>, q: string): Row {
    Row(q, tq.Rank(q), Count(records, q))
  }

  // ---------------------------------------------------------------------
  // The stages of the statement, innermost first
  // ---------------------------------------------------------------------

  /**
   * `WHERE to_tsvector(:language, q) @@ to_tsquery(:language, :terms)`:
   * the matching records, each kept as often as it is stored.
   */
  function Matching(tq: TextQuery, records: seq<string>): (matching: seq<string>)
    ensures forall x :: x in matching <==> x in records && tq.Matches(x)
    ensures forall x :: tq.Matches(x) ==> multiset(matching)[x] == multiset(records)[x]
    ensures forall x :: !tq.Matches(x) ==> multiset(matching)[x] == 0
    decreases |records|
  {
    if records == [] then []
    else
      assert records == [records[0]] + records[1..];
      (if tq.Matches(records[0]) then [records[0]] else []) + Matching(tq, records[1..])
  }

  lemma NoDuplicatesCons(x: string, s: seq<string>)
    requires NoDuplicates(s) && x !in s
    ensures NoDuplicates([x] + s)
  {
  }

  /** The distinct values of `s`, each once. */
  function Distinct(s: seq<string>): (d: seq<string>)
    ensures forall x :: x in d <==> x in s
    ensures NoDuplicates(d)
    decreases |s|
  {
    if s == [] then []
    else
      var rest := Distinct(s[1..]);
      if s[0] in rest then rest
      else
        NoDuplicatesCons(s[0], rest);
        [s[0]] + rest
  }

  /** `GROUP BY q` with `COUNT(q) AS count`: one group per distinct text. */
  function GroupByText(matching: seq<string>): (groups: seq<Group>)
    ensures forall g :: g in groups ==> g.q in matching && g.count == multiset(matching)[g.q]
    ensures forall x :: x in matching ==> Group(x, multiset(matching)[x]) in groups
    ensures forall i, j :: 0 <= i < j < |groups| ==> groups[i].q != groups[j].q
  {
    var texts := Distinct(matching);
    var groups := seq(|texts|, i requires 0 <= i < |texts| => Group(texts[i], multiset(matching)[texts[i]]));
    assert forall x :: x in matching ==> Group(x, multiset(matching)[x]) in groups by {
      forall x | x in matching ensures Group(x, multiset(matching)[x]) in groups {
        var k :| 0 <= k < |texts| && texts[k] == x;
        assert groups[k] == Group(x, multiset(matching)[x]);
      }
    }
    groups
  }

  /** `ts_rank(...) AS rank`: each group gets the rank of its text. */
  function RankGroups(tq: TextQuery, groups: seq<Group>): (ranked: seq<Row>)
    ensures |ranked| == |groups|
    ensures forall i :: 0 <= i < |groups| ==>
              ranked[i].q == groups[i].q && ranked[i].count == groups[i].count && ranked[i].rank == tq.Rank(groups[i].q)
  {
    seq(|groups|, i requires 0 <= i < |groups| => Row(groups[i].q, tq.Rank(groups[i].q), groups[i].count))
  }

  /** `LIMIT :limit`: at most the first `limit` rows. */
  function Take(rows: seq<Row>, limit: nat): (taken: seq<Row>)
    ensures |taken| == if limit < |rows| then limit else |rows|
    ensures taken == rows[..|taken|]
  {
    if limit < |rows| then rows[..limit] else rows
  }

  /** `[r[0] for r in results]`: the texts of the rows. */
  function TextsOf(rows: seq<Row>): (texts: seq<string>)
    ensures |texts| == |rows|
    ensures forall i :: 0 <= i < |rows| ==> texts[i] == rows[i].q
  {
    seq(|rows|, i requires 0 <= i < |rows| => rows[i].q)
  }

  /** The ranked matching groups, before any order or threshold. */
  function Candidates(tq: TextQuery, records: seq<string>): seq<Row> {
    var matching := Matching(tq, records);
    var groups := GroupByText(matching);
    RankGroups(tq, groups)
  }

  /** The `sorted` subquery filtered by `rank >= :min_rank`. */
  function Ordered(tq: TextQuery, records: seq<string>, minScore: real): seq<Row> {
    var sorted := SortByRank(Candidates(tq, records));
    AtLeast(sorted, minScore)
  }

  /**
   * The whole statement, projected to the texts: what `suggest` returns.
   * Its order and completeness are proved in `SuggestMeetsSpec`.
   */
  function Suggest(tq: TextQuery, records: seq<string>, limit: nat, minScore: real): (result: seq<string>)
    ensures |result| <= limit
    ensures NoDuplicates(result)
    ensures forall i :: 0 <= i < |result| ==> Qualifies(tq, records, minScore, result[i])
  {
    OrderedExact(tq, records, minScore);
    var taken := Take(Ordered(tq, records, minScore), limit);
    assert forall i :: 0 <= i < |taken| ==> taken[i] in Ordered(tq, records, minScore);
    TextsOf(taken)
  }

  // ---------------------------------------------------------------------
  // What the statement may return
  // ---------------------------------------------------------------------

  /** A stored text that matches the terms and reaches the minimum score. */
  predicate Qualifies(tq: TextQuery, records: seq<string>, minScore: real, q: string) {
    q in records && tq.Matches(q) && tq.Rank(q) >= minScore
  }

  /** All stored texts that qualify. */
  function QualifyingTexts(tq: TextQuery, records: seq<string>, minScore: real): set<string> {
    set q | q in records && Qualifies(tq, records, minScore, q)
  }

  /**
   * `result` is an answer the statement may give: at most `limit`
   * texts, none twice, each stored, matching and scoring at least
   * `minScore`, in rank-then-count order (full ties in any order), and
   * leaving out a qualifying text only when the limit is used up and no
   * listed text ranks strictly below it.
   */
  ghost predicate IsSuggestion(result: seq<string>, tq: TextQuery, records: seq<string>, limit: nat, minScore: real) {
    && |result| <= limit
    && NoDuplicates(result)
    && (forall i :: 0 <= i < |result| ==> Qualifies(tq, records, minScore, result[i]))
    && (forall i, j :: 0 <= i < j < |result| ==>
          Outranks(RowOf(tq, records, result[i]), RowOf(tq, records, result[j])))
    && (forall q :: Qualifies(tq, records, minScore, q) && q !in result ==>
          |result| == limit &&
          forall i :: 0 <= i < |result| ==> Outranks(RowOf(tq, records, result[i]), RowOf(tq, records, q)))
  }

  // ---------------------------------------------------------------------
  // Proofs
  // ---------------------------------------------------------------------

  /**
   * Grouping after the match filter counts every record with that text:
   * the candidates are exactly the rows of the matching stored texts.
   */
  lemma CandidatesExact(tq: TextQuery, records: seq<string>)
    ensures forall y :: y in Candidates(tq, records) ==>
              y == RowOf(tq, records, y.q) && y.q in records && tq.Matches(y.q)
    ensures forall q :: q in records && tq.Matches(q) ==> RowOf(tq, records, q) in Candidates(tq, records)
    ensures DistinctTexts(Candidates(tq, records))
  {
    var matching := Matching(tq, records);
    var groups := GroupByText(matching);
    var ranked := RankGroups(tq, groups);
    forall y | y in ranked
      ensures y == RowOf(tq, records, y.q) && y.q in records && tq.Matches(y.q)
    {
      var k :| 0 <= k < |ranked| && ranked[k] == y;
      assert groups[k] in groups;
    }
    forall q | q in records && tq.Matches(q) ensures RowOf(tq, records, q) in ranked {
      assert q in matching;
      var g := Group(q, multiset(matching)[q]);
      var k :| 0 <= k < |groups| && groups[k] == g;
      assert ranked[k] == RowOf(tq, records, q);
    }
  }

  /** The sorted, thresholded rows: exactly the qualifying texts' rows, sorted, each text once. */
  lemma OrderedExact(tq: TextQuery, records: seq<string>, minScore: real)
    ensures forall y :: y in Ordered(tq, records, minScore) ==>
              y == RowOf(tq, records, y.q) && Qualifies(tq, records, minScore, y.q)
    ensures forall q :: Qualifies(tq, records, minScore, q) ==>
              RowOf(tq, records, q) in Ordered(tq, records, minScore)
    ensures SortedByRank(Ordered(tq, records, minScore))
    ensures DistinctTexts(Ordered(tq, records, minScore))
  {
    CandidatesExact(tq, records);
  }

  /** The staged pipeline returns an answer the statement may give. */
  lemma SuggestMeetsSpec(tq: TextQuery, records: seq<string>, limit: nat, minScore: real)
    ensures IsSuggestion(Suggest(tq, records, limit, minScore), tq, records, limit, minScore)
  {
    var kept := Ordered(tq, records, minScore);
    var taken := Take(kept, limit);
    var result := Suggest(tq, records, limit, minScore);
    OrderedExact(tq, records, minScore);
    assert forall i :: 0 <= i < |result| ==> taken[i] == kept[i] && result[i] == kept[i].q;
    assert forall i :: 0 <= i < |result| ==> RowOf(tq, records, result[i]) == kept[i] by {
      forall i | 0 <= i < |result| ensures RowOf(tq, records, result[i]) == kept[i] {
        assert kept[i] in kept;
      }
    }
    forall q | Qualifies(tq, records, minScore, q) && q !in result
      ensures |result| == limit
      ensures forall i :: 0 <= i < |result| ==> Outranks(RowOf(tq, records, result[i]), RowOf(tq, records, q))
    {
      var k :| 0 <= k < |kept| && kept[k] == RowOf(tq, records, q);
    }
  }

  lemma {:induction false} DistinctCardinality(s: seq<string>)
    requires NoDuplicates(s)
    ensures |set x | x in s| == |s|
    decreases |s|
  {
    if s != [] {
      assert NoDuplicates(s[1..]) by {
        forall i, j | 0 <= i < j < |s[1..]| ensures s[1..][i] != s[1..][j] {
          assert s[1..][i] == s[i + 1] && s[1..][j] == s[j + 1];
        }
      }
      DistinctCardinality(s[1..]);
      assert s[0] !in s[1..] by {
        forall k | 0 <= k < |s[1..]| ensures s[1..][k] != s[0] {
          assert s[1..][k] == s[k + 1];
        }
      }
      assert (set x | x in s) == {s[0]} + (set x | x in s[1..]) by {
        assert s == [s[0]] + s[1..];
      }
    }
  }

  lemma SubsetCardinality(a: set<string>, b: set<string>)
    requires a <= b
    ensures |a| <= |b|
  {
    assert b == a + (b - a);
  }

  /**
   * Every answer has the same length: `limit`, or all qualifying texts
   * when there are fewer.
   */
  lemma SuggestionLength(result: seq<string>, tq: TextQuery, records: seq<string>, limit: nat, minScore: real)
    requires IsSuggestion(result, tq, records, limit, minScore)
    ensures var n := |QualifyingTexts(tq, records, minScore)|;
            |result| == if limit < n then limit else n
  {
    var listed := set x | x in result;
    var qualifying := QualifyingTexts(tq, records, minScore);
    DistinctCardinality(result);
    assert listed <= qualifying by {
      forall x | x in listed ensures x in qualifying {
        var k :| 0 <= k < |result| && result[k] == x;
      }
    }
    SubsetCardinality(listed, qualifying);
    if |result| < limit {
      assert qualifying <= listed;
      assert listed == qualifying;
    }
  }

  /** The pipeline returns `limit` texts, or every qualifying text when there are fewer. */
  lemma SuggestLength(tq: TextQuery, records: seq<string>, limit: nat, minScore: real)
    ensures var n := |QualifyingTexts(tq, records, minScore)|;
            |Suggest(tq, records, limit, minScore)| == if limit < n then limit else n
  {
    SuggestMeetsSpec(tq, records, limit, minScore);
    SuggestionLength(Suggest(tq, records, limit, minScore), tq, records, limit, minScore);
  }

  /** When no stored text matches any term (in particular, nothing is stored), nothing is suggested. */
  lemma NoMatchNoSuggestions(tq: TextQuery, records: seq<string>, limit: nat, minScore: real)
    requires forall q :: q in records ==> !tq.Matches(q)
    ensures Suggest(tq, records, limit, minScore) == []
  {
    assert QualifyingTexts(tq, records, minScore) == {};
    SuggestLength(tq, records, limit, minScore);
  }

  /** An empty term list joins to an empty tsquery, which matches nothing. */
  lemma EmptyTermsNoSuggestions(engine: Engine, language: string, records: seq<string>, limit: nat, minScore: real)
    ensures Suggest(TextQuery(engine, language, []), records, limit, minScore) == []
  {
    NoMatchNoSuggestions(TextQuery(engine, language, []), records, limit, minScore);
  }

  /** Between two listed texts of equal rank, the more frequent one comes first. */
  lemma TieBrokenByCount(result: seq<string>, tq: TextQuery, records: seq<string>, limit: nat, minScore: real,
                         i: nat, j: nat)
    requires IsSuggestion(result, tq, records, limit, minScore)
    requires i < |result| && j < |result|
    requires tq.Rank(result[i]) == tq.Rank(result[j])
    requires Count(records, result[i]) > Count(records, result[j])
    ensures i < j
  {
  }

  /**
   * With limit 1 and at least one qualifying text, the answer is a single
   * text that no qualifying text outranks strictly.
   */
  lemma TopSuggestion(tq: TextQuery, records: seq<string>, minScore: real)
    requires QualifyingTexts(tq, records, minScore) != {}
    ensures var result := Suggest(tq, records, 1, minScore);
            |result| == 1 && Qualifies(tq, records, minScore, result[0]) &&
            forall q :: Qualifies(tq, records, minScore, q) ==>
              Outranks(RowOf(tq, records, result[0]), RowOf(tq, records, q))
  {
    var result := Suggest(tq, records, 1, minScore);
    SuggestMeetsSpec(tq, records, 1, minScore);
    SuggestLength(tq, records, 1, minScore);
    forall q | Qualifies(tq, records, minScore, q)
      ensures Outranks(RowOf(tq, records, result[0]), RowOf(tq, records, q))
    {
      if q == result[0] {
        OutranksTotal(RowOf(tq, records, q), RowOf(tq, records, q));
      }
    }
  }

  /**
   * When exactly two texts qualify, the limit admits both, and they tie
   * on rank, the answer lists both, the more frequent one first.
   */
  lemma TwoTiedTexts(tq: TextQuery, records: seq<string>, limit: nat, minScore: real, a: string, b: string)
    requires QualifyingTexts(tq, records, minScore) == {a, b} && a != b && limit >= 2
    requires tq.Rank(a) == tq.Rank(b) && Count(records, a) > Count(records, b)
    ensures Suggest(tq, records, limit, minScore) == [a, b]
  {
    SuggestMeetsSpec(tq, records, limit, minScore);
    TwoTiedAnswer(Suggest(tq, records, limit, minScore), tq, records, limit, minScore, a, b);
  }

  lemma TwoTiedAnswer(result: seq<string>, tq: TextQuery, records: seq<string>, limit: nat, minScore: real,
                      a: string, b: string)
    requires IsSuggestion(result, tq, records, limit, minScore)
    requires QualifyingTexts(tq, records, minScore) == {a, b} && a != b && limit >= 2
    requires tq.Rank(a) == tq.Rank(b) && Count(records, a) > Count(records, b)
    ensures result == [a, b]
  {
    SuggestionLength(result, tq, records, limit, minScore);
    assert |result| == 2;
    assert result[0] in QualifyingTexts(tq, records, minScore);
    assert result[1] in QualifyingTexts(tq, records, minScore);
    assert result[0] != result[1];
    assert a in result && b in result;
    var i :| 0 <= i < |result| && result[i] == a;
    var j :| 0 <= j < |result| && result[j] == b;
    TieBrokenByCount(result, tq, records, limit, minScore, i, j);
  }

  /**
   * Three searches for "cat dog" and one for "cat fish", then suggestions
   * for ["cat"]: if the engine matches both and ranks them equally, every
   * admissible answer lists both, the more frequent query first.
   */
  lemma RepeatedQueryListedFirst(engine: Engine, language: string, result: seq<string>)
    requires engine.matches(language, "cat dog", "cat") && engine.matches(language, "cat fish", "cat")
    requires engine.rank(language, "cat dog", "cat") == engine.rank(language, "cat fish", "cat") >= 0.0
    requires IsSuggestion(result, TextQuery(engine, language, ["cat"]),
                          ["cat dog", "cat dog", "cat dog", "cat fish"], 10, 0.0)
    ensures result == ["cat dog", "cat fish"]
  {
    var tq := TextQuery(engine, language, ["cat"]);
    var records := ["cat dog", "cat dog", "cat dog", "cat fish"];
    assert JoinTerms(["cat"]) == "cat";
    assert "cat dog" != "cat fish" by { assert "cat dog"[4] != "cat fish"[4]; }
    assert multiset(records) == multiset{"cat dog", "cat dog", "cat dog", "cat fish"};
    assert Count(records, "cat dog") == 3 && Count(records, "cat fish") == 1;
    assert forall q :: q in records <==> q == "cat dog" || q == "cat fish";
    assert QualifyingTexts(tq, records, 0.0) == {"cat dog", "cat fish"};
    TwoTiedAnswer(result, tq, records, 10, 0.0, "cat dog", "cat fish");
  }

}
