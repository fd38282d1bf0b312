/**
 * Rows of the ranked subquery and their order, `ORDER BY rank DESC,
 * count DESC` (ckanext/discovery/plugins/search_suggestions/model.py).
 */
module Ranking {

  /** One row of the ranked subquery: a distinct text, its rank and its occurrence count. */
  datatype Row = Row(q: string, rank: real, count: nat)

  /** `a` may be listed before `b`: higher rank, or equal rank and at least the count. */
  predicate Outranks(a: Row, b: Row) {
    a.rank > b.rank || (a.rank == b.rank && a.count >= b.count)
  }

  predicate SortedByRank(rows: seq<Row>) {
    forall i, j :: 0 <= i < j < |rows| ==> Outranks(rows[i], rows[j])
  }

  predicate DistinctTexts(rows: seq<Row>) {
    forall i, j :: 0 <= i < j < |rows| ==> rows[i].q != rows[j].q
  }

  /** Any two rows are ordered one way or the other. */
  lemma OutranksTotal(a: Row, b: Row)
    ensures Outranks(a, b) || Outranks(b, a)
  {
  }

  /** A row that outranks every row of a sorted sequence may head it. */
  lemma SortedCons(x: Row, rows: seq<Row>)
    ensures SortedByRank(rows) && (forall y :: y in rows ==> Outranks(x, y)) ==> SortedByRank([x] + rows)
  {
  }

  /** A row whose text no row of `rows` has may head it without repeating a text. */
  lemma DistinctCons(x: Row, rows: seq<Row>)
    ensures DistinctTexts(rows) && (forall y :: y in rows ==> y.q != x.q) ==> DistinctTexts([x] + rows)
  {
  }

  /** The head of a sorted sequence outranks every row of it. */
  lemma HeadOutranks(rows: seq<Row>)
    requires rows != []
    ensures SortedByRank(rows) ==> forall y :: y in rows ==> Outranks(rows[0], y)
  {
  }

  /** The head of a sequence with distinct texts has a text no later row has. */
  lemma HeadUnique(rows: seq<Row>)
    requires rows != []
    ensures DistinctTexts(rows) ==> forall y :: y in rows[1..] ==> y.q != rows[0].q
  {
  }

  /** The tail of a sorted sequence is sorted, and keeps distinct texts. */
  lemma TailProperties(rows: seq<Row>)
    requires rows != []
    ensures SortedByRank(rows) ==> SortedByRank(rows[1..])
    ensures DistinctTexts(rows) ==> DistinctTexts(rows[1..])
  {
  }

  /** Inserts `x` into a sorted sequence of rows, after every row that strictly outranks it. */
  function Insert(x: Row, rows: seq<Row>): (r: seq<Row>)
    requires SortedByRank(rows)
    ensures SortedByRank(r)
    ensures multiset(r) == multiset(rows) + multiset{x}
    ensures forall y :: y in r <==> y == x || y in rows
    ensures DistinctTexts(rows) && (forall y :: y in rows ==> y.q != x.q) ==> DistinctTexts(r)
    decreases |rows|
  {
    if rows == [] then [x]
    else if Outranks(x, rows[0]) then
      HeadOutranks(rows);
      SortedCons(x, rows);
      DistinctCons(x, rows);
      [x] + rows
    else
      TailProperties(rows);
      HeadOutranks(rows);
      HeadUnique(rows);
      var rest := Insert(x, rows[1..]);
      assert rows == [rows[0]] + rows[1..];
      OutranksTotal(x, rows[0]);
      SortedCons(rows[0], rest);
      DistinctCons(rows[0], rest);
      [rows[0]] + rest
  }

  /**
   * `ORDER BY rank DESC, count DESC`: the rows rearranged (a permutation)
   * so that no row is listed after one it outranks strictly.
   */
  function SortByRank(rows: seq<Row>): (sorted: seq<Row>)
    ensures SortedByRank(sorted)
    ensures multiset(sorted) == multiset(rows)
    ensures forall y :: y in sorted <==> y in rows
    ensures DistinctTexts(rows) ==> DistinctTexts(sorted)
    decreases |rows|
  {
    if rows == [] then []
    else
      TailProperties(rows);
      var rest := SortByRank(rows[1..]);
      assert rows == [rows[0]] + rows[1..];
      HeadUnique(rows);
      Insert(rows[0], rest)
  }

  /** Consing the head of `rows` onto rows taken from its tail keeps its order and distinct texts. */
  lemma AtLeastCons(rows: seq<Row>, rest: seq<Row>)
    requires rows != []
    requires forall y :: y in rest ==> y in rows[1..]
    requires SortedByRank(rows) ==> SortedByRank(rest)
    requires DistinctTexts(rows) ==> DistinctTexts(rest)
    ensures SortedByRank(rows) ==> SortedByRank([rows[0]] + rest)
    ensures DistinctTexts(rows) ==> DistinctTexts([rows[0]] + rest)
  {
    HeadOutranks(rows);
    SortedCons(rows[0], rest);
    HeadUnique(rows);
    DistinctCons(rows[0], rest);
  }

  /** `WHERE rank >= :min_rank`: the rows whose rank reaches `minScore`, in their order. */
  function AtLeast(rows: seq<Row>, minScore: real): (kept: seq<Row>)
    ensures forall y :: y in kept <==> y in rows && y.rank >= minScore
    ensures SortedByRank(rows) ==> SortedByRank(kept)
    ensures DistinctTexts(rows) ==> DistinctTexts(kept)
    decreases |rows|
  {
    if rows == [] then []
    else
      TailProperties(rows);
      var rest := AtLeast(rows[1..], minScore);
      assert rows == [rows[0]] + rows[1..];
      if rows[0].rank < minScore then rest
      else
        AtLeastCons(rows, rest);
        [rows[0]] + rest
  }

}
