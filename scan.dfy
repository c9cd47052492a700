/**
 * The three ways the resolvers walk a table: keep the best-scoring row
 * (`if score > best_score: best_row, best_score = row, score`, starting from
 * no row and score 0), stop at the first row that matches, and count the rows
 * that match.
 */
module Scan {
  import opened Wrappers

  /** The scan's result: the index of `best_row` (None for Python's None) and `best_score`. */
  datatype Pick = Pick(row: Option<nat>, score: int)

  /**
   * The value of `best_row, best_score` after scanning `rows` in order. The
   * strict `>` keeps the earliest of equally good rows, and a row scoring 0
   * or less is never picked.
   */
  function Best<T>(rows: seq<T>, score: T -> int): (p: Pick)
    ensures p.score >= 0
    ensures forall j :: 0 <= j < |rows| ==> score(rows[j]) <= p.score
    ensures p.row.None? ==> p.score == 0
    ensures p.row.Some? ==> p.row.value < |rows| && p.score > 0 && score(rows[p.row.value]) == p.score
    ensures p.row.Some? ==> forall j :: 0 <= j < p.row.value ==> score(rows[j]) < p.score
    decreases |rows|
  {
    if rows == [] then Pick(None, 0)
    else
      var init := rows[..|rows| - 1];
      var p := Best(init, score);
      assert forall j :: 0 <= j < |init| ==> init[j] == rows[j];
      var s := score(rows[|rows| - 1]);
      if s > p.score then Pick(Some(|rows| - 1), s) else p
  }

  /** A positive threshold is reached by the best score exactly when some row reaches it. */
  lemma BestReaches<T>(rows: seq<T>, score: T -> int, threshold: int)
    requires threshold > 0
    ensures Best(rows, score).score >= threshold <==> exists j :: 0 <= j < |rows| && score(rows[j]) >= threshold
  {
    var p := Best(rows, score);
    if p.score >= threshold {
      assert score(rows[p.row.value]) >= threshold;
    }
  }

  /** The best-row loop of the resolvers. */
  method BestRow<T>(rows: seq<T>, score: T -> int) returns (best: Option<nat>, bestScore: int)
    ensures Pick(best, bestScore) == Best(rows, score)
    ensures best.Some? ==> best.value < |rows| && score(rows[best.value]) == bestScore
  {
    best, bestScore := None, 0;
    var i := 0;
    while i < |rows|
      invariant 0 <= i <= |rows|
      invariant Pick(best, bestScore) == Best(rows[..i], score)
    {
      assert rows[..i + 1][..i] == rows[..i];
      var s := score(rows[i]);
      if s > bestScore {
        best, bestScore := Some(i), s;
      }
      i := i + 1;
    }
    assert rows[..|rows|] == rows;
  }

  /** The index of the first element satisfying `p`, if any. */
  function First<T>(rows: seq<T>, p: T -> bool): (r: Option<nat>)
    ensures r.Some? ==> r.value < |rows| && p(rows[r.value])
    ensures r.Some? ==> forall j :: 0 <= j < r.value ==> !p(rows[j])
    ensures r.None? ==> forall j :: 0 <= j < |rows| ==> !p(rows[j])
    decreases |rows|
  {
    if rows == [] then None
    else if p(rows[0]) then Some(0)
    else
      var rest := First(rows[1..], p);
      assert forall j :: 0 < j < |rows| ==> rows[1..][j - 1] == rows[j];
      match rest
      case None => None
      case Some(k) => Some(k + 1)
  }

  /** `for row in rows: if p(row): return ...`, falling through when nothing matches. */
  method FindFirst<T>(rows: seq<T>, p: T -> bool) returns (r: Option<nat>)
    ensures r == First(rows, p)
  {
    var i := 0;
    while i < |rows|
      invariant 0 <= i <= |rows|
      invariant forall j :: 0 <= j < i ==> !p(rows[j])
    {
      if p(rows[i]) {
        return Some(i);
      }
      i := i + 1;
    }
    return None;
  }

  /** The positions of the rows satisfying `p`. */
  function Matching<T>(rows: seq<T>, p: T -> bool): set<nat> {
    set j: nat | j < |rows| && p(rows[j])
  }

  /** `sum(p(row) for row in rows)`, and the loops that do `count += 1` for each matching row. */
  method CountWhere<T>(rows: seq<T>, p: T -> bool) returns (count: nat)
    ensures count == |Matching(rows, p)|
    ensures count <= |rows|
  {
    count := 0;
    var i := 0;
    while i < |rows|
      invariant 0 <= i <= |rows|
      invariant count == |set j: nat | j < i && p(rows[j])|
      invariant count <= i
    {
      var before := set j: nat | j < i && p(rows[j]);
      if p(rows[i]) {
        assert (set j: nat | j < i + 1 && p(rows[j])) == before + {i};
        count := count + 1;
      } else {
        assert (set j: nat | j < i + 1 && p(rows[j])) == before;
      }
      i := i + 1;
    }
  }
}
