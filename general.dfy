/**
 * `general_answer`: the row of the question table whose example question and
 * intent label best match (weighted 0.6 and 0.4), accepted at 55 or more.
 */
module General {
  import opened Wrappers
  import opened Text
  import opened Tables
  import opened Scan

  const Threshold := 55
  /** Written in two pieces so that the phrase "sorry" the router looks for stands apart. */
  const NoInfoText := "Sorry" + ", I don't have information about this right now."
  const ServerErrorText := "It seems like we have a server error for this question \U{2014} it will be fixed as soon as possible."

  /** `intent_text.strip() == "" and example_text.strip() == ""`: the loop skips such a row. */
  predicate Skipped(r: Faq) {
    Strip(Clean(r.emotionIntent)) == [] && Strip(Clean(r.exampleQuestion)) == []
  }

  /**
   * `int(example_score * 0.6 + intent_score * 0.4)` in integer arithmetic; an
   * empty field scores 0 without calling the ratio. A skipped row is given 0,
   * which the scan never picks, exactly as if it had been skipped.
   */
  function Score(m: Matcher, qc: string, r: Faq): (s: int)
    ensures 0 <= s <= 100
    ensures Skipped(r) ==> s == 0
  {
    if Skipped(r) then 0
    else
      var intentText := Clean(r.emotionIntent);
      var exampleText := Clean(r.exampleQuestion);
      var intentScore := if intentText != [] then m.partialRatio(qc, intentText) else 0;
      var exampleScore := if exampleText != [] then m.partialRatio(qc, exampleText) else 0;
      (6 * exampleScore + 4 * intentScore) / 10
  }

  function Scorer(m: Matcher, qc: string): Faq -> int {
    (r: Faq) => Score(m, qc, r)
  }

  /** What `general_answer(q)` returns; reading a missing Response column lands in the `except` branch. */
  function GeneralReply(m: Matcher, faqs: seq<Faq>, q: string): string {
    var p := Best(faqs, Scorer(m, Clean(q)));
    if p.row.Some? && p.score >= Threshold then
      match faqs[p.row.value].response
      case Some(text) => text
      case None => ServerErrorText
    else NoInfoText
  }

  /**
   * `general_answer(q)`: with no row reaching 55 the fallback text; otherwise
   * the Response of the earliest best row, which is never a skipped row.
   */
  method GeneralAnswer(m: Matcher, faqs: seq<Faq>, q: string) returns (a: string)
    ensures a == GeneralReply(m, faqs, q)
    ensures (forall j :: 0 <= j < |faqs| ==> Score(m, Clean(q), faqs[j]) < Threshold) ==> a == NoInfoText
    ensures (exists j :: 0 <= j < |faqs| && Score(m, Clean(q), faqs[j]) >= Threshold) ==>
      exists k :: 0 <= k < |faqs| && !Skipped(faqs[k])
        && (forall j :: 0 <= j < |faqs| ==> Score(m, Clean(q), faqs[j]) <= Score(m, Clean(q), faqs[k]))
        && (forall j :: 0 <= j < k ==> Score(m, Clean(q), faqs[j]) < Score(m, Clean(q), faqs[k]))
        && a == (if faqs[k].response.Some? then faqs[k].response.value else ServerErrorText)
  {
    var qc := Clean(q);
    var best, bestScore := BestRow(faqs, Scorer(m, qc));
    BestReaches(faqs, Scorer(m, qc), Threshold);
    if best.Some? && bestScore >= Threshold {
      var response := faqs[best.value].response;
      if response.None? {
        return ServerErrorText;
      }
      return response.value;
    }
    return NoInfoText;
  }

  /** Rows whose two fields are blank never influence the answer: dropping them changes nothing. */
  lemma {:induction false} SkippedRowsIgnored(m: Matcher, qc: string, faqs: seq<Faq>, r: Faq)
    requires Skipped(r)
    ensures Best(faqs + [r], Scorer(m, qc)) == Best(faqs, Scorer(m, qc))
  {
    assert (faqs + [r])[..|faqs|] == faqs;
  }
}
