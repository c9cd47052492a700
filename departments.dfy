/**
 * `department_answer`: abbreviations that stand as whole words are expanded,
 * then the department whose cleaned name best matches the question is
 * described, provided its score is 70 or more.
 */
module Departments {
  import opened Wrappers
  import opened Text
  import opened Tables
  import opened Scan

  /** `dept_abbr` in insertion order. */
  const Abbreviations: seq<(string, string)> := [
    ("mls", "medical laboratory science"),
    ("it", "information technology"),
    ("arch", "architecture engineering"),
    ("architecture", "architecture engineering"),
    ("dent", "dentistry"),
    ("elt", "english language teaching"),
    ("physio", "physiotherapy"),
    ("computer", "computer engineering")]

  const Threshold := 70
  /** Written in three pieces so that the phrase "not available" the router looks for stands apart. */
  const NotFoundText := "This department is " + "not available" + " in the university database. Please check the name \U{2014} it might not exist."

  /** `f" {abbr} " in f" {q_clean} "`: the abbreviation is a space-delimited word of the question. */
  predicate IsWholeWord(qc: string, w: string) {
    Contains(" " + qc + " ", " " + w + " ")
  }

  /** One pass of the loop: when the word test passes, every occurrence is replaced, inside words too. */
  function ExpandStep(qc: string, entry: (string, string)): string {
    if IsWholeWord(qc, entry.0) then Replace(qc, entry.0, entry.1) else qc
  }

  /** The abbreviation loop: each entry sees the question as the earlier entries left it. */
  function Expand(qc: string, entries: seq<(string, string)>): string
    decreases |entries|
  {
    if entries == [] then qc else Expand(ExpandStep(qc, entries[0]), entries[1..])
  }

  /** The loop `for abbr, full in dept_abbr.items(): ... q_clean = q_clean.replace(abbr, full)`. */
  method ExpandAbbreviations(qc: string) returns (r: string)
    ensures r == Expand(qc, Abbreviations)
  {
    r := qc;
    var i := 0;
    while i < |Abbreviations|
      invariant 0 <= i <= |Abbreviations|
      invariant Expand(r, Abbreviations[i..]) == Expand(qc, Abbreviations)
    {
      assert Abbreviations[i..][1..] == Abbreviations[i + 1..];
      var (abbr, full) := Abbreviations[i];
      if IsWholeWord(r, abbr) {
        r := Replace(r, abbr, full);
      }
      i := i + 1;
    }
  }

  /** A question holding no abbreviation as a whole word is left as it is. */
  lemma {:induction false} ExpandWithoutWholeWords(qc: string, entries: seq<(string, string)>)
    requires forall k :: 0 <= k < |entries| ==> !IsWholeWord(qc, entries[k].0)
    ensures Expand(qc, entries) == qc
    decreases |entries|
  {
    if entries != [] {
      assert ExpandStep(qc, entries[0]) == qc;
      assert forall k :: 0 <= k < |entries[1..]| ==> entries[1..][k] == entries[k + 1];
      ExpandWithoutWholeWords(qc, entries[1..]);
    }
  }

  /** A pass changes the question only when its abbreviation is a whole word and occurs in it. */
  lemma ExpandStepChanges(qc: string, entry: (string, string))
    requires entry.0 != [] && ExpandStep(qc, entry) != qc
    ensures IsWholeWord(qc, entry.0) && Contains(qc, entry.0)
  {
    if !Contains(qc, entry.0) {
      ReplaceAbsent(qc, entry.0, entry.1);
    }
  }

  /** "it" is a whole word of "it facility". */
  lemma ItIsWholeWord()
    ensures IsWholeWord("it facility", "it")
  {
    var padded := " " + "it facility" + " ";
    assert padded[0..4] == " it ";
    ContainsAt(padded, " it ", 0);
  }

  /** The only "it" in " facility" is the one inside the word. */
  lemma FacilityRewritten(rep: string)
    ensures Replace(" facility", "it", rep) == " facil" + rep + "y"
  {
    var tail := " facility";
    assert tail == " facil" + "it" + "y";
    forall j | 0 <= j < 6 ensures !("it" <= (" facil" + "it" + "y")[j..]) {
      assert j != 4 ==> tail[j] != 'i';
      assert tail[5] == 'l';
    }
    ReplaceAfterPrefix(" facil", "it", rep, "y");
    NotContainsWithoutFirst("y", "it");
    ReplaceAbsent("y", "it", rep);
  }

  /**
   * A whole-word abbreviation is also replaced inside other words: in
   * "it facility" the word "it" passes the test, and the "it" inside
   * "facility" is rewritten as well.
   */
  lemma ItRewritesInsideWords()
    ensures ExpandStep("it facility", Abbreviations[1])
      == "information technology" + " facil" + "information technology" + "y"
  {
    var rep := "information technology";
    assert Abbreviations[1] == ("it", rep);
    ItIsWholeWord();
    assert "it facility" == [] + "it" + " facility";
    ReplaceAfterPrefix([], "it", rep, " facility");
    FacilityRewritten(rep);
  }

  function Score(m: Matcher, qe: string, d: Dept): int {
    m.partialRatio(qe, Clean(d.name))
  }

  function Scorer(m: Matcher, qe: string): Dept -> int {
    (d: Dept) => Score(m, qe, d)
  }

  function DeptText(d: Dept): string {
    d.name + " \U{2013} " + d.description + " After graduation: " + d.career + "."
  }

  /** What `department_answer(q)` returns. */
  function DepartmentReply(m: Matcher, depts: seq<Dept>, q: string): string {
    var qe := Expand(Clean(q), Abbreviations);
    var p := Best(depts, Scorer(m, qe));
    if p.row.None? || p.score < Threshold then NotFoundText else DeptText(depts[p.row.value])
  }

  /**
   * `department_answer(q)`: no department scoring 70 against the expanded
   * question gives the not-found text; otherwise the earliest best-scoring
   * department is described.
   */
  method DepartmentAnswer(m: Matcher, depts: seq<Dept>, q: string) returns (a: string)
    ensures a == DepartmentReply(m, depts, q)
    ensures (forall j :: 0 <= j < |depts| ==> Score(m, Expand(Clean(q), Abbreviations), depts[j]) < Threshold) ==> a == NotFoundText
    ensures (exists j :: 0 <= j < |depts| && Score(m, Expand(Clean(q), Abbreviations), depts[j]) >= Threshold) ==>
      exists k :: 0 <= k < |depts|
        && (forall j :: 0 <= j < |depts| ==> Score(m, Expand(Clean(q), Abbreviations), depts[j]) <= Score(m, Expand(Clean(q), Abbreviations), depts[k]))
        && (forall j :: 0 <= j < k ==> Score(m, Expand(Clean(q), Abbreviations), depts[j]) < Score(m, Expand(Clean(q), Abbreviations), depts[k]))
        && a == DeptText(depts[k])
  {
    var qc := Clean(q);
    var qe := ExpandAbbreviations(qc);
    var best, bestScore := BestRow(depts, Scorer(m, qe));
    BestReaches(depts, Scorer(m, qe), Threshold);
    if best.None? || bestScore < Threshold {
      return NotFoundText;
    }
    return DeptText(depts[best.value]);
  }
}
