/**
 * `detect_intent`: an ordered cascade of keyword rules over the cleaned
 * question. The first rule that fires decides the label; "general" is the
 * default. The "room" and "staff" labels are each reached by two rules at
 * different places in the order.
 */
module Intent {
  import opened Text

  datatype Intent = AboutBot | Creator | University | Service | Department | Room | Staff | Chat | General

  /** The label as the JSON envelope spells it. */
  function Name(i: Intent): (r: string)
    ensures r in ["about_bot", "creator", "university", "service", "department", "room", "staff", "chat", "general"]
  {
    match i
    case AboutBot => "about_bot"
    case Creator => "creator"
    case University => "university"
    case Service => "service"
    case Department => "department"
    case Room => "room"
    case Staff => "staff"
    case Chat => "chat"
    case General => "general"
  }

  const AboutBotPhrases: seq<string> := [
    "who are you", "what are you", "why were you made", "about ti bot", "what is ti bot",
    "tell me about yourself", "information about you"]
  const CreatorPhrases: seq<string> := [
    "who built you", "who made you", "who created you", "who developed you",
    "your developer", "your creator", "why were you built", "why did they build you",
    "who is your founder", "founder"]
  const UniversityWords: seq<string> := [
    "tiu", "tishk", "tishk international university", "tiu-sulaimani", "tiu sulaimani", "university info"]
  const ServiceWords: seq<string> := ["i want to", "i wanna", "where can i", "i need to", "i need", "i want"]
  const DepartmentWords: seq<string> := ["department", "major", "study", "graduate"]
  const HowMany: seq<string> := ["how many"]
  const TitleWords: seq<string> := ["mr", "ms", "mrs", "dr", "professor", "lecturer"]
  const Where: seq<string> := ["where"]
  const StaffWords: seq<string> := ["who is", "whos", "mr", "ms", "lecturer", "professor"]
  const RoomCues: seq<string> := ["g-", "room", "office", "what is", "where is"]
  const ChatWords: seq<string> := ["hi", "hello", "hey", "how are you", "joke"]

  /** `detect_intent(q)`: the cascade runs on the cleaned question. */
  function DetectIntent(q: string): Intent {
    Classify(Clean(q))
  }

  /** The body of `detect_intent` after `qn = clean(q)`, written as the source writes it: a cascade of ifs. */
  function Classify(qn: string): Intent {
    if ContainsAny(qn, AboutBotPhrases) then AboutBot
    else if ContainsAny(qn, CreatorPhrases) then Creator
    else if ContainsAny(qn, UniversityWords) then University
    else if ContainsAny(qn, ServiceWords) then Service
    else if ContainsAny(qn, DepartmentWords) then Department
    else if Contains(qn, "how many") then Room
    else if ContainsAny(qn, TitleWords) && Contains(qn, "where") then Staff
    else if ContainsAny(qn, StaffWords) then Staff
    else if ContainsAny(qn, RoomCues) then Room
    else if ContainsAny(qn, ChatWords) then Chat
    else General
  }

  /**
   * The same classifier as an explicit rule table: a rule fires when the
   * cleaned question holds one of `anyOf` and every word of `allOf`.
   */
  datatype Rule = Rule(anyOf: seq<string>, allOf: seq<string>, outcome: Intent)

  predicate Fires(r: Rule, qn: string) {
    ContainsAny(qn, r.anyOf) && forall k :: 0 <= k < |r.allOf| ==> Contains(qn, r.allOf[k])
  }

  const Rules: seq<Rule> := [
    Rule(AboutBotPhrases, [], AboutBot),
    Rule(CreatorPhrases, [], Creator),
    Rule(UniversityWords, [], University),
    Rule(ServiceWords, [], Service),
    Rule(DepartmentWords, [], Department),
    Rule(HowMany, [], Room),
    Rule(TitleWords, Where, Staff),
    Rule(StaffWords, [], Staff),
    Rule(RoomCues, [], Room),
    Rule(ChatWords, [], Chat)]

  /** First-match evaluation of a rule table from position `i`; General when none fires. */
  function FirstMatch(rules: seq<Rule>, qn: string, i: nat): Intent
    decreases |rules| - i
  {
    if i >= |rules| then General
    else if Fires(rules[i], qn) then rules[i].outcome
    else FirstMatch(rules, qn, i + 1)
  }

  lemma FirstMatchUnfold(qn: string, i: nat)
    requires i < |Rules|
    ensures FirstMatch(Rules, qn, i) == if Fires(Rules[i], qn) then Rules[i].outcome else FirstMatch(Rules, qn, i + 1)
  {
  }

  /** The cascade and the rule table agree on every cleaned question. */
  lemma ClassifyIsFirstMatch(qn: string)
    ensures Classify(qn) == FirstMatch(Rules, qn, 0)
  {
    assert ContainsAny(qn, HowMany) == Contains(qn, "how many") by {
      assert HowMany[0] == "how many";
    }
    assert (forall k :: 0 <= k < |Where| ==> Contains(qn, Where[k])) == Contains(qn, "where") by {
      assert Where[0] == "where";
    }
    FirstMatchUnfold(qn, 0); FirstMatchUnfold(qn, 1); FirstMatchUnfold(qn, 2); FirstMatchUnfold(qn, 3);
    FirstMatchUnfold(qn, 4); FirstMatchUnfold(qn, 5); FirstMatchUnfold(qn, 6); FirstMatchUnfold(qn, 7);
    FirstMatchUnfold(qn, 8); FirstMatchUnfold(qn, 9);
    assert FirstMatch(Rules, qn, 10) == General;
  }

  /** First-match semantics: rule `k` decides whenever it fires and no earlier rule does. */
  lemma {:induction false} FirstMatchPicks(rules: seq<Rule>, qn: string, i: nat, k: nat)
    requires i <= k < |rules| && Fires(rules[k], qn)
    requires forall j :: i <= j < k ==> !Fires(rules[j], qn)
    ensures FirstMatch(rules, qn, i) == rules[k].outcome
    decreases k - i
  {
    if i < k {
      FirstMatchPicks(rules, qn, i + 1, k);
    }
  }

  /** When no rule fires the default is General. */
  lemma {:induction false} FirstMatchDefault(rules: seq<Rule>, qn: string, i: nat)
    requires forall j :: i <= j < |rules| ==> !Fires(rules[j], qn)
    ensures FirstMatch(rules, qn, i) == General
    decreases |rules| - i
  {
    if i < |rules| {
      FirstMatchDefault(rules, qn, i + 1);
    }
  }

  /** The first rule that fires on the cleaned question wins. */
  lemma FirstFiringRuleWins(q: string, k: nat)
    requires k < |Rules| && Fires(Rules[k], Clean(q))
    requires forall j :: 0 <= j < k ==> !Fires(Rules[j], Clean(q))
    ensures DetectIntent(q) == Rules[k].outcome
  {
    ClassifyIsFirstMatch(Clean(q));
    FirstMatchPicks(Rules, Clean(q), 0, k);
  }

  /** A question on which no rule fires is classified General. */
  lemma NoRuleMeansGeneral(q: string)
    requires forall j :: 0 <= j < |Rules| ==> !Fires(Rules[j], Clean(q))
    ensures DetectIntent(q) == General
  {
    ClassifyIsFirstMatch(Clean(q));
    FirstMatchDefault(Rules, Clean(q), 0);
  }

  /**
   * The department rule precedes the "how many" room rule: a question holding
   * "department" and "how many", and none of the earlier rules' words, is a
   * department question.
   */
  lemma DepartmentBeatsHowMany(q: string)
    requires Contains(Clean(q), "department") && Contains(Clean(q), "how many")
    requires !ContainsAny(Clean(q), AboutBotPhrases) && !ContainsAny(Clean(q), CreatorPhrases)
    requires !ContainsAny(Clean(q), UniversityWords) && !ContainsAny(Clean(q), ServiceWords)
    ensures DetectIntent(q) == Department
  {
    assert DepartmentWords[0] == "department";
  }

  /**
   * The strict staff rule: a title together with "where" classifies as Staff
   * as soon as none of the six earlier rules fires, even when the question
   * also holds a room cue such as "where is".
   */
  lemma TitleWithWhereIsStaff(q: string)
    requires ContainsAny(Clean(q), TitleWords) && Contains(Clean(q), "where")
    requires forall j :: 0 <= j < 6 ==> !Fires(Rules[j], Clean(q))
    ensures DetectIntent(q) == Staff
  {
    assert Fires(Rules[6], Clean(q)) by { assert Where[0] == "where"; }
    FirstFiringRuleWins(q, 6);
  }

  /** The characters of a cleaned G room number. */
  predicate TokenAlphabet(s: string) {
    forall i :: 0 <= i < |s| ==> s[i] == 'g' || s[i] == '-' || IsDigit(s[i])
  }

  /** No phrase of the first three rules occurs in a cleaned G room number. */
  lemma TokenMissesFirstRules(s: string)
    requires TokenAlphabet(s)
    ensures !ContainsAny(s, AboutBotPhrases) && !ContainsAny(s, CreatorPhrases) && !ContainsAny(s, UniversityWords)
  {
    NoneContained(s, AboutBotPhrases);
    NoneContained(s, CreatorPhrases);
    NoneContained(s, UniversityWords);
  }

  /** Nor does a word of the service, department or "how many" rules. */
  lemma TokenMissesMiddleRules(s: string)
    requires TokenAlphabet(s)
    ensures !ContainsAny(s, ServiceWords) && !ContainsAny(s, DepartmentWords) && !Contains(s, "how many")
  {
    NoneContained(s, ServiceWords);
    NoneContained(s, DepartmentWords);
    NotContainsWithout(s, "how many", 0);
  }

  /** Nor does a title or a staff word, nor a chat word. */
  lemma TokenMissesStaffRules(s: string)
    requires TokenAlphabet(s)
    ensures !ContainsAny(s, TitleWords) && !ContainsAny(s, StaffWords) && !ContainsAny(s, ChatWords)
  {
    NoneContained(s, TitleWords);
    NoneContained(s, StaffWords);
    NoneContained(s, ChatWords);
  }

  /** "g16" is its own cleaning, in the token alphabet. */
  lemma UndashedCleaned()
    ensures Clean("g16") == "g16" && TokenAlphabet("g16")
  {
    assert IsClean("g16");
    CleanFixesClean("g16");
  }

  /** "G-16" cleans to "g-16", in the token alphabet. */
  lemma DashedCleaned()
    ensures Clean("G-16") == "g-16" && TokenAlphabet("g-16")
  {
    assert Lower("G-16") == "g-16";
    assert IsClean("g-16");
    CleanFixesClean("g-16");
  }

  /** Without a hyphen no room cue occurs in a cleaned room number. */
  lemma UndashedMissesRoomCues(s: string)
    requires TokenAlphabet(s) && '-' !in s
    ensures !ContainsAny(s, RoomCues)
  {
    NoneContained(s, RoomCues);
  }

  /** A question starting with "g-" holds the room cue "g-". */
  lemma DashedHitsRoomCue(s: string)
    requires |s| >= 2 && s[..2] == "g-"
    ensures ContainsAny(s, RoomCues)
  {
    assert s[0..2] == RoomCues[0];
    ContainsAt(s, RoomCues[0], 0);
  }

  /**
   * The characters of "room " followed by a cleaned G room number, with no
   * "m" directly followed by "r".
   */
  predicate RoomWordAlphabet(s: string) {
    (forall i :: 0 <= i < |s| ==> s[i] in "room g-" || IsDigit(s[i]))
    && forall i :: 0 <= i < |s| - 1 && s[i] == 'm' ==> s[i + 1] != 'r'
  }

  /** None of the first four rules fires in that alphabet. */
  lemma RoomWordMissesFirstRules(s: string)
    requires RoomWordAlphabet(s)
    ensures !ContainsAny(s, AboutBotPhrases) && !ContainsAny(s, CreatorPhrases)
    ensures !ContainsAny(s, UniversityWords) && !ContainsAny(s, ServiceWords)
  {
    NoneContained(s, AboutBotPhrases);
    NoneContained(s, CreatorPhrases);
    NoneContained(s, UniversityWords);
    NoneContained(s, ServiceWords);
  }

  /**
   * Nor the department rule, whose words each lack their third character
   * there, nor "how many", nor the strict staff rule, which needs "where".
   */
  lemma RoomWordMissesMiddleRules(s: string)
    requires RoomWordAlphabet(s)
    ensures !ContainsAny(s, DepartmentWords) && !Contains(s, "how many") && !Contains(s, "where")
  {
    forall k | 0 <= k < |DepartmentWords| ensures !Contains(s, DepartmentWords[k]) {
      NotContainsWithout(s, DepartmentWords[k], 2);
    }
    NotContainsWithout(s, "how many", 0);
    NotContainsWithout(s, "where", 0);
  }

  /** Nor a staff word: both letters of "mr" may occur, but never side by side. */
  lemma RoomWordMissesStaffWords(s: string)
    requires RoomWordAlphabet(s)
    ensures !ContainsAny(s, StaffWords)
  {
    forall k | 0 <= k < |StaffWords| ensures !Contains(s, StaffWords[k]) {
      if k == 2 {
        NotContainsPair(s, StaffWords[k]);
      } else if k == 5 {
        NotContainsWithout(s, StaffWords[k], 0);
      } else {
        NotContainsWithout(s, StaffWords[k], 1);
      }
    }
  }

  /** A cleaned question in that alphabet holding "room" is classified Room. */
  lemma RoomWordClassify(s: string)
    requires RoomWordAlphabet(s) && Contains(s, "room")
    ensures Classify(s) == Room
  {
    RoomWordMissesFirstRules(s);
    RoomWordMissesMiddleRules(s);
    RoomWordMissesStaffWords(s);
    assert RoomCues[1] == "room";
  }

  /**
   * "room " followed by a cleaned G room number, in any of its spellings,
   * is classified Room.
   */
  lemma RoomWordThenTokenIsRoom(u: string)
    requires TokenAlphabet(u)
    ensures Classify("room " + u) == Room
  {
    var s := "room " + u;
    assert RoomWordAlphabet(s) by {
      forall i | 0 <= i < |s| ensures s[i] in "room g-" || IsDigit(s[i]) {
        if i >= 5 {
          assert s[i] == u[i - 5];
        }
      }
      forall i | 0 <= i < |s| - 1 && s[i] == 'm' ensures s[i + 1] != 'r' {
        if i < 5 {
          assert s[i + 1] == "room "[i + 1];
        }
      }
    }
    assert s[0..4] == "room";
    ContainsAt(s, "room", 0);
    RoomWordClassify(s);
  }

  /**
   * A question that is only an undashed room number, such as "g16", fires
   * no rule and is classified General.
   */
  lemma UndashedTokenIsGeneral()
    ensures DetectIntent("g16") == General
  {
    var s := "g16";
    UndashedCleaned();
    TokenMissesFirstRules(s);
    TokenMissesMiddleRules(s);
    TokenMissesStaffRules(s);
    assert '-' !in s;
    UndashedMissesRoomCues(s);
  }

  /**
   * A question that is only a dashed room number, such as "G-16", fires
   * the room-cue rule through "g-" and is classified Room.
   */
  lemma DashedTokenIsRoom()
    ensures DetectIntent("G-16") == Room
  {
    var s := "g-16";
    DashedCleaned();
    TokenMissesFirstRules(s);
    TokenMissesMiddleRules(s);
    TokenMissesStaffRules(s);
    DashedHitsRoomCue(s);
  }
}
