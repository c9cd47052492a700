/**
 * `room_answer`: "how many" questions count rows of the room table by a
 * predicate chosen from the question; other questions look a room number up.
 */
module Rooms {
  import opened Wrappers
  import opened Text
  import opened Tables
  import opened Scan

  // ---- Count questions ----

  const WcWords: seq<string> := ["wc", "toilet", "bathroom", "restroom"]

  /** `department_labs`: each key maps to the same department word. */
  const LabDepartments: seq<(string, string)> := [
    ("nursing", "nursing"), ("dentistry", "dentistry"), ("physiotherapy", "physiotherapy"),
    ("architecture", "architecture"), ("pharmacy", "pharmacy")]

  /** Which rows a "how many" question counts. */
  datatype CountQuery = WcRooms | PrayerRooms | ComputingLabs | DepartmentLabs(dept: string) | AllLabs

  function KeyIn(qc: string): ((string, string)) -> bool {
    (e: (string, string)) => Contains(qc, e.0)
  }

  /** The branch of the count cascade that a cleaned question takes. */
  function CountKind(qc: string): CountQuery {
    if ContainsAny(qc, WcWords) then WcRooms
    else if Contains(qc, "prayer") then PrayerRooms
    else if Contains(qc, "it") || Contains(qc, "computer") then ComputingLabs
    else
      match First(LabDepartments, KeyIn(qc))
      case Some(k) => DepartmentLabs(LabDepartments[k].1)
      case None => AllLabs
  }

  /** The row predicate each branch counts, on the cleaned Purpose and Department cells. */
  predicate Counted(kind: CountQuery, r: Room) {
    var purpose := Clean(r.purpose);
    var dept := Clean(r.department);
    match kind
    case WcRooms => Contains(purpose, "wc")
    case PrayerRooms => Contains(purpose, "prayer")
    case ComputingLabs =>
      Contains(purpose, "lab") && (Contains(dept, "information technology") || Contains(dept, "computer engineering"))
    case DepartmentLabs(d) => Contains(purpose, "lab") && Contains(dept, d)
    case AllLabs => Contains(purpose, "lab")
  }

  function CountedBy(kind: CountQuery): Room -> bool {
    (r: Room) => Counted(kind, r)
  }

  function CountText(kind: CountQuery, n: nat): string {
    var count := NatToString(n);
    match kind
    case WcRooms => "There are " + count + " WC rooms in the university."
    case PrayerRooms => "There are " + count + " prayer rooms in the university."
    case ComputingLabs => "There are " + count + " labs shared by IT and Computer Engineering departments."
    case DepartmentLabs(d) => "There are " + count + " " + d + " labs in the university."
    case AllLabs => "There are " + count + " labs in the university."
  }

  // ---- Room numbers: re.search(r"\b([Gg]-?\d{1,3}|\d-\d{1,3})\b", q, re.IGNORECASE) ----

  /** `\w` restricted to ASCII. */
  predicate IsWordChar(c: char) {
    'a' <= c <= 'z' || 'A' <= c <= 'Z' || IsDigit(c) || c == '_'
  }

  /** The length of the run of digits starting at `j`. */
  function DigitRun(q: string, j: nat): (n: nat)
    ensures n == 0 || j + n <= |q|
    ensures forall k :: j <= k < j + n ==> IsDigit(q[k])
    ensures j + n < |q| ==> !IsDigit(q[j + n])
    decreases |q| - j
  {
    if j < |q| && IsDigit(q[j]) then 1 + DigitRun(q, j + 1) else 0
  }

  /**
   * Where `\d{1,3}\b` ends when started at `j`. A shorter prefix of a digit
   * run is always followed by a digit, so only the whole run can match.
   */
  function DigitsEnd(q: string, j: nat): (e: Option<nat>)
    ensures e.Some? ==> j < e.value <= |q|
  {
    var n := DigitRun(q, j);
    if 1 <= n <= 3 && (j + n == |q| || !IsWordChar(q[j + n])) then Some(j + n) else None
  }

  /** Where a match of the room pattern starting at `i` ends, if one does. */
  function MatchAt(q: string, i: nat): (e: Option<nat>)
    requires i < |q|
    ensures e.Some? ==> i < e.value <= |q|
  {
    if i > 0 && IsWordChar(q[i - 1]) then None
    else if q[i] == 'G' || q[i] == 'g' then DigitsEnd(q, if i + 1 < |q| && q[i + 1] == '-' then i + 2 else i + 1)
    else if IsDigit(q[i]) && i + 1 < |q| && q[i + 1] == '-' then DigitsEnd(q, i + 2)
    else None
  }

  /**
   * `re.search` from position `i`: the leftmost position at which the
   * pattern matches, with the end of that match.
   */
  function FindMatch(q: string, i: nat): (m: Option<(nat, nat)>)
    ensures m.None? ==> forall j :: i <= j < |q| ==> MatchAt(q, j).None?
    ensures m.Some? ==> i <= m.value.0 < |q| && MatchAt(q, m.value.0) == Some(m.value.1)
    ensures m.Some? ==> forall j :: i <= j < m.value.0 ==> MatchAt(q, j).None?
    decreases |q| - i
  {
    if i >= |q| then None
    else
      match MatchAt(q, i)
      case Some(e) => Some((i, e))
      case None => FindMatch(q, i + 1)
  }

  /** `match.group()`: the text of the leftmost match, which occurs in `q`. */
  function FindToken(q: string, i: nat): (t: Option<string>)
    ensures t.None? <==> forall j :: i <= j < |q| ==> MatchAt(q, j).None?
    ensures t.Some? ==> Contains(q, t.value)
  {
    match FindMatch(q, i)
    case None => None
    case Some((k, e)) =>
      assert MatchAt(q, k).Some? && q[k..e] == q[k..MatchAt(q, k).value];
      ContainsAt(q, q[k..e], k);
      Some(q[k..e])
  }

  /**
   * The token is the text of the leftmost match: when the pattern first
   * matches at `k`, the token is `q[k..e]` for the end `e` of that match.
   */
  lemma FindTokenLeftmost(q: string, i: nat, k: nat)
    requires i <= k < |q| && MatchAt(q, k).Some?
    requires forall j :: i <= j < k ==> MatchAt(q, j).None?
    ensures FindToken(q, i) == Some(q[k..MatchAt(q, k).value])
  {
    var m := FindMatch(q, i);
    assert m.Some? && m.value.0 == k;
  }

  /** `rn = match.group().upper()`, then "G12" becomes "G-12". */
  function NormalizeRoomNumber(token: string): string {
    var up := Upper(token);
    if |up| > 0 && up[0] == 'G' && '-' !in up then "G-" + up[1..] else up
  }

  // ---- Answers ----

  const AskAgainText := "Could you please tell me the room number again? I want to be sure I find the right room."
  /** Written in three pieces so that the phrase "double-check" the router looks for stands apart. */
  const UnknownRoomText := "I can't find information about this room. Please " + "double-check" + " the number."

  /** The sentence for a found room; the occupant clause only when Person_in_Room is not empty. */
  function RoomText(rn: string, r: Room): string {
    if r.person != "" then
      "Room " + rn + " is on the " + r.floor + " floor. It is used for " + r.purpose + ", and " + r.person + " uses this room."
    else
      "Room " + rn + " is on the " + r.floor + " floor. It is used for " + r.purpose + "."
  }

  function NumberIs(rn: string): Room -> bool {
    (r: Room) => Upper(r.roomNumber) == rn
  }

  /** The room-number part of `room_answer(q)`; the pattern is searched in the raw question. */
  function LookupReply(rooms: seq<Room>, q: string): string {
    match FindToken(q, 0)
    case None => AskAgainText
    case Some(token) => NumberReply(rooms, NormalizeRoomNumber(token))
  }

  /** What `room_answer(q)` returns. */
  function RoomReply(rooms: seq<Room>, q: string): string {
    var qc := Clean(q);
    if Contains(qc, "how many") then
      var kind := CountKind(qc);
      CountText(kind, |Matching(rooms, CountedBy(kind))|)
    else LookupReply(rooms, q)
  }

  /**
   * `room_answer(q)`: a count question reports the number of rows that its
   * branch's predicate holds of; any other question is answered by the first
   * row whose upper-cased Room_Number equals the normalised token.
   */
  method RoomAnswer(rooms: seq<Room>, q: string) returns (a: string)
    ensures a == RoomReply(rooms, q)
  {
    var qc := Clean(q);
    if Contains(qc, "how many") {
      if ContainsAny(qc, WcWords) {
        var count := CountWhere(rooms, CountedBy(WcRooms));
        return CountText(WcRooms, count);
      }
      if Contains(qc, "prayer") {
        var count := CountWhere(rooms, CountedBy(PrayerRooms));
        return CountText(PrayerRooms, count);
      }
      if Contains(qc, "it") || Contains(qc, "computer") {
        var count := CountWhere(rooms, CountedBy(ComputingLabs));
        return CountText(ComputingLabs, count);
      }
      var k := FindFirst(LabDepartments, KeyIn(qc));
      if k.Some? {
        var dept := LabDepartments[k.value].1;
        var count := CountWhere(rooms, CountedBy(DepartmentLabs(dept)));
        return CountText(DepartmentLabs(dept), count);
      }
      var total := CountWhere(rooms, CountedBy(AllLabs));
      return CountText(AllLabs, total);
    }
    var token := FindToken(q, 0);
    if token.Some? {
      var rn := NormalizeRoomNumber(token.value);
      var k := FindFirst(rooms, NumberIs(rn));
      if k.Some? {
        return RoomText(rn, rooms[k.value]);
      }
      return UnknownRoomText;
    }
    return AskAgainText;
  }

  // ---- Properties ----

  /**
   * How a question that is not a count question is answered: no token asks
   * again, a token naming no row gives the double-check text, and a known
   * number is described from the first row that has it.
   */
  lemma LookupReplyCases(rooms: seq<Room>, q: string)
    ensures FindToken(q, 0).None? ==> LookupReply(rooms, q) == AskAgainText
    ensures FindToken(q, 0).Some?
      && (forall j :: 0 <= j < |rooms| ==> Upper(rooms[j].roomNumber) != NormalizeRoomNumber(FindToken(q, 0).value))
      ==> LookupReply(rooms, q) == UnknownRoomText
    ensures FindToken(q, 0).Some?
      && (exists j :: 0 <= j < |rooms| && Upper(rooms[j].roomNumber) == NormalizeRoomNumber(FindToken(q, 0).value))
      ==> (exists k :: (0 <= k < |rooms| && Upper(rooms[k].roomNumber) == NormalizeRoomNumber(FindToken(q, 0).value)
                       && (forall j :: 0 <= j < k ==> Upper(rooms[j].roomNumber) != NormalizeRoomNumber(FindToken(q, 0).value))
                       && LookupReply(rooms, q) == RoomText(NormalizeRoomNumber(FindToken(q, 0).value), rooms[k])))
  {
    if FindToken(q, 0).Some? {
      var rn := NormalizeRoomNumber(FindToken(q, 0).value);
      assert LookupReply(rooms, q) == NumberReply(rooms, rn);
      NumberReplyCases(rooms, rn);
    }
  }

  /** The answer for a normalised room number `rn`. */
  function NumberReply(rooms: seq<Room>, rn: string): string {
    match First(rooms, NumberIs(rn))
    case Some(k) => RoomText(rn, rooms[k])
    case None => UnknownRoomText
  }

  lemma NumberReplyCases(rooms: seq<Room>, rn: string)
    ensures (forall j :: 0 <= j < |rooms| ==> Upper(rooms[j].roomNumber) != rn) ==> NumberReply(rooms, rn) == UnknownRoomText
    ensures (exists j :: 0 <= j < |rooms| && Upper(rooms[j].roomNumber) == rn) ==>
      (exists k :: (0 <= k < |rooms| && Upper(rooms[k].roomNumber) == rn
                    && (forall j :: 0 <= j < k ==> Upper(rooms[j].roomNumber) != rn)
                    && NumberReply(rooms, rn) == RoomText(rn, rooms[k])))
  {
    var f := First(rooms, NumberIs(rn));
    if f.Some? {
      var k := f.value;
      assert NumberReply(rooms, rn) == RoomText(rn, rooms[k]);
      assert Upper(rooms[k].roomNumber) == rn by {
        assert NumberIs(rn)(rooms[k]);
      }
      assert forall j :: 0 <= j < k ==> Upper(rooms[j].roomNumber) != rn by {
        forall j | 0 <= j < k ensures Upper(rooms[j].roomNumber) != rn {
          assert !NumberIs(rn)(rooms[j]);
        }
      }
    } else {
      assert forall j :: 0 <= j < |rooms| ==> Upper(rooms[j].roomNumber) != rn by {
        forall j | 0 <= j < |rooms| ensures Upper(rooms[j].roomNumber) != rn {
          assert !NumberIs(rn)(rooms[j]);
        }
      }
    }
  }

  predicate AllDigits(d: string) {
    forall i :: 0 <= i < |d| ==> IsDigit(d[i])
  }

  /** A run of exactly `n` digits at `j`, ended by a non-digit or the end of `q`. */
  lemma {:induction false} DigitRunExact(q: string, j: nat, n: nat)
    requires j + n <= |q| && forall k :: j <= k < j + n ==> IsDigit(q[k])
    requires j + n == |q| || !IsDigit(q[j + n])
    ensures DigitRun(q, j) == n
    decreases n
  {
    if n > 0 {
      DigitRunExact(q, j + 1, n - 1);
    }
  }

  /** The four spellings of a room number that the pattern accepts with a G. */
  const GForms: seq<string> := ["g", "G", "g-", "G-"]

  /**
   * The first `n` characters of `q` hold no room number: the pattern matches
   * at no position before `n`, and position `n` is a word boundary on its
   * left.
   */
  predicate QuietPrefix(q: string, n: nat)
    requires n <= |q|
  {
    (forall j :: 0 <= j < n ==> MatchAt(q, j).None?)
    && (n == 0 || !IsWordChar(q[n - 1]))
  }

  /** A prefix with no g, G or digit, ending at a word boundary, holds no room number. */
  lemma PlainPrefixQuiet(pre: string, rest: string)
    requires forall i :: 0 <= i < |pre| ==> pre[i] != 'g' && pre[i] != 'G' && !IsDigit(pre[i])
    requires pre == [] || !IsWordChar(pre[|pre| - 1])
    ensures QuietPrefix(pre + rest, |pre|)
  {
    var q := pre + rest;
    forall j | 0 <= j < |pre| ensures MatchAt(q, j).None? {
      assert q[j] == pre[j];
    }
    if pre != [] {
      assert q[|pre| - 1] == pre[|pre| - 1];
    }
  }

  /** A suffix of a question that leaves a word boundary after the digits. */
  predicate QuietSuffix(post: string) {
    post == [] || !IsWordChar(post[0])
  }

  /**
   * "g16", "G16", "g-16" or "G-16" (one to three digits) after a prefix that
   * holds no room number and before a word boundary is found whole.
   */
  lemma GTokenFound(pre: string, p: string, d: string, post: string)
    requires p in GForms && 1 <= |d| <= 3 && AllDigits(d)
    requires QuietPrefix(pre + p + d + post, |pre|) && QuietSuffix(post)
    ensures FindToken(pre + p + d + post, 0) == Some(p + d)
  {
    var q := pre + p + d + post;
    var s := |pre|;
    var start := s + |p|;
    var end := start + |d|;
    assert q[s..end] == p + d;
    forall k | start <= k < end ensures IsDigit(q[k]) {
      assert q[k] == d[k - start];
    }
    assert end == |q| || !IsWordChar(q[end]) by {
      if end < |q| {
        assert q[end] == post[0];
      }
    }
    DigitRunExact(q, start, |d|);
    assert DigitsEnd(q, start) == Some(end);
    assert q[s] == p[0];
    if |p| == 2 {
      assert q[s + 1] == '-';
    } else {
      assert q[s + 1] == d[0];
    }
    assert MatchAt(q, s) == Some(end);
    FindTokenLeftmost(q, 0, s);
  }

  /** Every G spelling normalises to "G-" followed by the digits. */
  lemma GTokenNormalized(p: string, d: string)
    requires p in GForms && AllDigits(d)
    ensures NormalizeRoomNumber(p + d) == "G-" + d
  {
    var up := Upper(p + d);
    if |p| == 1 {
      assert up == "G" + d;
      assert '-' !in up;
      assert up[1..] == d;
    } else {
      assert up == "G-" + d;
    }
  }

  /** Cleaning a G spelling lower-cases the letter and keeps the hyphen and the digits. */
  lemma GTokenCleaned(p: string, d: string)
    requires p in GForms && AllDigits(d)
    ensures Lower(p) == "g" || Lower(p) == "g-"
    ensures Clean(p + d) == Lower(p) + d
  {
    assert Lower(p) == "g" || Lower(p) == "g-" by {
      assert p == "g" || p == "G" || p == "g-" || p == "G-";
    }
    LowerAppend(p, d);
    assert IsClean(d);
    LowerOfClean(d);
    assert IsClean(Lower(p) + d);
  }

  /** A bare room number is not a count question. */
  lemma GTokenNotCount(p: string, d: string)
    requires p in GForms && AllDigits(d)
    ensures !Contains(Clean(p + d), "how many")
  {
    TokenHasNoH(p, d);
    NotContainsWithout(Clean(p + d), "how many", 0);
  }

  /**
   * The room-number round trip: in a question that is not a count question,
   * every spelling of a G room number, after any prefix in which the pattern
   * matches nowhere and that ends at a word boundary, and before a word
   * boundary, gives the answer of the bare
   * "G-" form. That answer is read from the first row whose upper-cased
   * Room_Number is "G-" and the digits, or is the double-check message when
   * no row has it.
   */
  lemma RoomNumberRoundTrip(rooms: seq<Room>, pre: string, p: string, d: string, post: string)
    requires p in GForms && 1 <= |d| <= 3 && AllDigits(d)
    requires QuietPrefix(pre + p + d + post, |pre|) && QuietSuffix(post)
    requires !Contains(Clean(pre + p + d + post), "how many")
    ensures RoomReply(rooms, pre + p + d + post) == RoomReply(rooms, "G-" + d)
    ensures (forall j :: 0 <= j < |rooms| ==> Upper(rooms[j].roomNumber) != "G-" + d) ==>
      RoomReply(rooms, pre + p + d + post) == UnknownRoomText
    ensures (exists j :: 0 <= j < |rooms| && Upper(rooms[j].roomNumber) == "G-" + d) ==>
      (exists k :: (0 <= k < |rooms| && Upper(rooms[k].roomNumber) == "G-" + d
                    && (forall j :: 0 <= j < k ==> Upper(rooms[j].roomNumber) != "G-" + d)
                    && RoomReply(rooms, pre + p + d + post) == RoomText("G-" + d, rooms[k])))
  {
    GTokenReply(rooms, pre, p, d, post);
    DashedReply(rooms, d);
    NumberReplyCases(rooms, "G-" + d);
  }

  /** A G spelling in context is looked up as the normalised "G-" number. */
  lemma GTokenReply(rooms: seq<Room>, pre: string, p: string, d: string, post: string)
    requires p in GForms && 1 <= |d| <= 3 && AllDigits(d)
    requires QuietPrefix(pre + p + d + post, |pre|) && QuietSuffix(post)
    requires !Contains(Clean(pre + p + d + post), "how many")
    ensures RoomReply(rooms, pre + p + d + post) == NumberReply(rooms, "G-" + d)
  {
    GTokenFound(pre, p, d, post);
    GTokenNormalized(p, d);
  }

  /** The bare "G-" form is looked up as itself. */
  lemma DashedReply(rooms: seq<Room>, d: string)
    requires 1 <= |d| <= 3 && AllDigits(d)
    ensures RoomReply(rooms, "G-" + d) == NumberReply(rooms, "G-" + d)
  {
    assert [] + "G-" + d + [] == "G-" + d;
    assert QuietPrefix("G-" + d, 0);
    GTokenFound([], "G-", d, []);
    GTokenNormalized("G-", d);
    GTokenNotCount("G-", d);
  }

  /** The word "room" and a space clean to themselves. */
  lemma RoomWordClean()
    ensures Clean("room ") == "room "
  {
    assert IsClean("room ");
    CleanFixesClean("room ");
  }

  /** A cleaned G room number holds no "h", so no "how many" either. */
  lemma TokenHasNoH(p: string, d: string)
    requires p in GForms && AllDigits(d)
    ensures 'h' !in Clean(p + d)
  {
    GTokenCleaned(p, d);
    assert 'h' !in d;
  }

  /** "room " and a G room number clean to "room ", the lower-cased G form and the digits. */
  lemma RoomWordCleaned(p: string, d: string)
    requires p in GForms && AllDigits(d)
    ensures Clean("room " + p + d) == "room " + (Lower(p) + d)
  {
    assert "room " + p + d == "room " + (p + d);
    CleanAppend("room ", p + d);
    RoomWordClean();
    GTokenCleaned(p, d);
  }

  /** A prefix that cleans to itself and holds no "h", then a G room number, is not a count question. */
  lemma PlainPrefixNotCount(w: string, p: string, d: string)
    requires p in GForms && AllDigits(d)
    requires Clean(w) == w && 'h' !in w
    ensures !Contains(Clean(w + p + d), "how many")
  {
    assert w + p + d == w + (p + d);
    CleanAppend(w, p + d);
    TokenHasNoH(p, d);
    NotContainsWithout(w + Clean(p + d), "how many", 0);
  }

  /** "room " followed by a G room number is not a count question. */
  lemma RoomWordNotCount(p: string, d: string)
    requires p in GForms && AllDigits(d)
    ensures !Contains(Clean("room " + p + d), "how many")
  {
    RoomWordClean();
    PlainPrefixNotCount("room ", p, d);
  }

  /** The round trip for the question "room " followed by a G room number. */
  lemma RoomWordRoundTrip(rooms: seq<Room>, p: string, d: string)
    requires p in GForms && 1 <= |d| <= 3 && AllDigits(d)
    ensures RoomReply(rooms, "room " + p + d) == RoomReply(rooms, "G-" + d)
  {
    var q := "room " + p + d;
    assert q + [] == q;
    assert "room " + (p + d) == q;
    PlainPrefixQuiet("room ", p + d);
    RoomWordNotCount(p, d);
    RoomNumberRoundTrip(rooms, "room ", p, d, []);
  }

  /** "going to " holds a "g" but no room number, whatever follows it. */
  lemma GoingToQuiet(rest: string)
    ensures QuietPrefix("going to " + rest, 9)
  {
    var q := "going to " + rest;
    forall j | 0 <= j < 9 ensures MatchAt(q, j).None? {
      assert q[j] == "going to "[j];
      if j == 0 {
        assert q[1] == 'o';
        assert DigitRun(q, 1) == 0;
      }
    }
    assert q[8] == ' ';
  }

  /** "going to " cleans to itself. */
  lemma GoingWordClean()
    ensures Clean("going to ") == "going to "
  {
    assert IsClean("going to ");
    CleanFixesClean("going to ");
  }

  /** "going to " followed by a G room number is not a count question. */
  lemma GoingToNotCount(p: string, d: string)
    requires p in GForms && AllDigits(d)
    ensures !Contains(Clean("going to " + p + d), "how many")
  {
    GoingWordClean();
    PlainPrefixNotCount("going to ", p, d);
  }

  /**
   * A prefix may hold a "g" that starts no room number: in "going to g16"
   * and its other spellings the pattern first matches at the room number,
   * which is answered as its "G-" form.
   */
  lemma GoingToRoundTrip(rooms: seq<Room>, p: string, d: string)
    requires p in GForms && 1 <= |d| <= 3 && AllDigits(d)
    ensures RoomReply(rooms, "going to " + p + d) == RoomReply(rooms, "G-" + d)
  {
    var q := "going to " + p + d;
    assert q + [] == q;
    assert "going to " + (p + d) == q;
    GoingToQuiet(p + d);
    GoingToNotCount(p, d);
    RoomNumberRoundTrip(rooms, "going to ", p, d, []);
  }

  /** Normalising a normalised room number changes nothing. */
  lemma NormalizeIdempotent(token: string)
    ensures NormalizeRoomNumber(NormalizeRoomNumber(token)) == NormalizeRoomNumber(token)
  {
    var up := Upper(token);
    assert Upper(up) == up;
    if |up| > 0 && up[0] == 'G' && '-' !in up {
      var rn := "G-" + up[1..];
      assert Upper(rn) == rn;
      assert rn[1] == '-';
    }
  }

  /**
   * The "it" test comes before the department labs and matches inside other
   * words: a count question mentioning "architecture" or "university" (and no
   * WC or prayer word) counts the IT and Computer Engineering labs.
   */
  lemma ItInsideWordsWins(qc: string)
    requires Contains(qc, "architecture") || Contains(qc, "university")
    requires !ContainsAny(qc, WcWords) && !Contains(qc, "prayer")
    ensures CountKind(qc) == ComputingLabs
  {
    if Contains(qc, "architecture") {
      assert "architecture"[4..6] == "it";
      ContainsAt("architecture", "it", 4);
      ContainsTrans(qc, "architecture", "it");
    } else {
      assert "university"[7..9] == "it";
      ContainsAt("university", "it", 7);
      ContainsTrans(qc, "university", "it");
    }
  }

  /**
   * The department-lab branch is taken only for a department word in the
   * question with neither "it" nor "computer" in it, and never for
   * architecture, whose entry in the table cannot be reached.
   */
  lemma DepartmentLabsBranch(qc: string, d: string)
    requires CountKind(qc) == DepartmentLabs(d)
    ensures Contains(qc, d) && !Contains(qc, "it") && !Contains(qc, "computer")
    ensures d in ["nursing", "dentistry", "physiotherapy", "pharmacy"]
  {
    assert !ContainsAny(qc, WcWords) && !Contains(qc, "prayer");
    assert !Contains(qc, "it") && !Contains(qc, "computer");
    var k := First(LabDepartments, KeyIn(qc)).value;
    assert k < 5 && KeyIn(qc)(LabDepartments[k]) && d == LabDepartments[k].1;
    assert LabDepartments[k].0 == d;
    if k == 3 {
      assert "architecture"[4..6] == "it";
      ContainsAt("architecture", "it", 4);
      ContainsTrans(qc, "architecture", "it");
    }
  }
}
