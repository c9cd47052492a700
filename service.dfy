/**
 * `service_answer`: a question about visiting someone is answered from the
 * room table when an occupant's name matches at 65 or more; otherwise the
 * first service keyword in the question names the office to go to.
 */
module Service {
  import opened Wrappers
  import opened Text
  import opened Tables
  import opened Scan

  const VisitWords: seq<string> := ["see", "visit", "meet", "talk to", "speak to", "go to"]
  const VisitThreshold := 65

  /** A value of `service_map`: (room, person, job). */
  datatype Desk = Desk(room: string, person: string, job: string)

  const RegistrationKeys: seq<string> := ["register", "registration", "admission", "enroll", "enrol"]
  const AccountingKeys: seq<string> := ["accounting", "pay", "payment", "fees", "tuition"]

  const RegistrationDesk := Desk("G-16", "Ms. Eman Nasih", "registration officer")
  const AccountingDesk := Desk("G-17", "Mr. Muhammed Jamal", "accounting officer")

  /** `service_map` as (keyword, desk) pairs in insertion order. */
  const ServiceMap: seq<(string, Desk)> := [
    ("register", RegistrationDesk), ("registration", RegistrationDesk), ("admission", RegistrationDesk),
    ("enroll", RegistrationDesk), ("enrol", RegistrationDesk),
    ("accounting", AccountingDesk), ("pay", AccountingDesk), ("payment", AccountingDesk),
    ("fees", AccountingDesk), ("tuition", AccountingDesk)]

  const ClarifyText := "Could you tell me a bit more about what you want to do? I'll guide you to the right place."

  function NameScore(m: Matcher, qc: string, r: Room): int {
    m.partialRatio(qc, Clean(r.person))
  }

  function NameScorer(m: Matcher, qc: string): Room -> int {
    (r: Room) => NameScore(m, qc, r)
  }

  function KeyIn(qc: string): ((string, Desk)) -> bool {
    (e: (string, Desk)) => Contains(qc, e.0)
  }

  function VisitText(r: Room): string {
    "You can visit " + r.person + ", " + r.purpose + ", in room " + r.roomNumber + " on the " + r.floor + " floor."
  }

  function DeskText(d: Desk): string {
    "You can go to room " + d.room + " and meet " + d.person + ", the " + d.job + "."
  }

  /** The service-map part of `service_answer`: the first key found in the question decides. */
  function DeskReply(qc: string): string {
    match First(ServiceMap, KeyIn(qc))
    case Some(k) => DeskText(ServiceMap[k].1)
    case None => ClarifyText
  }

  /** What `service_answer(q)` returns. */
  function ServiceReply(m: Matcher, rooms: seq<Room>, q: string): string {
    var qc := Clean(q);
    if ContainsAny(qc, VisitWords) then
      var p := Best(rooms, NameScorer(m, qc));
      if p.row.Some? && p.score >= VisitThreshold then VisitText(rooms[p.row.value]) else DeskReply(qc)
    else DeskReply(qc)
  }

  /**
   * `service_answer(q)`: the visit answer names the earliest best-matching
   * occupant; without a visit word, or without a name reaching 65, the
   * answer comes from the service map alone.
   */
  method ServiceAnswer(m: Matcher, rooms: seq<Room>, q: string) returns (a: string)
    ensures a == ServiceReply(m, rooms, q)
    ensures !ContainsAny(Clean(q), VisitWords) ==> a == DeskReply(Clean(q))
    ensures (forall j :: 0 <= j < |rooms| ==> NameScore(m, Clean(q), rooms[j]) < VisitThreshold) ==> a == DeskReply(Clean(q))
    ensures ContainsAny(Clean(q), VisitWords) && (exists j :: 0 <= j < |rooms| && NameScore(m, Clean(q), rooms[j]) >= VisitThreshold) ==>
      exists k :: 0 <= k < |rooms|
        && (forall j :: 0 <= j < |rooms| ==> NameScore(m, Clean(q), rooms[j]) <= NameScore(m, Clean(q), rooms[k]))
        && (forall j :: 0 <= j < k ==> NameScore(m, Clean(q), rooms[j]) < NameScore(m, Clean(q), rooms[k]))
        && a == VisitText(rooms[k])
  {
    var qc := Clean(q);
    if ContainsAny(qc, VisitWords) {
      var best, bestScore := BestRow(rooms, NameScorer(m, qc));
      BestReaches(rooms, NameScorer(m, qc), VisitThreshold);
      if best.Some? && bestScore >= VisitThreshold {
        return VisitText(rooms[best.value]);
      }
    }
    var k := FindFirst(ServiceMap, KeyIn(qc));
    if k.Some? {
      return DeskText(ServiceMap[k.value].1);
    }
    return ClarifyText;
  }

  /** The first five keys of the map lead to the registration desk, the last five to accounting. */
  lemma MapLayout()
    ensures |ServiceMap| == 10
    ensures forall i :: 0 <= i < 5 ==> ServiceMap[i] == (RegistrationKeys[i], RegistrationDesk)
    ensures forall i :: 5 <= i < 10 ==> ServiceMap[i] == (AccountingKeys[i - 5], AccountingDesk)
  {
  }

  /** Any registration keyword sends the question to G-16, since those keys come first in the map. */
  lemma RegistrationKeysWin(qc: string)
    requires ContainsAny(qc, RegistrationKeys)
    ensures DeskReply(qc) == DeskText(RegistrationDesk)
  {
    MapLayout();
    var i :| 0 <= i < |RegistrationKeys| && Contains(qc, RegistrationKeys[i]);
    assert KeyIn(qc)(ServiceMap[i]);
    var k := First(ServiceMap, KeyIn(qc)).value;
    assert k <= i < 5;
    assert ServiceMap[k].1 == RegistrationDesk;
  }

  /** Without a registration keyword, any accounting keyword sends the question to G-17. */
  lemma AccountingKeysNext(qc: string)
    requires !ContainsAny(qc, RegistrationKeys) && ContainsAny(qc, AccountingKeys)
    ensures DeskReply(qc) == DeskText(AccountingDesk)
  {
    var i :| 0 <= i < |AccountingKeys| && Contains(qc, AccountingKeys[i]);
    assert KeyIn(qc)(ServiceMap[5 + i]);
    var k := First(ServiceMap, KeyIn(qc));
    assert k.Some? && k.value <= 5 + i;
    MapLayout();
    assert k.value >= 5;
  }

  /** With no keyword of the map in the question the answer is the clarifying prompt. */
  lemma NoKeyAsksForMore(qc: string)
    requires !ContainsAny(qc, RegistrationKeys) && !ContainsAny(qc, AccountingKeys)
    ensures DeskReply(qc) == ClarifyText
  {
    MapLayout();
    assert First(ServiceMap, KeyIn(qc)).None?;
  }

  /**
   * A question without a visit word is answered from the service map whatever
   * the room table and the fuzzy ratios are: "I want to pay tuition" reaches
   * the accounting office.
   */
  lemma NoVisitWordIgnoresNames(m1: Matcher, rooms1: seq<Room>, m2: Matcher, rooms2: seq<Room>, q: string)
    requires !ContainsAny(Clean(q), VisitWords)
    ensures ServiceReply(m1, rooms1, q) == ServiceReply(m2, rooms2, q) == DeskReply(Clean(q))
  {
  }
}
