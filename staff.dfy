/**
 * `staff_answer`: the room row whose occupant or role best matches the
 * question, accepted at a score of 60 or more; a location sentence when the
 * question asks "where", a fuller one otherwise, and the occupant's photo.
 */
module Staff {
  import opened Wrappers
  import opened Text
  import opened Tables
  import opened Scan

  const Threshold := 60
  /** Written in two pieces so that the phrase "sorry" the router looks for stands apart. */
  const NotFoundText := "Sorry" + ", I don't have any information about this person. Please check the name."
  const PhotoBase := "http://127.0.0.1:8001/photos/"

  function Max3(a: int, b: int, c: int): int {
    if a >= b && a >= c then a else if b >= c then b else c
  }

  /** The row's score: the best of the name ratio, the role ratio and the token-set ratio of both. */
  function Score(m: Matcher, qc: string, r: Room): (s: int)
    ensures 0 <= s <= 100
    ensures s >= m.partialRatio(qc, Clean(r.person)) && s >= m.partialRatio(qc, Clean(r.purpose))
    ensures s >= m.tokenSetRatio(qc, Clean(r.person) + " " + Clean(r.purpose))
    ensures s in {m.partialRatio(qc, Clean(r.person)), m.partialRatio(qc, Clean(r.purpose)),
                  m.tokenSetRatio(qc, Clean(r.person) + " " + Clean(r.purpose))}
  {
    var name := Clean(r.person);
    var role := Clean(r.purpose);
    Max3(m.partialRatio(qc, name), m.partialRatio(qc, role), m.tokenSetRatio(qc, name + " " + role))
  }

  function Scorer(m: Matcher, qc: string): Room -> int {
    (r: Room) => Score(m, qc, r)
  }

  /** The photo URL: present unless the stripped Photo cell is empty, "nan" or "none" in any case. */
  function PhotoUrl(photo: string): (u: Option<string>)
    ensures u.None? <==> IsBlank(photo) || Lower(Strip(photo)) in ["nan", "none"]
    ensures u.Some? ==> u.value == PhotoBase + Strip(photo) && Strip(photo) != []
  {
    StripEmptyIffBlank(photo);
    var name := Strip(photo);
    LowerEmptyIffEmpty(name);
    if name != [] && Lower(name) !in ["nan", "", "none"] then Some(PhotoBase + name) else None
  }

  /** The sentence for the chosen row. */
  function FoundText(r: Room, asksWhere: bool): string {
    if asksWhere then r.person + " is in room " + r.roomNumber + " on the " + r.floor + " floor."
    else r.person + " is our " + r.purpose + ", in room " + r.roomNumber + " on the " + r.floor + " floor. " + r.description
  }

  /** What `staff_answer(q)` returns. */
  function StaffReply(m: Matcher, rooms: seq<Room>, q: string): Answer {
    var qc := Clean(q);
    var p := Best(rooms, Scorer(m, qc));
    if p.score < Threshold then Answer(NotFoundText, None)
    else
      var r := rooms[p.row.value];
      Answer(FoundText(r, Contains(qc, "where")), PhotoUrl(r.photo))
  }

  /**
   * `staff_answer(q)`. No row reaching 60 gives the not-found text and no
   * photo; otherwise the answer describes the earliest row with the highest
   * score.
   */
  method StaffAnswer(m: Matcher, rooms: seq<Room>, q: string) returns (a: Answer)
    ensures a == StaffReply(m, rooms, q)
    ensures (forall j :: 0 <= j < |rooms| ==> Score(m, Clean(q), rooms[j]) < Threshold) ==> a == Answer(NotFoundText, None)
    ensures (exists j :: 0 <= j < |rooms| && Score(m, Clean(q), rooms[j]) >= Threshold) ==>
      exists k :: 0 <= k < |rooms| && Score(m, Clean(q), rooms[k]) >= Threshold
        && (forall j :: 0 <= j < |rooms| ==> Score(m, Clean(q), rooms[j]) <= Score(m, Clean(q), rooms[k]))
        && (forall j :: 0 <= j < k ==> Score(m, Clean(q), rooms[j]) < Score(m, Clean(q), rooms[k]))
        && a == Answer(FoundText(rooms[k], Contains(Clean(q), "where")), PhotoUrl(rooms[k].photo))
  {
    var qc := Clean(q);
    var best, bestScore := BestRow(rooms, Scorer(m, qc));
    BestReaches(rooms, Scorer(m, qc), Threshold);
    if bestScore < Threshold {
      return Answer(NotFoundText, None);
    }
    var row := rooms[best.value];
    var text := FoundText(row, Contains(qc, "where"));
    a := Answer(text, PhotoUrl(row.photo));
  }
}
