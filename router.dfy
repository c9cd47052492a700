/**
 * `ask_router`: classify the question, ask the matching resolver, have the
 * language model rewrite the raw answer, and build the JSON envelope with the
 * intent label, the answer, the photo and the `not_found` flag.
 */
module Router {
  import opened Wrappers
  import opened Text
  import Intent
  import opened Tables
  import Scan
  import Staff
  import Service
  import Rooms
  import Departments
  import General
  import Chat

  // ---- is_not_found_answer ----

  const NotFoundPhrases: seq<string> := [
    "don't have information", "don't have any information", "can't find information", "not available",
    "please check the name", "double-check", "doesn't exist", "might not exist", "sorry", "i don't know"]

  /** `is_not_found_answer(answer)`: the lower-cased answer contains one of the ten phrases. */
  predicate IsNotFound(answer: string) {
    ContainsAny(Lower(answer), NotFoundPhrases)
  }

  /** An answer is flagged as soon as a piece of it lower-cases to one of the phrases, whatever surrounds it. */
  lemma {:induction false} FlaggedBy(pre: string, w: string, post: string)
    requires Lower(w) in NotFoundPhrases
    ensures IsNotFound(pre + w + post)
  {
    LowerAppend(pre + w, post);
    LowerAppend(pre, w);
    var l := Lower(pre + w + post);
    var i := |Lower(pre)|;
    assert l[i..i + |Lower(w)|] == Lower(w);
    ContainsAt(l, Lower(w), i);
    var k :| 0 <= k < |NotFoundPhrases| && NotFoundPhrases[k] == Lower(w);
  }

  /** The flag ignores letter case: lower-casing the answer first changes nothing. */
  lemma FlagIgnoresCase(answer: string)
    ensures IsNotFound(Lower(answer)) == IsNotFound(answer)
  {
    LowerIdempotent(answer);
  }

  // ---- Fixed answers ----

  const TeamPhoto := "http://127.0.0.1:8001/photos/ti_bot_team.jpg"
  const CampusPhoto := "http://127.0.0.1:8001/photos/tiu-campus.jpg"

  const CreatorText :=
    "TI-BOT was proudly created by Mr. Rozh Jaza Rasheed, together with "
    + "two talented students from the 3rd grade in the Computer Engineering department:"
    + "\n\n\U{2022} **Rako Omer**\n\U{2022} **Aryan Abdullah**\n\n"
    + "This AI project was developed to serve students and staff of Tishk International University \U{2013} Sulaimani, "
    + "and to support digital transformation and modern technology in education. "
    + "TI-BOT is the first university AI assistant in Kurdistan."

  const AboutBotText :=
    "I am TI BOT \U{1F916} \U{2014} an intelligent assistant developed for Tishk International University \U{2013} Sulaimani. "
    + "I was created to help students, staff, and visitors by providing accurate information about rooms, "
    + "departments, staff locations, services, and general university assistance.\n\n"
    + "TI BOT was built by Mr. Rozh J. Rasheed (Lecturer) and two talented 3rd grade Computer Engineering students, "
    + "Rako Omer and Aryan Abdullah. Together, they designed and developed me as a modern AI solution to support "
    + "digital transformation at TIU-Sulaimani \U{2014} and to make university services faster, smarter, and more accessible."

  const UniversityText :=
    "Tishk International University \U{2013} Sulaimani (TIU-Sulaimani) is one of the region's leading private "
    + "universities, established in 2014 with a mission to deliver world-class education and contribute to "
    + "scientific progress and community development. The university offers diverse undergraduate programs "
    + "across Engineering, Health Sciences, Architecture, Education, Computer Science, and Business, all taught "
    + "in English to meet global academic and industrial standards."

  // ---- rewrite_friendly ----

  const Styles: map<string, string> := map[
    "staff" := "friendly", "room" := "helpful", "department" := "informative", "general" := "calm",
    "chat" := "warm", "service" := "friendly", "error" := "apologetic"]

  /** `styles.get(intent, "friendly")`. */
  function Style(intent: string): string {
    if intent in Styles then Styles[intent] else "friendly"
  }

  function Prompt(raw: string, style: string): string {
    "Rewrite this in a natural, friendly tone (no greetings).\nStyle: " + style + "\n\nAnswer:\n" + raw
  }

  /**
   * The language model, seen from outside: the content it returns for a
   * prompt, or None when the call raises (or returns no content).
   */
  type Llm = string -> Option<string>

  /** `rewrite_friendly(raw, intent)`: the model's content stripped, or the raw answer on any failure. */
  function RewriteFriendly(llm: Llm, raw: string, intent: string): string {
    match llm(Prompt(raw, Style(intent)))
    case Some(content) => Strip(content)
    case None => raw
  }

  // ---- ask_router ----

  /** The JSON object `{"intent", "answer", "photo", "not_found"}`. */
  datatype Reply = Reply(intent: string, answer: string, photo: Option<string>, notFound: bool)

  /** The tables the resolvers read: rooms (also used for staff and visits), departments, general questions. */
  datatype Data = Data(rooms: seq<Room>, depts: seq<Dept>, faqs: seq<Faq>)

  /**
   * The answer of the resolver an intent is dispatched to, as text and photo.
   * The resolvers that return a bare string get no photo; `pick` stands for
   * the random draw of the chat answers.
   */
  function Resolve(intent: Intent.Intent, m: Matcher, data: Data, pick: nat, q: string): Answer {
    match intent
    case Creator => Answer(CreatorText, Some(TeamPhoto))
    case AboutBot => Answer(AboutBotText, Some(TeamPhoto))
    case University => Answer(UniversityText, Some(CampusPhoto))
    case Staff => Staff.StaffReply(m, data.rooms, q)
    case Service => Answer(Service.ServiceReply(m, data.rooms, q), None)
    case Room => Answer(Rooms.RoomReply(data.rooms, q), None)
    case Department => Answer(Departments.DepartmentReply(m, data.depts, q), None)
    case Chat => Answer(Chat.ChatReply(q, pick), None)
    case General => Answer(General.GeneralReply(m, data.faqs, q), None)
  }

  /** The intents whose answer is fixed text: creator, university and about-bot. */
  predicate IsFixed(intent: Intent.Intent) {
    intent == Intent.Creator || intent == Intent.University || intent == Intent.AboutBot
  }

  /**
   * The envelope built around a resolver answer: the answer is always
   * rewritten; the fixed answers are never flagged and keep their photo, the
   * staff answer is flagged on its raw text and keeps its photo, every other
   * answer is flagged on its rewritten text and has no photo.
   */
  function Envelope(intent: Intent.Intent, raw: Answer, llm: Llm): Reply {
    var name := Intent.Name(intent);
    var answer := RewriteFriendly(llm, raw.text, name);
    if IsFixed(intent) then Reply(name, answer, raw.photo, false)
    else if intent == Intent.Staff then Reply(name, answer, raw.photo, IsNotFound(raw.text))
    else Reply(name, answer, None, IsNotFound(answer))
  }

  /** What `ask_router(question)` returns. */
  function Route(m: Matcher, data: Data, llm: Llm, pick: nat, q: string): Reply {
    var intent := Intent.DetectIntent(q);
    Envelope(intent, Resolve(intent, m, data, pick, q), llm)
  }

  /** The dispatch cascade of `ask_router`, calling the resolvers' scanning methods. */
  method Dispatch(intent: Intent.Intent, m: Matcher, data: Data, pick: nat, q: string) returns (raw: Answer)
    ensures raw == Resolve(intent, m, data, pick, q)
  {
    match intent
    case Creator =>
      raw := Answer(CreatorText, Some(TeamPhoto));
    case Staff =>
      raw := Staff.StaffAnswer(m, data.rooms, q);
    case Service =>
      var text := Service.ServiceAnswer(m, data.rooms, q);
      raw := Answer(text, None);
    case Room =>
      var text := Rooms.RoomAnswer(data.rooms, q);
      raw := Answer(text, None);
    case Department =>
      var text := Departments.DepartmentAnswer(m, data.depts, q);
      raw := Answer(text, None);
    case Chat =>
      raw := Answer(Chat.ChatReply(q, pick), None);
    case University =>
      raw := Answer(UniversityText, Some(CampusPhoto));
    case AboutBot =>
      raw := Answer(AboutBotText, Some(TeamPhoto));
    case General =>
      var text := General.GeneralAnswer(m, data.faqs, q);
      raw := Answer(text, None);
  }

  /** `ask_router(question)`: classify, dispatch, rewrite and flag. */
  method AskRouter(m: Matcher, data: Data, llm: Llm, pick: nat, q: string) returns (r: Reply)
    ensures r == Route(m, data, llm, pick, q)
  {
    var intent := Intent.DetectIntent(q);
    var raw := Dispatch(intent, m, data, pick, q);
    r := Envelope(intent, raw, llm);
  }

  // ---- Properties of the envelope ----

  /** Every reply is labelled with the intent it was dispatched on and carries the rewritten answer. */
  lemma EnvelopeLabel(intent: Intent.Intent, raw: Answer, llm: Llm)
    ensures Envelope(intent, raw, llm).intent == Intent.Name(intent)
    ensures Envelope(intent, raw, llm).answer == RewriteFriendly(llm, raw.text, Intent.Name(intent))
  {
  }

  /** A question classified General is answered from the FAQ table. */
  lemma GeneralQuestionRoute(m: Matcher, data: Data, llm: Llm, pick: nat, q: string)
    requires Intent.DetectIntent(q) == Intent.General
    ensures Route(m, data, llm, pick, q)
      == Envelope(Intent.General, Answer(General.GeneralReply(m, data.faqs, q), None), llm)
  {
  }

  /** A question classified Room is answered by the room reply. */
  lemma RoomQuestionRoute(m: Matcher, data: Data, llm: Llm, pick: nat, q: string)
    requires Intent.DetectIntent(q) == Intent.Room
    ensures Route(m, data, llm, pick, q)
      == Envelope(Intent.Room, Answer(Rooms.RoomReply(data.rooms, q), None), llm)
  {
  }

  /**
   * The spelling of a bare room number decides its resolver: "g16" fires no
   * intent rule and is answered from the FAQ table, while "G-16" holds the
   * room cue "g-" and is answered by the room lookup.
   */
  lemma BareRoomNumberRouting(m: Matcher, data: Data, llm: Llm, pick: nat)
    ensures Route(m, data, llm, pick, "g16")
      == Envelope(Intent.General, Answer(General.GeneralReply(m, data.faqs, "g16"), None), llm)
    ensures Route(m, data, llm, pick, "G-16")
      == Envelope(Intent.Room, Answer(Rooms.RoomReply(data.rooms, "G-16"), None), llm)
  {
    Intent.UndashedTokenIsGeneral();
    GeneralQuestionRoute(m, data, llm, pick, "g16");
    Intent.DashedTokenIsRoom();
    RoomQuestionRoute(m, data, llm, pick, "G-16");
  }

  /**
   * "room g16", "room G16", "room g-16" and "room G-16" are classified Room,
   * so the router sends them to the room lookup, where
   * `Rooms.RoomWordRoundTrip` answers each as its "G-" form.
   */
  lemma RoomWordIsRoom(p: string, d: string)
    requires p in Rooms.GForms && Rooms.AllDigits(d)
    ensures Intent.DetectIntent("room " + p + d) == Intent.Room
  {
    Rooms.RoomWordCleaned(p, d);
    TokenInAlphabet(p, d);
    Intent.RoomWordThenTokenIsRoom(Lower(p) + d);
  }

  /** A cleaned G room number is written with g, `-` and digits only. */
  lemma TokenInAlphabet(p: string, d: string)
    requires p in Rooms.GForms && Rooms.AllDigits(d)
    ensures Intent.TokenAlphabet(Lower(p) + d)
  {
    Rooms.GTokenCleaned(p, d);
    var u := Lower(p) + d;
    forall i | 0 <= i < |u| ensures u[i] == 'g' || u[i] == '-' || IsDigit(u[i]) {
      if i >= |Lower(p)| {
        assert u[i] == d[i - |Lower(p)|];
      }
    }
  }

  /** Creator, university and about-bot answers are never flagged and keep the photo they were given. */
  lemma FixedIntentsNeverFlagged(intent: Intent.Intent, raw: Answer, llm: Llm)
    requires IsFixed(intent)
    ensures !Envelope(intent, raw, llm).notFound
    ensures Envelope(intent, raw, llm).photo == raw.photo
  {
  }

  /** The fixed answers' photos: the team photo for creator and about-bot, the campus photo for university. */
  lemma FixedPhotos(m: Matcher, data: Data, pick: nat, q: string)
    ensures Resolve(Intent.Creator, m, data, pick, q).photo == Some(TeamPhoto)
    ensures Resolve(Intent.AboutBot, m, data, pick, q).photo == Some(TeamPhoto)
    ensures Resolve(Intent.University, m, data, pick, q).photo == Some(CampusPhoto)
  {
  }

  /**
   * The staff flag is computed from the resolver's own text before the
   * rewrite, so whatever the language model does, the flag and the photo
   * are the staff resolver's.
   */
  lemma StaffFlagFromRawText(raw: Answer, llm1: Llm, llm2: Llm)
    ensures Envelope(Intent.Staff, raw, llm1).notFound == IsNotFound(raw.text)
    ensures Envelope(Intent.Staff, raw, llm1).notFound == Envelope(Intent.Staff, raw, llm2).notFound
    ensures Envelope(Intent.Staff, raw, llm1).photo == raw.photo
  {
  }

  /** Every other intent has no photo and is flagged by what the rewritten answer says. */
  lemma OtherIntentsFlagRewrite(intent: Intent.Intent, raw: Answer, llm: Llm)
    requires !IsFixed(intent) && intent != Intent.Staff
    ensures Envelope(intent, raw, llm).photo == None
    ensures Envelope(intent, raw, llm).notFound == IsNotFound(Envelope(intent, raw, llm).answer)
  {
  }

  /** When the language model fails, the envelope carries the resolver's raw text. */
  lemma FailedRewriteKeepsRaw(intent: Intent.Intent, raw: Answer, llm: Llm)
    requires forall p :: llm(p).None?
    ensures Envelope(intent, raw, llm).answer == raw.text
    ensures intent != Intent.Staff && Envelope(intent, raw, llm).notFound ==> IsNotFound(raw.text)
  {
  }

  /** The "error" entry of the style table is never used: no intent label is "error". */
  lemma ApologeticStyleUnused(i: Intent.Intent)
    ensures Style(Intent.Name(i)) != "apologetic"
  {
  }

  /** "Sorry" lower-cases to one of the phrases. */
  lemma SorryIsPhrase()
    ensures Lower("Sorry") in NotFoundPhrases
  {
    assert Lower("Sorry") == NotFoundPhrases[8];
  }

  /** A phrase already in lower case is its own lower-casing. */
  lemma CleanPhraseIsPhrase(w: string)
    requires w in NotFoundPhrases && IsClean(w)
    ensures Lower(w) in NotFoundPhrases
  {
    LowerOfClean(w);
  }

  /** The staff resolver's "nobody found" text is flagged. */
  lemma StaffMissFlagged()
    ensures IsNotFound(Staff.NotFoundText)
  {
    SorryIsPhrase();
    FlaggedBy("", "Sorry", ", I don't have any information about this person. Please check the name.");
    assert "" + "Sorry" + ", I don't have any information about this person. Please check the name." == Staff.NotFoundText;
  }

  /** The general resolver's fallback text is flagged. */
  lemma GeneralMissFlagged()
    ensures IsNotFound(General.NoInfoText)
  {
    SorryIsPhrase();
    FlaggedBy("", "Sorry", ", I don't have information about this right now.");
    assert "" + "Sorry" + ", I don't have information about this right now." == General.NoInfoText;
  }

  /** The department resolver's "not in the database" text is flagged. */
  lemma DepartmentMissFlagged()
    ensures IsNotFound(Departments.NotFoundText)
  {
    assert "not available" == NotFoundPhrases[3] && IsClean("not available");
    CleanPhraseIsPhrase("not available");
    FlaggedBy("This department is ", "not available",
      " in the university database. Please check the name \U{2014} it might not exist.");
  }

  /** The room resolver's "unknown number" text is flagged. */
  lemma RoomMissFlagged()
    ensures IsNotFound(Rooms.UnknownRoomText)
  {
    assert "double-check" == NotFoundPhrases[5] && IsClean("double-check");
    CleanPhraseIsPhrase("double-check");
    FlaggedBy("I can't find information about this room. Please ", "double-check", " the number.");
  }

  /** A staff question matching nobody at 60 or more is flagged and has no photo. */
  lemma UnknownPersonFlagged(m: Matcher, rooms: seq<Room>, llm: Llm, q: string)
    requires forall j :: 0 <= j < |rooms| ==> Staff.Score(m, Clean(q), rooms[j]) < Staff.Threshold
    ensures Envelope(Intent.Staff, Staff.StaffReply(m, rooms, q), llm).notFound
    ensures Envelope(Intent.Staff, Staff.StaffReply(m, rooms, q), llm).photo == None
  {
    Scan.BestReaches(rooms, Staff.Scorer(m, Clean(q)), Staff.Threshold);
    assert Staff.StaffReply(m, rooms, q) == Answer(Staff.NotFoundText, None);
    StaffMissFlagged();
  }

  /** A department question matching no department at 70 or more is flagged when the rewrite fails. */
  lemma UnknownDepartmentFlagged(m: Matcher, depts: seq<Dept>, llm: Llm, q: string)
    requires forall j :: 0 <= j < |depts| ==>
      Departments.Score(m, Departments.Expand(Clean(q), Departments.Abbreviations), depts[j]) < Departments.Threshold
    requires forall p :: llm(p).None?
    ensures Envelope(Intent.Department, Answer(Departments.DepartmentReply(m, depts, q), None), llm).notFound
  {
    var qe := Departments.Expand(Clean(q), Departments.Abbreviations);
    Scan.BestReaches(depts, Departments.Scorer(m, qe), Departments.Threshold);
    assert Departments.DepartmentReply(m, depts, q) == Departments.NotFoundText;
    DepartmentMissFlagged();
  }

  /** A room number that names no row is flagged when the rewrite fails. */
  lemma UnknownRoomFlagged(rooms: seq<Room>, llm: Llm, q: string, token: string)
    requires !Contains(Clean(q), "how many")
    requires Rooms.FindToken(q, 0) == Some(token)
    requires forall j :: 0 <= j < |rooms| ==> Upper(rooms[j].roomNumber) != Rooms.NormalizeRoomNumber(token)
    requires forall p :: llm(p).None?
    ensures Envelope(Intent.Room, Answer(Rooms.RoomReply(rooms, q), None), llm).notFound
  {
    var rn := Rooms.NormalizeRoomNumber(token);
    assert Rooms.RoomReply(rooms, q) == Rooms.UnknownRoomText by {
      Rooms.NumberReplyCases(rooms, rn);
      assert Rooms.RoomReply(rooms, q) == Rooms.NumberReply(rooms, rn);
    }
    RoomMissFlagged();
  }

  /** A general question matching no row at 55 or more is flagged when the rewrite fails. */
  lemma NoGeneralAnswerFlagged(m: Matcher, faqs: seq<Faq>, llm: Llm, q: string)
    requires forall j :: 0 <= j < |faqs| ==> General.Score(m, Clean(q), faqs[j]) < General.Threshold
    requires forall p :: llm(p).None?
    ensures Envelope(Intent.General, Answer(General.GeneralReply(m, faqs, q), None), llm).notFound
  {
    Scan.BestReaches(faqs, General.Scorer(m, Clean(q)), General.Threshold);
    assert General.GeneralReply(m, faqs, q) == General.NoInfoText;
    GeneralMissFlagged();
  }
}
