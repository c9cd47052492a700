# TI-Bot question pipeline, modelled in Dafny

TI-Bot is the chatbot of Tishk International University – Sulaimani. A
question arrives at `/ask`. It is classified into one of nine intents by
ordered keyword rules, then answered by a resolver over in-memory tables:

- **staff**: which occupant of the room table is meant;
- **service**: which desk to visit;
- **room**: room-number lookup and "how many" counts;
- **department**: which department is meant;
- **general**: questions from a table of examples;
- **chat**: small talk;
- **creator, university, about_bot**: fixed texts.

A language model rewrites the answer, and the router sets the `not_found`
flag and the photo of the JSON envelope. This project models that pipeline
(`main.py`) and proves what it guarantees. It covers:

- the text normaliser and its idempotence;
- the first-match classifier;
- the argmax-with-threshold scans, the first-match lookups and the counting
  loops, each as a method proved against a specification function;
- room-number normalisation and its round trip;
- abbreviation expansion;
- the `not_found` and photo rules of the router.

One module per concern:

| module | file | contents |
|---|---|---|
| `Wrappers` | wrappers.dfy | `Option` |
| `Text` | text.dfy | `clean`, `in` on strings, `lower`/`upper`, `replace`, `strip`, `f"{n}"` |
| `Intent` | intent.dfy | `detect_intent` as an if-cascade and as a rule table |
| `Tables` | tables.dfy | the rows of the three spreadsheets; the two fuzzy ratios |
| `Scan` | scan.dfy | best-row scan, first-match scan, counting scan |
| `Staff`, `Service`, `Rooms`, `Departments`, `General`, `Chat` | one file each | the resolvers |
| `Router` | router.dfy | `is_not_found_answer`, `rewrite_friendly`, `ask_router` |

The fuzzy ratios `fuzz.partial_ratio` and `fuzz.token_set_ratio` are fields
of a `Matcher` value. They are arbitrary functions whose results lie in
0..100. The language model is a parameter `llm` that maps the exact prompt to
the returned content, or to `None` when the call raises. The random choice in
the chat answers is a parameter `pick`.

Three behaviours of the source are proved as written:

- In a "how many" question, the `"it"` test matches inside "university" and
  "architecture". Such questions, unless they name a WC word or "prayer",
  count the IT and Computer Engineering labs, so the `architecture` entry of the department-lab table can never be
  reached (`Rooms.ItInsideWordsWins`, `Rooms.DepartmentLabsBranch`).
- In `department_answer`, once an abbreviation is a whole word it replaces
  every occurrence of itself, including those inside other words: "it
  facility" becomes "information technology facilinformation technologyy"
  after the "it" pass (`Departments.ItRewritesInsideWords`).
- A bare room number is routed by its spelling. "G-16" holds the room cue
  "g-" and reaches the room lookup, but "g16" fires no intent rule and is
  answered from the FAQ table (`Router.BareRoomNumberRouting`). The
  room-number round trip (`Rooms.RoomNumberRoundTrip`) therefore matters for
  questions the router does send to `room_answer`, such as "room g16"
  (`Router.RoomWordIsRoom`).

## Model

| member | source | states |
|---|---|---|
| Text.IsSpace | main.py:57 | the characters `\s` matches in a str pattern, which are also those `str.strip()` removes (lines 188 and 352); stated by `Text.KeepCleanChar` and `Text.StripEmptyIffBlank` |
| Text.Clean | main.py:56-57 | the result contains only a-z, 0-9, whitespace and `-` |
| Text.KeepClean | main.py:57 | the kept characters are clean; no longer than the input; a clean input is kept whole |
| Text.KeepCleanChar | main.py:57 | a single character is kept exactly when it is a-z, 0-9, whitespace or `-` |
| Text.KeepCleanAppend | main.py:57 | the filter works character by character: what survives of `a + b` is what survives of `a`, then of `b`, in order |
| Text.CleanAppend | main.py:56-57 | `clean(a + b) == clean(a) + clean(b)`, so with the single-character rule every result is fixed, e.g. "Room G-16!" to "room g-16" |
| Text.CleanIdempotent | main.py:56-57 | `clean(clean(s)) == clean(s)` |
| Text.CleanFixesClean | main.py:56-57 | a string of clean characters is its own cleaning |
| Text.LowerOfClean | main.py:57 | lower-casing changes nothing in a clean string |
| Text.LowerAppend | main.py:57 | lower-casing works piecewise over concatenation |
| Text.LowerIdempotent | main.py:117 | lower-casing twice is lower-casing once |
| Text.LowerEmptyIffEmpty | main.py:196 | only the empty string lower-cases to the empty string |
| Text.ContainsAt | main.py:118 | an occurrence at any position makes `t in s` true |
| Text.ContainsWitness | main.py:118 | `t in s` has a position where `t` occurs |
| Text.ContainsTrans | main.py:255 | if `s` contains `t` and `t` contains `u`, then `s` contains `u` |
| Text.NotContainsWithoutFirst | main.py:246 | a string lacking the first character of `t` does not contain `t` |
| Text.NotContainsWithout | main.py:246 | a string lacking any character of `t` does not contain `t` |
| Text.NoneContained | main.py:63-99 | `any(w in s for w in words)` is false when every word has one of its first two characters missing from `s` |
| Text.NotContainsPair | main.py:90 | a string in which the first character of a two-character word is never followed by its second does not contain that word, as "mr" is absent from "room g16" |
| Text.ReplaceAbsent | main.py:324 | `replace` changes nothing when the pattern does not occur |
| Text.ReplaceAfterPrefix | main.py:324 | `replace` scans from the left: when the first occurrence of the pattern follows a prefix, the prefix is kept and that occurrence becomes the replacement |
| Text.Upper | main.py:289 | `upper` maps each character and keeps the length |
| Text.Lower | main.py:57 | `lower` character by character; stated by `Text.LowerAppend`, `Text.LowerOfClean` and `Text.LowerIdempotent` |
| Text.Contains | main.py:118 | `t in s`: `t` is a prefix of some suffix of `s`; stated by `Text.ContainsAt` and `Text.ContainsWitness` |
| Text.Replace | main.py:324 | `str.replace`, leftmost and non-overlapping; stated by `Text.ReplaceAbsent` and `Text.ReplaceAfterPrefix` |
| Text.Strip | main.py:188 | `lstrip` then `rstrip`; stated by `Text.TrimLeft`, `Text.TrimRight` and `Text.StripEmptyIffBlank` |
| Text.TrimLeft | main.py:188 | `lstrip` removes exactly a blank prefix and leaves no leading whitespace |
| Text.TrimRight | main.py:188 | `rstrip` removes exactly a blank suffix and leaves no trailing whitespace |
| Text.StripEmptyIffBlank | main.py:352 | `strip()` is empty exactly when the string is all whitespace |
| Text.NatToString | main.py:249 | `f"{n}"` is made of digits with no leading zero |
| Text.DecimalRoundTrip | main.py:249 | reading back the decimal digits of `n` gives `n` |
| Intent.Name | main.py:60-100 | every intent label is one of the nine names |
| Intent.ClassifyIsFirstMatch | main.py:60-100 | the if-cascade equals the ordered rule table's first match |
| Intent.FirstMatchPicks | main.py:60-100 | the rule that fires first decides the label |
| Intent.FirstMatchDefault | main.py:100 | when no rule fires the label is `general` |
| Intent.FirstFiringRuleWins | main.py:60-100 | `detect_intent` returns the outcome of the first rule that fires on the cleaned question |
| Intent.NoRuleMeansGeneral | main.py:100 | `detect_intent` is `general` when no rule fires |
| Intent.DepartmentBeatsHowMany | main.py:82-86 | "department" together with "how many" is classified `department`, since that rule comes first, when no about-bot, creator, university or service phrase occurs |
| Intent.TitleWithWhereIsStaff | main.py:88-95 | a title with "where" is `staff` when no earlier rule fires, even with a room cue |
| Intent.UndashedTokenIsGeneral | main.py:60-100 | the question "g16" fires no rule and is classified `general` |
| Intent.DashedTokenIsRoom | main.py:60-97 | the question "G-16" fires none of the first eight rules and holds the room cue "g-", so it is classified `room` |
| Intent.TokenMissesFirstRules | main.py:63-77 | no about-bot, creator or university phrase occurs in a string of g, `-` and digits |
| Intent.TokenMissesMiddleRules | main.py:79-86 | no service or department word and no "how many" occurs in such a string |
| Intent.TokenMissesStaffRules | main.py:90-99 | no title, staff word or chat word occurs in such a string |
| Intent.DetectIntent | main.py:60-61 | the cascade runs on `clean(q)`; its order is stated by `Intent.ClassifyIsFirstMatch` |
| Text.ContainsAny | main.py:63 | `any(w in s for w in words)`: some word of the list occurs in `s`; used by every keyword rule of `detect_intent` (lines 63-98), by `is_not_found_answer` (line 118), by the visit test (line 206) and by the count branches (line 247); stated by `Text.NoneContained` |
| Intent.Classify | main.py:63-100 | the ten keyword tests in source order, `general` last; equal to the rule table by `Intent.ClassifyIsFirstMatch` |
| Intent.FirstMatch | main.py:63-100 | the rule table read in order, the first firing rule deciding and `general` otherwise; stated by `Intent.FirstMatchPicks` and `Intent.FirstMatchDefault` |
| Intent.RoomWordMissesFirstRules | main.py:63-79 | no about-bot, creator, university or service phrase occurs in a string made of the letters of "room", a space, g, `-` and digits |
| Intent.RoomWordMissesMiddleRules | main.py:81-88 | nor a department word, "how many" or "where" |
| Intent.RoomWordMissesStaffWords | main.py:90 | nor a staff word, as long as no "m" is directly followed by "r" |
| Intent.RoomWordClassify | main.py:63-97 | such a cleaned question holding "room" is classified `room` |
| Intent.RoomWordThenTokenIsRoom | main.py:63-97 | "room " followed by a cleaned G room number is classified `room` |
| Scan.Best | main.py:161-175 | the best-row scan keeps a row of maximal score, the earliest among equals; no row when nothing scores above 0 |
| Scan.BestReaches | main.py:177 | for a positive threshold, the kept score reaches it exactly when some row does |
| Scan.BestRow | main.py:209-214 | the scanning loop ends with exactly the best row and best score |
| Scan.First | main.py:236-238 | the first-match lookup finds the earliest matching row, or reports that none matches |
| Scan.FindFirst | main.py:293-294 | the lookup loop returns the first matching index |
| Scan.CountWhere | main.py:256-261 | the counting loop returns the number of matching rows |
| Scan.Matching | main.py:248-283 | the set of indices of the rows a count counts; `Scan.CountWhere` returns its size |
| Staff.Score | main.py:168-172 | the row score is the largest of the two partial ratios and the token-set ratio, within 0..100 |
| Staff.PhotoUrl | main.py:188-197 | no photo exactly when the stripped cell is empty, "nan" or "none" in any case; otherwise the base URL plus the stripped name |
| Staff.StaffAnswer | main.py:159-199 | below 60 everywhere gives the not-found text and no photo; otherwise the answer describes the earliest best row, with its photo |
| Staff.FoundText | main.py:183-193 | the short sentence when the cleaned question holds "where", the long one otherwise |
| Staff.StaffReply | main.py:159-199 | the best row's text and photo, or the not-found text and no photo below 60; stated by `Staff.StaffAnswer` |
| Service.ServiceAnswer | main.py:202-240 | a visit word and a name scoring at least 65 give the earliest best occupant; otherwise the first map key in the question decides |
| Service.MapLayout | main.py:223-234 | the first five keys lead to G-16, the last five to G-17 |
| Service.RegistrationKeysWin | main.py:236-238 | any registration keyword sends the question to G-16 |
| Service.AccountingKeysNext | main.py:236-238 | without a registration keyword, any accounting keyword sends the question to G-17 |
| Service.NoKeyAsksForMore | main.py:240 | with no map keyword the answer is the clarifying prompt |
| Service.NoVisitWordIgnoresNames | main.py:206-208 | without a visit word the answer depends on neither the room table nor the ratios |
| Service.DeskReply | main.py:236-240 | the desk of the first map key in the question, or the clarifying prompt; stated by the three key lemmas |
| Service.ServiceReply | main.py:202-240 | the visit sentence for a name at 65 or more after a visit word, otherwise the desk reply; stated by `Service.ServiceAnswer` |
| Service.NameScore | main.py:211-212 | the partial ratio of the cleaned question against the cleaned occupant name; `Service.ServiceAnswer` states that the earliest row with the highest such score, at 65 or more, is the one visited |
| Service.VisitText | main.py:221 | the visit sentence with the occupant, purpose, room number and floor of the best row; used by `Service.ServiceAnswer` |
| Service.DeskText | main.py:238 | the desk sentence with the room, person and job of a map entry; `Service.MapLayout` states which desk each key gives |
| Rooms.IsWordChar | main.py:285 | `\w` as the word boundaries `\b` use it: ASCII letters, digits and `_` |
| Rooms.DigitsEnd | main.py:285 | `\d{1,3}\b`: one to three digits, then the end of the question or a non-word character; the match ends there |
| Rooms.MatchAt | main.py:285 | a match of the room pattern at a position ends after it and within the question |
| Rooms.FindMatch | main.py:286 | `re.search` finds the leftmost position where the pattern matches, or reports that no position matches |
| Rooms.FindToken | main.py:285-286 | no token exactly when the pattern matches at no position; a found token occurs in the question |
| Rooms.FindTokenLeftmost | main.py:285-289 | when the pattern first matches at `k`, the token is the text of that match |
| Rooms.NormalizeRoomNumber | main.py:289-291 | upper-case the token and insert "-" after a leading G with no hyphen; stated by `Rooms.GTokenNormalized` and `Rooms.NormalizeIdempotent` |
| Rooms.CountKind | main.py:246-283 | the branch of the count cascade: WC words, then "prayer", then "it"/"computer", then the first department key, then all labs; stated by `Rooms.ItInsideWordsWins` and `Rooms.DepartmentLabsBranch` |
| Rooms.Counted | main.py:248-283 | the row test of each branch on the cleaned Purpose and Department cells |
| Rooms.CountText | main.py:249-283 | the five count sentences with the count written as `f"{n}"`; `Rooms.RoomReply` puts the size of the branch's set of rows in it |
| Rooms.LookupReply | main.py:285-306 | the room-number part of the answer; its three outcomes are stated by `Rooms.LookupReplyCases` |
| Rooms.NumberReply | main.py:293-304 | the answer for a normalised number; its two outcomes are stated by `Rooms.NumberReplyCases` |
| Rooms.RoomText | main.py:299-302 | the found-room sentence, with the occupant clause only when Person_in_Room is not empty; `Rooms.NumberReplyCases` states which row it describes |
| Rooms.NumberReplyCases | main.py:293-304 | a number that no row carries gives the double-check text; otherwise the first row whose upper-cased number equals it is described |
| Rooms.RoomReply | main.py:243-306 | a count question is answered with the size of its branch's set of rows, any other question by the number lookup; stated by `Rooms.RoomAnswer` and the lemmas below |
| Rooms.RoomAnswer | main.py:243-306 | the answer is the room reply: a count question reports the size of its branch's matching set (counted row by row), any other question goes to the number lookup |
| Rooms.LookupReplyCases | main.py:285-306 | no room token asks for the number again; a token that no row carries gives the double-check text; a known number is described from the first row whose upper-cased number equals it |
| Rooms.GTokenFound | main.py:285-286 | "g16", "G16", "g-16" and "G-16" (one to three digits) are found whole after a prefix in which the pattern matches nowhere and that ends at a word boundary, and before a word boundary |
| Rooms.PlainPrefixQuiet | main.py:285 | a prefix with no g, G or digit that ends at a word boundary holds no room number |
| Rooms.GTokenNormalized | main.py:289-291 | every G spelling normalises to "G-" and the digits |
| Rooms.GTokenCleaned | main.py:244 | cleaning a G spelling lower-cases the letter and keeps the rest |
| Rooms.GTokenNotCount | main.py:246 | a bare room number is not a count question |
| Rooms.TokenHasNoH | main.py:246 | a cleaned G room number holds no "h" |
| Rooms.RoomWordCleaned | main.py:56-57 | "room " and a G room number clean to "room ", the lower-cased G form and the digits |
| Rooms.RoomWordNotCount | main.py:246 | "room " and a G room number is not a count question |
| Rooms.PlainPrefixNotCount | main.py:246 | a prefix that cleans to itself and holds no "h", then a G room number, is not a count question |
| Rooms.RoomNumberRoundTrip | main.py:243-306 | in a question that is not a count question, every G spelling, after a prefix in which the pattern matches nowhere and that ends at a word boundary (so "going to ", which holds a "g", qualifies: `Rooms.GoingToRoundTrip`, though `ask_router` sends only the "g-" spellings of that question to `room_answer`), and before a word boundary, gives the answer of the bare "G-" form: the first row whose upper-cased number is "G-" and the digits, or the double-check text |
| Rooms.GTokenReply | main.py:243-304 | a G spelling in such a question is looked up as the normalised "G-" number |
| Rooms.DashedReply | main.py:243-304 | the bare "G-" form is looked up as itself |
| Rooms.RoomWordRoundTrip | main.py:243-306 | "room g16", "room G16", "room g-16" and "room G-16" get the answer of "G-16" |
| Rooms.GoingToQuiet | main.py:285-286 | "going to " holds a "g" but no room number, whatever follows it |
| Rooms.GoingToNotCount | main.py:246 | "going to " and a G room number is not a count question |
| Rooms.GoingToRoundTrip | main.py:243-306 | in `room_answer`, "going to g16" and its other spellings get the answer of "G-16": a "g" that starts no room number does not stop the search. Only the "g-" spellings reach `room_answer` through `ask_router`; the undashed ones, like a bare "g16", fire no intent rule and are classified `general` |
| Rooms.NormalizeIdempotent | main.py:289-291 | normalising a normalised room number changes nothing |
| Rooms.ItInsideWordsWins | main.py:247-262 | "architecture" or "university" in a count question selects the IT and Computer Engineering branch, when no WC word or "prayer" is in the question |
| Rooms.DepartmentLabsBranch | main.py:264-280 | the department-lab branch needs the key in the question and neither "it" nor "computer"; it is never taken for architecture |
| Departments.ExpandAbbreviations | main.py:312-324 | the loop's result is the ordered fold of the abbreviation passes |
| Departments.ExpandWithoutWholeWords | main.py:322-324 | a question with no abbreviation as a whole word is unchanged |
| Departments.ExpandStepChanges | main.py:323-324 | a pass changes the question only when its abbreviation is a whole word and occurs in it |
| Departments.ItRewritesInsideWords | main.py:323-324 | after "it" passes the whole-word test in "it facility", the "it" inside "facility" is replaced as well |
| Departments.FacilityRewritten | main.py:324 | in " facility" the only "it" is the one inside the word, and it is replaced |
| Departments.IsWholeWord | main.py:323 | the abbreviation, padded with spaces, occurs in the padded question |
| Departments.ExpandStep | main.py:323-324 | one pass: when the whole-word test passes, every occurrence is replaced, inside words too |
| Departments.Expand | main.py:322-324 | the passes in table order, each on the question the earlier ones left; equal to the loop by `Departments.ExpandAbbreviations` |
| Departments.DepartmentReply | main.py:309-339 | the best department against the expanded question, or the not-found text below 70; stated by `Departments.DepartmentAnswer` |
| Departments.DepartmentAnswer | main.py:309-339 | below 70 everywhere gives the not-found text; otherwise the earliest best department is described |
| Departments.Score | main.py:328 | the partial ratio of the expanded question against the cleaned department name; `Departments.DepartmentAnswer` states that the earliest row with the highest such score, at 70 or more, is described |
| Departments.DeptText | main.py:336-338 | the department, an en dash, its description and the career text; `Departments.DepartmentAnswer` states which row it describes |
| General.Score | main.py:349-358 | the weighted score lies in 0..100 and is 0 for a row whose two fields are blank |
| General.GeneralAnswer | main.py:342-370 | below 55 everywhere gives the fallback; otherwise the Response of the earliest best row, never a blank row |
| General.SkippedRowsIgnored | main.py:352-353 | appending a row with both fields blank does not change the scan's result |
| General.Skipped | main.py:352-353 | a row is skipped when both cleaned fields strip to the empty string |
| General.GeneralReply | main.py:364-370 | the Response of the best row at 55 or more, the server-error text when that row has no Response, otherwise the fallback; stated by `General.GeneralAnswer` |
| Chat.ChatReply | main.py:373-393 | a greeting word gives one of the three greetings; then "how are you", then a joke, then the default |
| Router.FlaggedBy | main.py:103-118 | an answer is flagged when any piece of it lower-cases to one of the ten phrases |
| Router.FlagIgnoresCase | main.py:117-118 | the flag is the same for an answer and its lower-cased form |
| Router.IsNotFound | main.py:103-118 | one of the ten phrases occurs in the lower-cased answer; stated by `Router.FlaggedBy` and the miss lemmas |
| Router.Style | main.py:398-407 | the style of each intent label, "friendly" for a label not in the table; `Router.ApologeticStyleUnused` states that no label reaches "apologetic" |
| Router.Prompt | main.py:409-413 | the rewrite instruction, the style line and the raw answer; `Router.RewriteFriendly` sends it to the model |
| Router.RewriteFriendly | main.py:396-424 | the stripped content the model returns for the styled prompt, or the raw answer when the call fails; stated by `Router.FailedRewriteKeepsRaw` |
| Router.Resolve | main.py:427-458 | the resolver answer of each intent, with the photos of the fixed answers and of the staff answer |
| Router.Envelope | main.py:428-462 | the label, rewritten answer, photo and flag of each branch; stated by the envelope lemmas |
| Router.Route | main.py:427-462 | the envelope of the classified intent and its resolver's answer; stated by `Router.AskRouter` |
| Router.GeneralQuestionRoute | main.py:457-462 | a question classified `general` is answered from the FAQ table, with no photo |
| Router.RoomQuestionRoute | main.py:443-444 | a question classified `room` is answered by the room reply, with no photo |
| Router.BareRoomNumberRouting | main.py:427-462 | "g16" is answered by the FAQ resolver and "G-16" by the room resolver |
| Router.RoomWordIsRoom | main.py:60-97 | "room " followed by any G spelling of a room number is classified `room`, so the router sends it to the room lookup |
| Router.StaffMissFlagged | main.py:179 | the staff not-found text is flagged |
| Router.GeneralMissFlagged | main.py:367 | the general fallback text is flagged |
| Router.DepartmentMissFlagged | main.py:334 | the department not-found text is flagged |
| Router.RoomMissFlagged | main.py:304 | the unknown-room text is flagged |
| Router.Dispatch | main.py:435-458 | the dispatch cascade returns the chosen resolver's answer |
| Router.AskRouter | main.py:427-462 | the envelope is the classified intent's resolver answer, rewritten and flagged |
| Router.EnvelopeLabel | main.py:428-462 | the envelope carries the intent's label and the rewritten answer |
| Router.FixedIntentsNeverFlagged | main.py:430-433 | creator, university and about_bot are never flagged and keep their photo |
| Router.FixedPhotos | main.py:121-156 | creator and about_bot carry the team photo; university carries the campus photo |
| Router.StaffFlagFromRawText | main.py:435-439 | the staff flag is computed from the raw text, whatever the rewrite does; the photo is the resolver's |
| Router.OtherIntentsFlagRewrite | main.py:460-462 | the other intents have no photo and are flagged on the rewritten text |
| Router.FailedRewriteKeepsRaw | main.py:423-424 | when the language model fails, the answer is the raw text |
| Router.ApologeticStyleUnused | main.py:398-407 | no intent label selects the "apologetic" style |
| Router.UnknownPersonFlagged | main.py:177-181 | a staff question matching nobody is flagged and has no photo |
| Router.UnknownDepartmentFlagged | main.py:333-334 | a department question matching nothing is flagged when the rewrite fails |
| Router.UnknownRoomFlagged | main.py:293-304 | a room number naming no row is flagged when the rewrite fails |
| Router.NoGeneralAnswerFlagged | main.py:364-367 | a general question matching no row is flagged when the rewrite fails |

## Left out

- The FastAPI application, static mounts, CORS, `uvicorn`, `webbrowser` and the `/ask` route (main.py:17-48, 465-470). This is HTTP plumbing.
- Loading the three spreadsheets with pandas (main.py:51-53). The tables are parameters.
- Rows hold strings. Numeric spreadsheet cells, and their `str()` rendering, are not modelled.
- `fillna("")` is assumed. An empty cell is the empty string.
- A missing `Response` column is `None` in `Tables.Faq`. It leads to the server-error text; other exceptions inside `general_answer` are not modelled.
- The OpenAI client (main.py:415-419). The model is the `llm` parameter, mapping prompt to content. `Router.RewriteFriendly` keeps the prompt, the style table and the `strip()`; sampling is not modelled.
- The internals of thefuzz. The two ratios are arbitrary functions into 0..100.
- General.Score: the float weighting `int(example*0.6 + intent*0.4)` is the integer `(6*example + 4*intent) / 10`. Over the score pairs 0..100, binary floating point gives a different integer on 32 of the 10201 pairs. Only one of them crosses the threshold of 55: example score 87 with intent score 7 truncates to 54 in floating point, so the source answers with the fallback text, while the model computes 55 and accepts the row.
- Chat.ChatReply: `random.choice` is replaced by an index `pick` taken modulo the pool size.
- The fixed texts of `creator_answer`, `about_bot_answer` and `university_answer` are copied as constants. No property is stated about their wording.
- Text.Clean: `str.lower` is modelled for ASCII letters, the Kelvin sign and capital I with dot above. Other non-ASCII characters are kept as they are. Their lower case is not ASCII either, so no ASCII comparison can tell them apart.
- Rooms.FindToken: `\d` and `\w` are ASCII only. Unicode digits and word characters are not matched.
- Text.Upper: upper-casing is ASCII only. Room numbers are compared after upper-casing.
- The front end (frontend/config.js) is not part of this model.
