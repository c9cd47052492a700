/**
 * The three reference tables, as sequences of records whose fields are the
 * spreadsheet columns (every empty cell already read as ""), and the two
 * fuzzy ratios of the matching library, left abstract.
 */
module Tables {
  import opened Wrappers

  /** A similarity score as the fuzzy ratios return it. */
  type Score = n: int | 0 <= n <= 100

  /**
   * `fuzz.partial_ratio` and `fuzz.token_set_ratio`: any functions of two
   * strings with results in 0..100. Nothing else about them is assumed.
   */
  datatype Matcher = Matcher(partialRatio: (string, string) -> Score, tokenSetRatio: (string, string) -> Score)

  /** A row of the room table: Room_Number, Floor, Purpose, Person_in_Room, Department, Description, Photo. */
  datatype Room = Room(
    roomNumber: string, floor: string, purpose: string, person: string,
    department: string, description: string, photo: string)

  /** A row of the department table: Department, Description, Career_After_Graduation. */
  datatype Dept = Dept(name: string, description: string, career: string)

  /**
   * A row of the general question table: Emotion_Intent, Example_Question and
   * Response. A missing column reads as "" for the first two; a missing
   * Response column is None, which the source meets as an exception.
   */
  datatype Faq = Faq(emotionIntent: string, exampleQuestion: string, response: Option<string>)

  /** What a resolver that can show a photo returns: `{"text": ..., "photo": ...}`. */
  datatype Answer = Answer(text: string, photo: Option<string>)
}
