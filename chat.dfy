/**
 * `chat_answer`: canned small talk. The source draws greetings and jokes with
 * `random.choice`; here the draw is a parameter.
 */
module Chat {
  import opened Text

  const GreetingWords: seq<string> := ["hi", "hello", "hey"]
  const Greetings: seq<string> := [
    "Hello! \U{1F60A} How can I assist you today?",
    "Hi there! Hope you're doing great \U{1F31F}",
    "Hey! What would you like to explore at TIU?"]
  const HowAreYouText := "I'm doing great and ready to help! How about you? \U{1F604}"
  const Jokes: seq<string> := [
    "Why did the computer go to therapy? Because it had too many bytes!",
    "Why don't robots panic? Because they have steel nerves!",
    "What's a computer's favorite snack? Microchips!"]
  const DefaultText := "I'm always here if you want to talk or ask about the university!"

  /** `chat_answer(q)`, with `pick` standing for the random draw. */
  function ChatReply(q: string, pick: nat): (a: string)
    ensures ContainsAny(Clean(q), GreetingWords) ==> a in Greetings
    ensures !ContainsAny(Clean(q), GreetingWords) && Contains(Clean(q), "how are you") ==> a == HowAreYouText
    ensures !ContainsAny(Clean(q), GreetingWords) && !Contains(Clean(q), "how are you") ==>
      (if Contains(Clean(q), "joke") then a in Jokes else a == DefaultText)
  {
    var qc := Clean(q);
    if ContainsAny(qc, GreetingWords) then Greetings[pick % |Greetings|]
    else if Contains(qc, "how are you") then HowAreYouText
    else if Contains(qc, "joke") then Jokes[pick % |Jokes|]
    else DefaultText
  }
}
