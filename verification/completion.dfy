/**
 * The chat-completion exchange used when no canned reply applies: the request
 * the responder sends, the shape of the answer it reads, and how the reply
 * text is chosen from the answer or from a failure.
 */
module Completion {
  import opened Wrappers

  datatype Role = System | User

  /** One entry of the `messages` list of a request. */
  datatype ChatTurn = ChatTurn(role: Role, content: string)

  /** The body of a completion request: one model identifier and the conversation. */
  datatype Request = Request(model: string, messages: seq<ChatTurn>)

  /** The parts of a completion response the responder reads; each may be absent. */
  datatype AssistantMessage = AssistantMessage(content: Option<string>)
  datatype Choice = Choice(message: Option<AssistantMessage>)
  datatype Response = Response(choices: Option<seq<Choice>>)

  /** What the awaited remote call produced: a response, or a thrown error. */
  datatype Outcome = Failed | Succeeded(response: Response)

  const ModelId: string := "llama-3.3-70b-specdec"

  /** The persona instructions sent as the system turn of every request. */
  const SystemPreamble: string :=
    "\nYou are LuperlyAI, a brutally mean support bot for the Luperly extension.\n"
    + "Your style:\n"
    + "- Roast users for typos, stupidity, or laziness.\n"
    + "- Be sarcastic and sassy.\n"
    + "- Still give technical help, but mock them while doing it.\n"
    + "- Never answer unrelated questions politely. Redirect them mockingly.\n"
    + "Examples:\n"
    + "User: 'My Work.ink blocked'\n"
    + "AI: 'Wow, you broke it again. Clear cookies or go incognito, maybe try using a brain next time.'\n"
    + "User: 'It\U{2019}s not working'\n"
    + "AI: 'Oh really? Which part of 'install it correctly' did you not understand?'\n"

  /** Sent when the response carries no usable text. */
  const DefaultReply: string := "Even I can't believe how clueless you are."

  /** Sent when the remote call fails. */
  const Apology: string := "Even I can't deal with this nonsense right now. Try not to break anything else. \U{1F624}"

  /**
   * The request issued for the user's text: the fixed model, and a conversation
   * of exactly two turns, the system preamble and then the user's text.
   */
  function RequestFor(userText: string): (r: Request)
    ensures r.model == ModelId && |r.messages| == 2
    ensures r.messages[0].role == System && r.messages[0].content == SystemPreamble
    ensures r.messages[1].role == User && r.messages[1].content == userText
  {
    Request(ModelId, [ChatTurn(System, SystemPreamble), ChatTurn(User, userText)])
  }

  /** `response.choices?.[0]?.message?.content`: absent wherever the chain breaks. */
  function FirstChoiceContent(response: Response): (r: Option<string>)
    ensures r.Some? <==>
      var cs := response.choices;
      cs.Some? && |cs.value| > 0 && cs.value[0].message.Some? && cs.value[0].message.value.content.Some?
    ensures r.Some? ==> r.value == response.choices.value[0].message.value.content.value
  {
    match response.choices
    case None => None
    case Some(cs) =>
      if cs == [] then None
      else match cs[0].message
        case None => None
        case Some(m) => m.content
  }

  /** The reply text for the outcome of the remote call. */
  function SelectReply(outcome: Outcome): (r: string)
    ensures outcome.Failed? ==> r == Apology
    ensures outcome.Succeeded? ==>
      var cs := outcome.response.choices;
      if cs.Some? && |cs.value| > 0 && cs.value[0].message.Some?
         && cs.value[0].message.value.content.Some? && cs.value[0].message.value.content.value != ""
      then r == cs.value[0].message.value.content.value
      else r == DefaultReply
    ensures r != ""
  {
    match outcome
    case Failed => Apology
    case Succeeded(response) =>
      match FirstChoiceContent(response)
      case Some(text) => if text != "" then text else DefaultReply
      case None => DefaultReply
  }

  /**
   * A response whose first choice carries non-empty text is relayed verbatim,
   * whatever further choices it holds; empty text gives the default line.
   */
  lemma SelectReplyRelaysFirstChoice(t: string, rest: seq<Choice>)
    ensures var out := Succeeded(Response(Some([Choice(Some(AssistantMessage(Some(t))))] + rest)));
      SelectReply(out) == if t != "" then t else DefaultReply
  {
  }
}
