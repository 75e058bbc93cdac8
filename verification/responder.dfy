/**
 * The mention responder: the message-creation handler that decides whether a
 * message gets a reply, and which one.
 */
module Responder {
  import opened Wrappers
  import opened Strings
  import opened Responses
  import opened Completion

  /** The bot's own account, known once the session is ready. */
  datatype BotUser = BotUser(id: string)

  /**
   * An incoming message. `mentionsSelf` is the platform's answer to whether the
   * message's mentions include the bot's own account.
   */
  datatype Message = Message(authorIsBot: bool, content: string, mentionsSelf: bool)

  /** What the handler does with a message. */
  datatype Action = NoReply | Canned(text: string) | AskModel(userText: string)

  /** The mention token `<@id>`: the id between `<@` and `>`. */
  function PlainMention(id: string): (r: string)
    ensures |r| == |id| + 3 && r[..2] == "<@" && r[2..|r| - 1] == id && r[|r| - 1] == '>'
  {
    "<@" + id + ">"
  }

  /** The nickname mention token `<@!id>`: the id between `<@!` and `>`. */
  function NicknameMention(id: string): (r: string)
    ensures |r| == |id| + 4 && r[..3] == "<@!" && r[3..|r| - 1] == id && r[|r| - 1] == '>'
  {
    "<@!" + id + ">"
  }

  /** A platform account identifier: a non-empty run of decimal digits. */
  predicate IsSnowflake(id: string) {
    id != [] && forall i :: 0 <= i < |id| ==> '0' <= id[i] <= '9'
  }

  /**
   * The text used for matching and sent to the model: the first plain mention
   * removed, then the first nickname mention, then trimmed and lower-cased.
   */
  function Normalize(content: string, id: string): (r: string)
    ensures IsTrimmed(r) && NoUpper(r)
  {
    var stripped := RemoveFirst(RemoveFirst(content, PlainMention(id)), NicknameMention(id));
    var trimmed := Trim(stripped);
    ToLowerKeepsTrimmed(trimmed);
    ToLower(trimmed)
  }

  /** The guards of the handler: a bot's message, an unready session or no mention of the bot. */
  predicate Ignored(msg: Message, self: Option<BotUser>) {
    msg.authorIsBot || self.None? || !msg.mentionsSelf
  }

  /** The handler as a decision: no reply, a canned reply, or a question to the model. */
  function Decide(msg: Message, self: Option<BotUser>): (a: Action)
    ensures a == NoReply <==> Ignored(msg, self)
    ensures !Ignored(msg, self) ==>
      var u := Normalize(msg.content, self.value.id);
      (a.Canned? <==> exists k :: 0 <= k < |Keywords| && Contains(u, Keywords[k]))
      && (a.Canned? ==> exists k :: IsFirstMatch(u, k) && a.text == Replies[k])
      && (a.AskModel? ==> a.userText == u)
  {
    if msg.authorIsBot then NoReply
    else if self.None? then NoReply
    else if !msg.mentionsSelf then NoReply
    else Dispatch(Normalize(msg.content, self.value.id))
  }

  /** The keyword scan over normalised text: the earliest matching entry's reply, or a question to the model. */
  function Dispatch(u: string): (a: Action)
    ensures a != NoReply
    ensures a.Canned? <==> exists k :: 0 <= k < |Keywords| && Contains(u, Keywords[k])
    ensures a.Canned? ==> exists k :: IsFirstMatch(u, k) && a.text == Replies[k]
    ensures a.AskModel? ==> a.userText == u
  {
    FirstMatchIsEarliest(u);
    match FirstMatch(u, 0)
    case Some(k) => Canned(Replies[k])
    case None => AskModel(u)
  }

  /** When entry `k` is the earliest match, the scan answers with its reply. */
  lemma DispatchFirstMatch(u: string, k: int)
    requires IsFirstMatch(u, k)
    ensures Dispatch(u) == Canned(Replies[k])
  {
    FirstMatchIsEarliest(u);
  }

  /**
   * A message that reaches the scan and whose normalised text contains the
   * first trigger, `manifest error`, gets that entry's reply, whatever later triggers it also
   * contains.
   */
  lemma DecideFirstEntryWins(msg: Message, self: Option<BotUser>)
    requires !Ignored(msg, self)
    requires Contains(Normalize(msg.content, self.value.id), Keywords[0])
    ensures Decide(msg, self) == Canned(Replies[0])
  {
    DispatchFirstMatch(Normalize(msg.content, self.value.id), 0);
  }

  /**
   * A message that reaches the scan and whose normalised text contains
   * the second trigger, `work.ink blocked`, but not the first gets the second
   * entry's reply.
   */
  lemma DecideWorkInkBlocked(msg: Message, self: Option<BotUser>)
    requires !Ignored(msg, self)
    requires Contains(Normalize(msg.content, self.value.id), Keywords[1])
    requires !Contains(Normalize(msg.content, self.value.id), Keywords[0])
    ensures Decide(msg, self) == Canned(Replies[1])
  {
    var u := Normalize(msg.content, self.value.id);
    TableShape();
    forall j | 0 <= j < 1 ensures !Contains(u, Keywords[j]) {
      assert j == 0;
    }
    DispatchFirstMatch(u, 1);
  }

  /** A message that reaches the scan and contains no trigger is forwarded to the model as normalised. */
  lemma DecideWithoutTrigger(msg: Message, self: Option<BotUser>)
    requires !Ignored(msg, self)
    requires forall j :: 0 <= j < |Keywords| ==> !Contains(Normalize(msg.content, self.value.id), Keywords[j])
    ensures Decide(msg, self) == AskModel(Normalize(msg.content, self.value.id))
  {
    DispatchNoMatch(Normalize(msg.content, self.value.id));
  }

  /** When no trigger occurs, the scan asks the model with the text itself. */
  lemma DispatchNoMatch(u: string)
    requires forall j :: 0 <= j < |Keywords| ==> !Contains(u, Keywords[j])
    ensures Dispatch(u) == AskModel(u)
  {
    FirstMatchIsEarliest(u);
  }

  /**
   * The `for...of` scan over the triggers: stops at the first one that occurs
   * in `u`, and reports none when the scan runs off the end of the table.
   */
  method ScanKeywords(u: string) returns (hit: Option<nat>)
    ensures hit.Some? ==> IsFirstMatch(u, hit.value)
    ensures hit.None? ==> forall j :: 0 <= j < |Keywords| ==> !Contains(u, Keywords[j])
  {
    var i := 0;
    while i < |Keywords|
      invariant 0 <= i <= |Keywords|
      invariant forall j :: 0 <= j < i ==> !Contains(u, Keywords[j])
    {
      if Contains(u, Keywords[i]) {
        return Some(i);
      }
      i := i + 1;
    }
    return None;
  }

  /**
   * The message-creation handler. `service` stands for the remote completion
   * call; `requests` lists the requests the handler issued, in order.
   */
  method HandleMessage(msg: Message, self: Option<BotUser>, service: Request -> Outcome)
    returns (reply: Option<string>, requests: seq<Request>)
    ensures match Decide(msg, self)
      case NoReply => reply == None && requests == []
      case Canned(text) => reply == Some(text) && requests == []
      case AskModel(u) =>
        && requests == [Request(ModelId, [ChatTurn(System, SystemPreamble), ChatTurn(User, u)])]
        && reply == Some(SelectReply(service(requests[0])))
  {
    if msg.authorIsBot { return None, []; }
    if self.None? { return None, []; }
    if !msg.mentionsSelf { return None, []; }

    var userMessage := Normalize(msg.content, self.value.id);
    assert Decide(msg, self) == Dispatch(userMessage);

    var hit := ScanKeywords(userMessage);
    if hit.Some? {
      DispatchFirstMatch(userMessage, hit.value);
      return Some(Replies[hit.value]), [];
    }

    DispatchNoMatch(userMessage);
    var request := RequestFor(userMessage);
    requests := [request];
    var outcome := service(request);
    reply := Some(SelectReply(outcome));
  }

  /** A message that opens with the plain mention is matched on the rest of its text. */
  lemma NormalizeLeadingMention(id: string, t: string)
    requires !Contains(t, NicknameMention(id))
    ensures Normalize(PlainMention(id) + t, id) == ToLower(Trim(t))
  {
    var p := PlainMention(id);
    IndexOfPrefix(p, t);
    RemoveFirstSplice(p + t, p, 0);
    assert (p + t)[|p|..] == t;
  }

  /** A message that opens with the nickname mention is matched on the rest of its text. */
  lemma NormalizeLeadingNickname(id: string, t: string)
    requires IsSnowflake(id)
    requires !Contains(t, PlainMention(id))
    ensures Normalize(NicknameMention(id) + t, id) == ToLower(Trim(t))
  {
    var p, n := PlainMention(id), NicknameMention(id);
    var s := n + t;
    forall i | 0 <= i && i + |p| <= |s|
      ensures !OccursAt(s, p, i)
    {
      if i == 0 {
        assert s[2] == '!' && p[2] == id[0];
        assert s[i..i + |p|][2] != p[2];
      } else if i < |n| {
        assert s[i] == n[i];
        assert n[i] != '<' by {
          if 3 <= i < |n| - 1 { assert n[i] == id[i - 3]; }
        }
        assert s[i..i + |p|][0] != p[0];
      } else {
        assert s[i..i + |p|] == t[i - |n|..i - |n| + |p|];
        assert !OccursAt(t, p, i - |n|);
      }
    }
    assert !Contains(s, p);
    IndexOfPrefix(n, t);
    RemoveFirstSplice(s, n, 0);
    assert s[|n|..] == t;
  }

  /** Neither mention token of a snowflake id contains a letter. */
  /**
   * For a numeric account id the plain token never occurs inside the nickname
   * token, so removing the plain token leaves every nickname token intact.
   */
  lemma PlainNotInNickname(id: string)
    requires IsSnowflake(id)
    ensures !Contains(NicknameMention(id), PlainMention(id))
  {
    var p, n := PlainMention(id), NicknameMention(id);
    forall i ensures !OccursAt(n, p, i) {
      if i < 0 || i + |p| > |n| {
      } else if i == 0 {
        assert n[i..i + |p|][2] == '!' && p[2] == id[0];
      } else {
        assert n[i..i + |p|][0] == '@' && p[0] == '<';
      }
    }
  }

  lemma MentionTokensHaveNoLetters(id: string)
    requires IsSnowflake(id)
    ensures NoLetters(PlainMention(id)) && NoLetters(NicknameMention(id))
  {
    var p, n := PlainMention(id), NicknameMention(id);
    forall i | 0 <= i < |p| ensures !IsLetter(p[i]) {
      if 2 <= i < |p| - 1 { assert p[i] == id[i - 2]; }
    }
    forall i | 0 <= i < |n| ensures !IsLetter(n[i]) {
      if 3 <= i < |n| - 1 { assert n[i] == id[i - 3]; }
    }
  }

  /**
   * Matching is case-insensitive: two contents that agree once lower-cased
   * normalise to the same text, so they get the same decision.
   */
  lemma NormalizeIgnoresCase(a: string, b: string, id: string)
    requires IsSnowflake(id)
    requires ToLower(a) == ToLower(b)
    ensures Normalize(a, id) == Normalize(b, id)
  {
    NormalizeOfLower(a, id);
    NormalizeOfLower(b, id);
  }

  lemma NormalizeOfLower(s: string, id: string)
    requires IsSnowflake(id)
    ensures Normalize(ToLower(s), id) == Normalize(s, id)
  {
    var p, n := PlainMention(id), NicknameMention(id);
    MentionTokensHaveNoLetters(id);
    var once := RemoveFirst(s, p);
    var twice := RemoveFirst(once, n);
    RemoveFirstLower(s, p);
    RemoveFirstLower(once, n);
    TrimLower(twice);
    ToLowerNoUpper(ToLower(Trim(twice)));
  }
}
