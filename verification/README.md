# LuperlyAI mention responder, modelled in Dafny

LuperlyAI is a chat bot. When a human mentions it, it answers with a canned
reply if the message contains one of eight trigger phrases. Otherwise it
forwards the cleaned-up text to a hosted chat-completion model and relays that
model's answer. This project models the bot's message handler: the guards, the
text normalisation, the first-match keyword table, the completion request, and
how the reply text is chosen. It then proves what the handler promises.

Modules:

- `Wrappers` (`wrappers.dfy`): `Option`, which stands for JavaScript's absent values.
- `Strings` (`strings.dfy`): the JavaScript string operations the handler uses.
  These are `indexOf`, `includes`, `replace` with a string pattern (which removes
  only the first occurrence), `trim` and `toLowerCase`. Each is specified against
  an independent definition, such as `OccursAt` or `IsTrimmed`.
- `Responses` (`responses.dfy`): the trigger table, as the index-aligned
  sequences `Keywords` and `Replies`, and `FirstMatch`, the search for the
  earliest trigger that occurs in a text.
- `Completion` (`completion.dfy`): the request sent to the model, the parts of
  the response the handler reads, and `SelectReply`, which picks the reply text
  from the outcome of the call.
- `Responder` (`responder.dfy`): `Normalize`, the pure decision `Decide` with
  its keyword step `Dispatch`, and the imperative handler `HandleMessage`.
  `HandleMessage` keeps the early-return guards of the original, runs the
  keyword loop as `ScanKeywords`, and is proved against `Decide`.

The remote call is a parameter of `HandleMessage`:
`service: Request -> Outcome`, where `Outcome` is either `Failed` (the awaited
call threw) or `Succeeded(response)`. `HandleMessage` returns the reply it sends,
if any, and the list of requests it issued. Whether the message mentions the
bot is the platform's answer to `message.mentions.has(...)`, so it is a boolean
field of `Message`. The bot's own account (`client.user`) is an
`Option<BotUser>`, which is `None` until the session is ready.

What index.js does at the points where a reader might expect otherwise:

- Each mention token is removed only once, at its first occurrence, because
  `String.prototype.replace` with a string pattern replaces only the first match
  (index.js:68-69).
- The plain token `<@id>` is removed before the nickname token `<@!id>`
  (index.js:68-69).
- The text sent to the model is the lower-cased `userMessage`, the same text
  the keyword loop matches against (index.js:71, 77, 106).
- The `try`/`catch` (index.js:86-116) covers the remote call (index.js:87-108),
  the reply selection (index.js:110) and the send of the model's reply
  (index.js:111). The guards, the normalisation and the keyword loop are
  outside it, and there is no outer catch around the handler.
- Lines 68-69 of index.js, as the file reads, lack the backticks of their
  template literals. Each pattern is taken to be the string
  `"<@" + id + ">"` or `"<@!" + id + ">"`.

## Model

| member | source | states |
|---|---|---|
| Strings.IndexOf | index.js:68-69 | The result is an index at or after `from` where the pattern occurs, with no earlier occurrence from `from` on. The result is absent exactly when the pattern does not occur from `from` on. |
| Strings.Contains | index.js:77 | `includes` is true exactly when the pattern occurs at some index of the text. |
| Strings.RemoveFirst | index.js:68-69 | `replace(p, "")` returns the text unchanged when `p` does not occur. When `p` occurs, the result is exactly `|p|` characters shorter. |
| Strings.RemoveFirstSplice | index.js:68-69 | When the first occurrence is at `i`, removal cuts out exactly `s[i..i+|p|]`. Putting `p` back at `i` restores the original text. |
| Strings.IndexOfPrefix | index.js:68-69 | A text that starts with the pattern has its first occurrence at index 0. |
| Strings.TrimStart | index.js:70 | The result is a suffix of the input. Everything removed is whitespace, and the result does not start with whitespace. |
| Strings.TrimEnd | index.js:70 | The result is a prefix of the input. Everything removed is whitespace, and the result does not end with whitespace. |
| Strings.Trim | index.js:70 | `trim` returns a slice of the input with whitespace-only margins and no whitespace at either end. |
| Strings.TrimStartPadded | index.js:70 | Leading whitespace does not change what `TrimStart` keeps. |
| Strings.TrimEndPadded | index.js:70 | Trailing whitespace does not change what `TrimEnd` keeps. |
| Strings.TrimOfPadded | index.js:70 | `trim` gives back any trimmed text surrounded by whitespace margins, so the result is uniquely determined. |
| Strings.LowerChar | index.js:71 | An upper-case ASCII letter becomes its lower-case letter; every other character is unchanged. |
| Strings.ToLower | index.js:71 | Same length, no upper-case letter left, each upper-case letter shifted to its lower-case form, every other character kept. |
| Strings.ToLowerNoUpper | index.js:71 | Lower-casing text that has no upper-case letter changes nothing, so lower-casing is idempotent. |
| Strings.ToLowerKeepsTrimmed | index.js:70-71 | Lower-casing a trimmed text leaves it trimmed. |
| Strings.RemoveFirstLower | index.js:68-71 | Removing a pattern that has no letters gives the same text whether it happens before or after lower-casing. |
| Strings.TrimLower | index.js:70-71 | Trimming and lower-casing commute. |
| Responses.FirstMatch | index.js:76-81 | The result is an index whose trigger occurs in the text, and no earlier trigger from `from` on occurs. An absent result means no trigger from `from` on occurs. |
| Responses.FirstMatchIsEarliest | index.js:76-81 | The scan from the start finds an entry exactly when some trigger occurs. The entry it finds is the earliest such entry, and it is the only one that satisfies that description. |
| Responses.TableShape | index.js:39-50 | There are eight triggers and eight replies, and the eight written keys are pairwise distinct. So no key of the object literal overrides another, and `Object.keys` lists all eight triggers in the order they are written. |
| Completion.RequestFor | index.js:87-108 | The request names the fixed model and holds exactly two turns: the system preamble, then a user turn whose content is the given text. |
| Completion.FirstChoiceContent | index.js:110 | The optional chain yields a value exactly when `choices` is present and non-empty and the first choice has a message with content. That value is then the first choice's content. |
| Completion.SelectReply | index.js:110-116 | A failed call gives the fixed apology. A response whose first choice has non-empty content gives that content. Any other response gives the fixed default line. The reply is never empty. |
| Completion.SelectReplyRelaysFirstChoice | index.js:110 | The non-empty text of a first choice is relayed verbatim, whatever other choices follow. Empty text gives the default line. |
| Responder.PlainMention | index.js:68 | The token is `<@`, then the account id, then `>`. |
| Responder.NicknameMention | index.js:69 | The token is `<@!`, then the account id, then `>`. |
| Responder.PlainNotInNickname | index.js:68-69 | For a numeric account id, the plain token never occurs inside the nickname token, so the first `replace` cannot cut into a nickname mention. |
| Responder.Normalize | index.js:67-71 | The normalised text has no whitespace at either end and no upper-case letter. |
| Responder.Decide | index.js:62-86 | No reply exactly when the author is a bot, the bot's account is unknown, or the bot is not mentioned. Otherwise the reply is canned exactly when some trigger occurs in the normalised text, and it is then the entry of `Replies` at the index of the earliest such trigger. When no trigger occurs, the model is asked with exactly the normalised text. |
| Responder.Dispatch | index.js:76-86 | On normalised text the scan always acts. It answers with a canned reply exactly when some trigger occurs, that reply being the earliest matching entry's. Otherwise it asks the model with the text itself. |
| Responder.DispatchFirstMatch | index.js:76-80 | When entry `k` is the earliest trigger that occurs, the scan answers with `Replies[k]`. |
| Responder.DispatchNoMatch | index.js:76-86 | When no trigger occurs, the scan asks the model with the text itself. |
| Responder.DecideFirstEntryWins | index.js:62-80 | A message that passes the three guards and whose normalised text contains `manifest error` gets that entry's reply, however many later triggers it also contains. |
| Responder.DecideWorkInkBlocked | index.js:62-80 | A message that passes the three guards and whose normalised text contains `work.ink blocked` but not `manifest error` gets the `work.ink blocked` reply. |
| Responder.DecideWithoutTrigger | index.js:62-86 | A message that passes the three guards and contains no trigger is forwarded to the model as its normalised text. |
| Responder.ScanKeywords | index.js:76-81 | The loop finds an index exactly when some trigger occurs, and the index it finds is that of the earliest such trigger. |
| Responder.HandleMessage | index.js:62-117 | Follows `Decide`. No reply and no request when the message is ignored. A canned reply with no request on a trigger match. Otherwise exactly one request, `[system preamble, user text]` for the fixed model, and a reply equal to `SelectReply` of that request's outcome. |
| Responder.NormalizeLeadingMention | index.js:67-71 | A message that opens with `<@id>` and does not contain `<@!id>` is matched on the trimmed, lower-cased rest of its text. |
| Responder.NormalizeLeadingNickname | index.js:67-71 | A message that opens with `<@!id>` and does not contain `<@id>` is matched on the trimmed, lower-cased rest of its text, for a numeric account id. |
| Responder.NormalizeIgnoresCase | index.js:67-77 | For a numeric account id, two contents that agree once lower-cased normalise to the same text, so the keyword scan is case-insensitive. |

## Left out

- Loading the environment and exiting at startup when a secret is missing (index.js:1-14): process I/O.
- Building the completion client and performing the HTTP request (index.js:19-22, 87): both belong to an external library. The outcome of the call is the `service` parameter.
- Creating the chat client, its intents, logging in and the `ready` log line (index.js:27-34, 119-129): platform session plumbing.
- How the platform computes `message.mentions.has(...)` (index.js:55-57): its answer is the input field `mentionsSelf`.
- Sending replies (`message.reply`) and the failure of a send: the handler's reply is its return value. A send that fails inside the `try` (index.js:111) would itself lead to the apology being sent; the model does not capture this.
- `console.error` logging in the `catch` (index.js:114): no behavioural content.
- Concurrent handlers: they share no mutable state, so each call is modelled on its own.
- Strings.ToLower: lower-cases only the ASCII letters A-Z, whereas `toLowerCase` applies the full Unicode case mapping. The triggers are ASCII, so the choice of trigger is affected only for non-ASCII letters, but the text forwarded to the model can differ.
- Strings: characters are Unicode scalar values rather than UTF-16 code units. For well-formed text, searching and slicing give the same results.
- Completion.SelectReply: the content field is a string or absent. Other JavaScript values, whose truthiness would decide the `||` differently, are not represented. A completion result that is not an object, which would make line 110 throw into the `catch`, is not represented either.
