# Email worker notification pipeline — a Dafny model

This project models the core of a Cloudflare Email Worker (`src/index.js`).
For every inbound email the worker:

1. buffers the raw message stream into a zero-filled `Uint8Array` of the declared
   size (`streamToArrayBuffer`);
2. parses it with a MIME parser;
3. builds a plain-text notification (title, subject, body, attachment list);
4. posts the text to LINE Notify, then to a Slack webhook, each inside its own
   `try/catch`, reading each reply with `gatherResponse`;
5. forwards the original message to a configured address.

Modules, one per concern:

- `Js` (`js.dfy`): the host-language values involved. `uint8` bytes; `JsText`, a
  field that is a string or `undefined`/`null`, with the text the `+` operator
  inserts for it; the decimal text of a number; `String.prototype.includes`;
  `Fault`, `Result` and `Completion`, which stand in for thrown exceptions.
- `Seqs` (`seqs.dfy`): in-order concatenation of pieces, and where each piece
  lands. Both the stream buffer and the attachment list are such concatenations.
- `StreamBuffer` (`stream_buffer.dfy`): the buffering loop as an imperative
  method over an array. `Buffered` is its loop-free reference.
- `NotifyMessage` (`notify_message.dfy`): the notification text. `Format` is a
  pure function. `BuildNotifyMessage` follows the handler's own `+=` sequence.
- `GatherResponse` (`gather_response.dfy`): the content-type dispatch.
- `EmailHandler` (`email_handler.dfy`): the handler's control skeleton. It is a
  function from the event, the configuration and the abstract capabilities
  (`Host`: parse, fetch, JSON re-serialisation, forward) to a trace of steps and
  a completion.

What the code does at its edges, and the model with it:

- Overflowing stream: `Uint8Array.prototype.set` throws a `RangeError` at the
  first chunk that does not fit (src/index.js:12). That error propagates out of
  the handler before parsing. `Buffered` returns
  `Err(RangeError(offset, length, capacity))`, and `Email` aborts with it.
- Shorter stream: a stream shorter than declared leaves the rest of the buffer
  zero, and those zeros are handed to the parser.
- Missing fields: a missing subject, text body, filename, disposition or mime
  type is rendered the way `+` renders `undefined`/`null`.

## Model

| member | source | states |
|---|---|---|
| StreamBuffer.StreamToArrayBuffer | src/index.js:3-16 | the copy loop, whose offset after each chunk is the number of bytes read so far, yields exactly the loop-free result: success iff the chunk lengths sum to at most `streamSize`; then the buffer is exactly `streamSize` long, its first `sum` bytes are the chunks in arrival order and the rest stay zero; otherwise a `RangeError` whose offset fits but whose copy runs past the end |
| StreamBuffer.Buffered | src/index.js:3-16 | the buffer the function returns: it exists iff the stream fits; it has exactly the declared length, starts with the concatenated chunks and is zero after them; a stream of exactly the declared size is copied as is; a stream that does not fit gives a `RangeError` at an offset inside the buffer for a copy that runs past its end |
| StreamBuffer.FirstOverflow | src/index.js:12-13 | when the chunks do not fit, there is a chunk whose copy at the offset reached before it runs past the end, and that offset itself is within the buffer (the chunk that makes `set` throw) |
| StreamBuffer.BufferedOkIff | src/index.js:7-14 | buffering succeeds exactly when no chunk, copied at the running offset, extends past the declared size |
| StreamBuffer.SplitIndependent | src/index.js:7-14 | two chunkings of the same bytes that fit give the same buffer: the result does not depend on how the stream is split |
| NotifyMessage.Format | src/index.js:44-68 | the notification is the preamble (title, subject, body, attachments heading) followed by a non-empty section, and that section is exactly "No attachments\n" iff the message has no attachments |
| NotifyMessage.BuildNotifyMessage | src/index.js:44-68 | the handler's step-by-step `+=` construction equals the declarative `Format`; with no attachments it ends in "No attachments\n"; the text is always longer than its heading part |
| NotifyMessage.FormatOpening | src/index.js:44-50 | every notification opens with "I received an email from ", the sender, ".", "\n\n## Subject \n", the subject verbatim, "\n\n## Body \n", the text body verbatim, "\n\n" and "## Attachments \n", each at the offset the earlier pieces fix |
| NotifyMessage.EntryShape | src/index.js:61-66 | one attachment's entry starts with a blank line and "Attachment: ", and its last character is a digit of the printed size |
| NotifyMessage.FormatWithAttachments | src/index.js:54-67 | with attachments, the section starts with "\n\nAttachment: " and the text ends in a size digit, not a newline |
| NotifyMessage.FormatFirstAttachment | src/index.js:51-67 | the first attachment replaces the "No attachments" line by its entry, and the text grows |
| NotifyMessage.FormatAppend | src/index.js:55-67 | one more attachment appends exactly its entry, so the text strictly grows |
| NotifyMessage.EntriesInOrder | src/index.js:55-67 | attachment `i`'s entry sits whole right after the entries of attachments `0..i-1`: the entries keep the parser's order |
| NotifyMessage.TwoAttachmentsScenario | src/index.js:55-67 | a 10-byte a.txt then a 2048-byte b.png are listed in that order with sizes "10" and "2048" |
| NotifyMessage.NoAttachmentsScenario | src/index.js:44-53 | from a@b.com, subject "Hi", body "Hello world" and no attachments, the full text is the expected literal |
| NotifyMessage.HeadingInjection | src/index.js:45-47 | subject and body are not escaped: for any texts, a subject containing the body heading gives the same notification as a body containing it |
| NotifyMessage.FormatIgnoresHtml | src/index.js:40-47 | the HTML body never reaches the notification text |
| Js.ToStr | src/index.js:46-47 | a present field is inserted verbatim; a missing field is inserted as "undefined" or "null", so it reads exactly like a field holding that word |
| Js.DecimalString | src/index.js:65 | the size is printed as a canonical decimal: non-empty, digits only, no leading zero, one digit exactly below ten |
| Js.DecimalRoundTrip | src/index.js:65 | reading the printed size back gives the byte length |
| Js.DecimalStringOfParse | src/index.js:65 | every canonical digit string is the printing of the number it denotes |
| Js.Includes | src/index.js:21-25 | the left-to-right `includes` scan succeeds exactly when the needle occurs at some position |
| GatherResponse.HeaderOrEmpty | src/index.js:20 | `|| ''` keeps a present header and gives the empty string exactly when the header is missing or empty |
| GatherResponse.SelectBranch | src/index.js:21-29 | the first test that matches wins: JSON iff "application/json" occurs in the header; "application/text" only without it; "text/html" only without both; only JSON is read as JSON |
| GatherResponse.Gather | src/index.js:18-30 | a header containing "application/json" gives the re-serialised body, and any failure is that of re-serialising; every other header gives the body text unchanged, whichever text branch it takes |
| GatherResponse.ReadsJsonIff | src/index.js:18-29 | the body is decoded as JSON exactly when the content-type header is present and contains "application/json" |
| GatherResponse.MissingHeaderReadsText | src/index.js:20 | an absent header reads as `''` and so as text |
| EmailHandler.Notify | src/index.js:76-94 | a notification block never throws: a failed fetch is caught; a reply that is not JSON by its header is logged as its body text; a JSON reply is logged re-serialised, or caught with the parser's failure |
| EmailHandler.Email | src/index.js:33-129 | the handler completes normally iff the message buffers and parses and `forward` completes normally; a buffering or parse failure is its completion; after a parse the trace has five steps, LINE then Slack carry the formatted text, and forwarding to the configured address is last |
| EmailHandler.EmailFollowsPolicy | src/index.js:33-129 | no notification precedes parsing; a forward is the last step and comes after a LINE attempt followed by a Slack attempt |
| EmailHandler.ForwardOnceIffParsed | src/index.js:35-128 | `forward` is called exactly once when the message buffers and parses, whatever outcome the notifications settle with, and never otherwise |
| EmailHandler.ParseFailureAbortsAll | src/index.js:35-37 | a buffering or parse failure ends the invocation with that failure, with no notification attempted and nothing forwarded |
| EmailHandler.BothNotificationsAttempted | src/index.js:76-125 | after a successful parse both requests are attempted, LINE first, carrying the same formatted text; the invocation completes as `forward` does |
| EmailHandler.LineFailureIsolated | src/index.js:70-125 | LINE's outcome cannot reach later steps: hosts that differ only in how LINE answers give the same Slack step, forward and completion |
| EmailHandler.SlackFailureIsolated | src/index.js:70-128 | likewise Slack's outcome cannot change any other step, the forward or the completion |

## Left out

- MIME parsing (`postal-mime`): `Host.parse` is an abstract function from bytes to a parsed message or a failure.
- `fetch`, HTTP, and the LINE and Slack endpoints: `Host.fetch` is an abstract function from a request to a response or a failure. A request keeps only its service, its credentials and the notification text.
- Request construction: the `URLSearchParams` encoding of the LINE URL, the Slack JSON payload and the request headers are not modelled. They are library serialisation.
- Slack `Content-Length`: the header reads `payload.length`, which is `undefined` on a plain object. It is a defect of the request headers. Modelling it needs `JSON.stringify`, which is outside this model.
- `JSON.stringify(await response.json())`: `Host.reserialise` is an abstract function that may fail.
- GatherResponse.Gather: `response.text()` is taken never to reject, and a repeated `content-type` header is taken as one value.
- `console.log` and `console.error`: the model keeps no log. A caught notification failure is recorded in the trace instead.
- `event.forward` host semantics: `Host.forward` only returns a completion. A rejected forward is the handler's abrupt completion.
- `async`/`await` scheduling: the steps are strictly sequential in the code. The trace records them in that order.
- EmailHandler.Email: every awaited call is taken to settle. The source sets no timeout on `fetch` or `gatherResponse`, so a fetch or reply that never settles leaves the later steps, the forward included, unreached.
- EmailHandler.Email: the `init`, `url`, `response` and `results` variables the two try blocks share are not modelled. Each block gets its own values, because the Slack block assigns every one of them before reading it.
- Environment secrets: they are plain strings in `Env`. Missing configuration only surfaces through the abstract fetch.
- StreamBuffer.StreamToArrayBuffer: the reader is the finite list of chunks it yields before `done`. A reader that rejects is not modelled.
- StreamBuffer.StreamToArrayBuffer: the offset is an unbounded integer, while JavaScript numbers are exact only up to 2^53 bytes.
- Strings: UTF-16 code units and `char` are treated alike. There is no encoding step.
