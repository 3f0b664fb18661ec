/**
  The `email` handler: buffer the raw stream, parse it, build the notification
  text, send it to LINE Notify and then to a Slack webhook, each inside its own
  try/catch, and finally forward the original message.

  The MIME parser, `fetch`, the JSON parser and the host's `forward` are
  parameters (`Host`); the handler itself is a function from the event, the
  configuration and those capabilities to the trace of steps it takes and the
  way it completes.
 */
module EmailHandler {
  import opened Js
  import opened StreamBuffer
  import opened NotifyMessage
  import opened GatherResponse

  /** The inbound event: the sender, the raw stream as the chunks it yields,
      and the size the host declares for it. */
  datatype EmailEvent = EmailEvent(from: string, raw: seq<seq<uint8>>, rawSize: nat)

  /** The configuration read from `env`. */
  datatype Env = Env(lineNotifyToken: string, slackBotAccessToken: string,
                     slackWebhookUrl: string, forwardEmailAddress: string)

  /** The two outbound requests, reduced to what tells them apart: the
      service, its credentials and the notification text they carry. (The
      Slack request's `Content-Length` header is taken from `payload.length`,
      which a plain object does not have; headers are not part of this model.) */
  datatype Request =
    | LineNotify(token: string, message: string)
    | SlackWebhook(url: string, token: string, message: string)

  /** The capabilities the handler calls into. */
  datatype Host = Host(
    parse: seq<uint8> -> Result<ParsedEmail>,
    fetch: Request -> Result<Response>,
    reserialise: string -> Result<string>,
    forward: string -> Completion)

  /** How one notification block ends: its results logged, or its failure
      caught (and logged). */
  datatype Delivery = Logged(results: string) | Caught(fault: Fault)

  /** The observable steps of one invocation. */
  datatype Event =
    | StreamBuffered
    | MailParsed
    | Notified(request: Request, delivery: Delivery)
    | Forwarded(address: string)

  datatype Run = Run(trace: seq<Event>, completion: Completion)

  /** One notification block: `fetch`, then `gatherResponse`, inside a
      try/catch that turns any failure of either into a caught fault. The block
      itself never throws. A reply that is not JSON by its header is logged
      as its body text; a JSON reply is logged re-serialised, or caught when
      its body does not parse. */
  function Notify(host: Host, request: Request): (d: Delivery)
    ensures host.fetch(request).Err? ==> d == Caught(host.fetch(request).error)
    ensures host.fetch(request).Ok?
            && !Includes(HeaderOrEmpty(host.fetch(request).value.contentType), "application/json")
            ==> d == Logged(host.fetch(request).value.body)
    ensures host.fetch(request).Ok?
            && Includes(HeaderOrEmpty(host.fetch(request).value.contentType), "application/json")
            ==> match host.reserialise(host.fetch(request).value.body)
                case Ok(text) => d == Logged(text)
                case Err(f) => d == Caught(f)
  {
    match host.fetch(request)
    case Err(f) => Caught(f)
    case Ok(response) =>
      match Gather(response, host.reserialise)
      case Err(f) => Caught(f)
      case Ok(results) => Logged(results)
  }

  /** The parsed message, or the failure that ends the invocation before any
      notification: a stream longer than declared, or a parse failure. */
  function Parsed(event: EmailEvent, host: Host): Result<ParsedEmail> {
    match Buffered(event.raw, event.rawSize)
    case Err(f) => Err(f)
    case Ok(emailData) => host.parse(emailData)
  }

  function LineRequest(env: Env, message: string): Request {
    LineNotify(env.lineNotifyToken, message)
  }

  function SlackRequest(env: Env, message: string): Request {
    SlackWebhook(env.slackWebhookUrl, env.slackBotAccessToken, message)
  }

  /** The handler. A failure while buffering or parsing propagates at once;
      each notification block completes whatever its outcome; the completion of
      `forward` is the completion of the whole invocation, so it completes
      normally exactly when the message parses and the forward succeeds.

      The source declares `init`, `url`, `response` and `results` once and
      shares them between the two try blocks; the Slack block assigns each of
      them before reading it, so nothing the LINE block leaves there reaches
      it. The model gives each block its own values, which is what that
      reassignment amounts to. */
  function Email(event: EmailEvent, env: Env, host: Host): (r: Run)
    ensures r.completion.Normal? <==> Parsed(event, host).Ok? && host.forward(env.forwardEmailAddress).Normal?
    ensures Parsed(event, host).Err? ==> r.completion == Abrupt(Parsed(event, host).error) && |r.trace| <= 1
    ensures Parsed(event, host).Ok? ==>
              && |r.trace| == 5
              && r.trace[4] == Forwarded(env.forwardEmailAddress)
              && r.completion == host.forward(env.forwardEmailAddress)
    ensures Parsed(event, host).Ok? ==>
              var message := Format(event.from, Parsed(event, host).value);
              && r.trace[2].Notified? && r.trace[2].request == LineRequest(env, message)
              && r.trace[3].Notified? && r.trace[3].request == SlackRequest(env, message)
  {
    match Buffered(event.raw, event.rawSize)
    case Err(f) => Run([], Abrupt(f))
    case Ok(emailData) =>
      match host.parse(emailData)
      case Err(f) => Run([StreamBuffered], Abrupt(f))
      case Ok(parsedEmail) =>
        var notifyMessage := Format(event.from, parsedEmail);
        var line := LineRequest(env, notifyMessage);
        var slack := SlackRequest(env, notifyMessage);
        Run([StreamBuffered, MailParsed,
             Notified(line, Notify(host, line)),
             Notified(slack, Notify(host, slack)),
             Forwarded(env.forwardEmailAddress)],
            host.forward(env.forwardEmailAddress))
  }

  // ---------------------------------------------------------------------------
  // The step-ordering policy, stated over traces
  // ---------------------------------------------------------------------------

  /** How many times `forward` is called in a trace. */
  function ForwardCount(trace: seq<Event>): nat {
    if |trace| == 0 then 0
    else ForwardCount(trace[..|trace| - 1]) + (if trace[|trace| - 1].Forwarded? then 1 else 0)
  }

  /** The notification requests attempted, in order. */
  function Attempts(trace: seq<Event>): seq<Request> {
    if |trace| == 0 then []
    else Attempts(trace[..|trace| - 1])
         + (if trace[|trace| - 1].Notified? then [trace[|trace| - 1].request] else [])
  }

  /** The ordering the handler promises: nothing is notified before the
      message is parsed; a forward, if any, is the last step and comes after a
      LINE attempt followed by a Slack attempt. */
  predicate FollowsPolicy(trace: seq<Event>) {
    && (forall k :: 0 <= k < |trace| && trace[k].Notified? ==>
          exists j :: 0 <= j < k && trace[j] == MailParsed)
    && (forall k :: 0 <= k < |trace| && trace[k].Forwarded? ==>
          && k == |trace| - 1
          && exists a, b :: 0 <= a < b < k && trace[a].Notified? && trace[a].request.LineNotify?
                                          && trace[b].Notified? && trace[b].request.SlackWebhook?)
  }

  lemma ForwardCountFive(a: Event, b: Event, c: Event, d: Event, e: Event)
    ensures ForwardCount([a, b, c, d, e])
            == (if a.Forwarded? then 1 else 0) + (if b.Forwarded? then 1 else 0) + (if c.Forwarded? then 1 else 0)
               + (if d.Forwarded? then 1 else 0) + (if e.Forwarded? then 1 else 0)
  {
    var t := [a, b, c, d, e];
    assert t[..4] == [a, b, c, d] && t[..3] == [a, b, c] && t[..2] == [a, b] && t[..1] == [a];
    assert [a, b, c, d][..3] == [a, b, c];
    assert [a, b, c][..2] == [a, b];
    assert [a, b][..1] == [a];
    assert [a][..0] == [];
    assert ForwardCount([a]) == (if a.Forwarded? then 1 else 0);
    assert ForwardCount([a, b]) == ForwardCount([a]) + (if b.Forwarded? then 1 else 0);
    assert ForwardCount([a, b, c]) == ForwardCount([a, b]) + (if c.Forwarded? then 1 else 0);
    assert ForwardCount([a, b, c, d]) == ForwardCount([a, b, c]) + (if d.Forwarded? then 1 else 0);
  }

  lemma AttemptsFive(a: Event, b: Event, c: Request, dc: Delivery, d: Request, dd: Delivery, e: Event)
    requires !a.Notified? && !b.Notified? && !e.Notified?
    ensures Attempts([a, b, Notified(c, dc), Notified(d, dd), e]) == [c, d]
  {
    var nc, nd := Notified(c, dc), Notified(d, dd);
    assert [a, b, nc, nd, e][..4] == [a, b, nc, nd];
    assert [a, b, nc, nd][..3] == [a, b, nc];
    assert [a, b, nc][..2] == [a, b];
    assert [a, b][..1] == [a];
    assert [a][..0] == [];
    assert Attempts([a]) == [];
    assert Attempts([a, b]) == [];
    assert Attempts([a, b, nc]) == [c];
    assert Attempts([a, b, nc, nd]) == [c, d];
  }

  /** The full five-step trace keeps to the policy. */
  lemma CompleteTraceFollowsPolicy(line: Request, dl: Delivery, slack: Request, ds: Delivery, address: string)
    requires line.LineNotify? && slack.SlackWebhook?
    ensures FollowsPolicy([StreamBuffered, MailParsed, Notified(line, dl), Notified(slack, ds), Forwarded(address)])
  {
    var t := [StreamBuffered, MailParsed, Notified(line, dl), Notified(slack, ds), Forwarded(address)];
    forall k | 0 <= k < |t| && t[k].Notified?
      ensures exists j :: 0 <= j < k && t[j] == MailParsed
    {
      assert t[1] == MailParsed;
    }
    forall k | 0 <= k < |t| && t[k].Forwarded?
      ensures k == |t| - 1
      ensures exists a, b :: 0 <= a < b < k && t[a].Notified? && t[a].request.LineNotify?
                                          && t[b].Notified? && t[b].request.SlackWebhook?
    {
      assert t[2].Notified? && t[2].request.LineNotify?;
      assert t[3].Notified? && t[3].request.SlackWebhook?;
    }
  }

  /** Every invocation keeps to the ordering policy. */
  lemma EmailFollowsPolicy(event: EmailEvent, env: Env, host: Host)
    ensures FollowsPolicy(Email(event, env, host).trace)
  {
    var t := Email(event, env, host).trace;
    if Parsed(event, host).Ok? {
      CompleteTraceFollowsPolicy(t[2].request, t[2].delivery, t[3].request, t[3].delivery, env.forwardEmailAddress);
      assert t == [StreamBuffered, MailParsed, Notified(t[2].request, t[2].delivery),
                   Notified(t[3].request, t[3].delivery), Forwarded(env.forwardEmailAddress)];
    } else {
      assert t == [] || t == [StreamBuffered];
    }
  }

  /** `forward` is called exactly once when the message parses, whatever the
      two notifications do, and never when buffering or parsing fails. */
  lemma ForwardOnceIffParsed(event: EmailEvent, env: Env, host: Host)
    ensures ForwardCount(Email(event, env, host).trace) == (if Parsed(event, host).Ok? then 1 else 0)
  {
    var t := Email(event, env, host).trace;
    if Parsed(event, host).Ok? {
      ForwardCountFive(t[0], t[1], t[2], t[3], t[4]);
      assert t == [t[0], t[1], t[2], t[3], t[4]];
    } else if |t| == 1 {
      assert t[..0] == [];
    }
  }

  /** A failure to buffer or parse ends the invocation with that failure,
      before any notification is attempted or anything is forwarded. */
  lemma ParseFailureAbortsAll(event: EmailEvent, env: Env, host: Host)
    requires Parsed(event, host).Err?
    ensures Email(event, env, host).completion == Abrupt(Parsed(event, host).error)
    ensures Attempts(Email(event, env, host).trace) == []
    ensures ForwardCount(Email(event, env, host).trace) == 0
  {
    var t := Email(event, env, host).trace;
    ForwardOnceIffParsed(event, env, host);
    if |t| == 1 {
      assert t[..0] == [];
    }
  }

  /** When the message parses, both notifications are attempted, LINE first,
      carrying the same formatted text, whether or not either fails; and the
      invocation completes as `forward` does. */
  lemma BothNotificationsAttempted(event: EmailEvent, env: Env, host: Host)
    requires Parsed(event, host).Ok?
    ensures var message := Format(event.from, Parsed(event, host).value);
            Attempts(Email(event, env, host).trace) == [LineRequest(env, message), SlackRequest(env, message)]
    ensures Email(event, env, host).completion == host.forward(env.forwardEmailAddress)
    ensures Email(event, env, host).completion.Normal? ==> Parsed(event, host).Ok?
  {
    var t := Email(event, env, host).trace;
    var message := Format(event.from, Parsed(event, host).value);
    AttemptsFive(t[0], t[1], t[2].request, t[2].delivery, t[3].request, t[3].delivery, t[4]);
    assert t == [t[0], t[1], Notified(t[2].request, t[2].delivery), Notified(t[3].request, t[3].delivery), t[4]];
  }

  /** Isolation: what the LINE block does cannot reach anything after it. Two
      hosts that may differ in how LINE answers, but agree on everything else,
      give the same Slack outcome, the same forward and the same completion. */
  lemma LineFailureIsolated(event: EmailEvent, env: Env, h1: Host, h2: Host)
    requires h1.parse == h2.parse && h1.reserialise == h2.reserialise && h1.forward == h2.forward
    requires forall r: Request :: r.SlackWebhook? ==> h1.fetch(r) == h2.fetch(r)
    ensures |Email(event, env, h1).trace| == |Email(event, env, h2).trace|
    ensures forall k :: 0 <= k < |Email(event, env, h1).trace| && k != 2 ==>
              Email(event, env, h1).trace[k] == Email(event, env, h2).trace[k]
    ensures Email(event, env, h1).completion == Email(event, env, h2).completion
  {
    assert Parsed(event, h1) == Parsed(event, h2);
    if Parsed(event, h1).Ok? {
      var slack := SlackRequest(env, Format(event.from, Parsed(event, h1).value));
      assert h1.fetch(slack) == h2.fetch(slack);
      SameNotification(h1, h2, slack);
    }
  }

  /** Hosts that answer a request alike, and agree on the JSON parser, give
      the same outcome for that notification block. */
  lemma SameNotification(h1: Host, h2: Host, request: Request)
    requires h1.fetch(request) == h2.fetch(request) && h1.reserialise == h2.reserialise
    ensures Notify(h1, request) == Notify(h2, request)
  {
  }

  /** The same for the Slack block: it cannot change the forward or the
      completion, and it comes after LINE, so LINE's outcome is unaffected. */
  lemma SlackFailureIsolated(event: EmailEvent, env: Env, h1: Host, h2: Host)
    requires h1.parse == h2.parse && h1.reserialise == h2.reserialise && h1.forward == h2.forward
    requires forall r: Request :: r.LineNotify? ==> h1.fetch(r) == h2.fetch(r)
    ensures |Email(event, env, h1).trace| == |Email(event, env, h2).trace|
    ensures forall k :: 0 <= k < |Email(event, env, h1).trace| && k != 3 ==>
              Email(event, env, h1).trace[k] == Email(event, env, h2).trace[k]
    ensures Email(event, env, h1).completion == Email(event, env, h2).completion
  {
    assert Parsed(event, h1) == Parsed(event, h2);
    if Parsed(event, h1).Ok? {
      var line := LineRequest(env, Format(event.from, Parsed(event, h1).value));
      assert h1.fetch(line) == h2.fetch(line);
      SameNotification(h1, h2, line);
    }
  }
}
