/** The HTTP side of the bridge (app.py, `http` and `read_body`) as a pure
    decision: from the request, the body chunks the server delivers, the HMAC
    and the JSON parser, to the response the application sends and the chat
    lines it writes while handling the request.

    The chat lines are written before the response is sent: the handler awaits
    the broadcast, then sends its status. */
module Ingress {
  import opened Wrappers
  import opened Text
  import opened Formatting
  import opened Handlers
  import opened Irc
  import opened Signing
  import opened Application

  /** One ASGI `http.request` message: an optional body and an optional
      `more_body` flag. A disconnect message carries neither. */
  datatype Chunk = Chunk(body: Option<seq<byte>>, moreBody: Option<bool>)

  function ChunkBody(c: Chunk): seq<byte> {
    c.body.GetOr([])
  }

  predicate MoreBody(c: Chunk) {
    c.moreBody.GetOr(false)
  }

  /** Every chunk's body, in order. */
  function Concat(chunks: seq<Chunk>): seq<byte> {
    if chunks == [] then [] else ChunkBody(chunks[0]) + Concat(chunks[1..])
  }

  /** `chunks[k]` is the first chunk that says no more body follows. */
  ghost predicate EndsAt(chunks: seq<Chunk>, k: int) {
    && 0 <= k < |chunks|
    && !MoreBody(chunks[k])
    && forall j :: 0 <= j < k ==> MoreBody(chunks[j])
  }

  /** `read_body`: the bodies of the chunks up to and including the first one
      without `more_body`, concatenated in order; a chunk without a body adds
      nothing. When every chunk announces more, the read never finishes. */
  function ReadBody(chunks: seq<Chunk>): (body: Option<seq<byte>>)
    ensures body.None? <==> forall i :: 0 <= i < |chunks| ==> MoreBody(chunks[i])
    ensures forall k :: EndsAt(chunks, k) ==> body == Some(Concat(chunks[..k + 1]))
  {
    if chunks == [] then None
    else if !MoreBody(chunks[0]) then
      assert chunks[..1] == [chunks[0]];
      assert Concat(chunks[..1]) == ChunkBody(chunks[0]) + Concat([]) == ChunkBody(chunks[0]);
      assert forall k :: EndsAt(chunks, k) ==> k == 0;
      Some(ChunkBody(chunks[0]))
    else
      var rest := ReadBody(chunks[1..]);
      ReadBodyStep(chunks, rest);
      match rest
      case None => None
      case Some(more) => Some(ChunkBody(chunks[0]) + more)
  }

  /** How the first chunk, when it announces more, relates the read of all
      chunks to the read of the others. */
  lemma ReadBodyStep(chunks: seq<Chunk>, rest: Option<seq<byte>>)
    requires |chunks| > 0 && MoreBody(chunks[0])
    requires rest.None? <==> forall i :: 0 <= i < |chunks| - 1 ==> MoreBody(chunks[1..][i])
    requires forall k :: EndsAt(chunks[1..], k) ==> rest == Some(Concat(chunks[1..][..k + 1]))
    ensures rest.None? <==> forall i :: 0 <= i < |chunks| ==> MoreBody(chunks[i])
    ensures forall k :: EndsAt(chunks, k) ==>
      (match rest case None => None case Some(more) => Some(ChunkBody(chunks[0]) + more)) == Some(Concat(chunks[..k + 1]))
  {
    forall k | EndsAt(chunks, k)
      ensures rest.Some? && Some(ChunkBody(chunks[0]) + rest.value) == Some(Concat(chunks[..k + 1]))
    {
      assert k > 0;
      assert EndsAt(chunks[1..], k - 1);
      assert chunks[..k + 1][1..] == chunks[1..][..k];
    }
    if forall i :: 0 <= i < |chunks| - 1 ==> MoreBody(chunks[1..][i]) {
      forall i | 0 <= i < |chunks|
        ensures MoreBody(chunks[i])
      {
        if i > 0 {
          assert chunks[i] == chunks[1..][i - 1];
        }
      }
    }
  }

  /** Chunks as a server delivers a body split into `parts`: every chunk but
      the last announces more. */
  function Chunked(parts: seq<seq<byte>>): (chunks: seq<Chunk>)
    requires |parts| > 0
    ensures |chunks| == |parts|
  {
    if |parts| == 1 then [Chunk(Some(parts[0]), Some(false))]
    else [Chunk(Some(parts[0]), Some(true))] + Chunked(parts[1..])
  }

  function Flatten(parts: seq<seq<byte>>): seq<byte> {
    if parts == [] then [] else parts[0] + Flatten(parts[1..])
  }

  /** However a body is split into chunks, reading them gives the whole body back. */
  lemma {:induction false} ReadBodyReassembles(parts: seq<seq<byte>>)
    requires |parts| > 0
    ensures ReadBody(Chunked(parts)) == Some(Flatten(parts))
    decreases |parts|
  {
    var chunks := Chunked(parts);
    if |parts| == 1 {
      assert Flatten(parts) == parts[0] + Flatten([]) == parts[0];
      assert ReadBody(chunks) == Some(ChunkBody(chunks[0]));
    } else {
      ReadBodyReassembles(parts[1..]);
      assert chunks[1..] == Chunked(parts[1..]);
    }
  }

  /** An ASGI `http` scope: its method (`verb`), its path, the two headers the handler decodes and the body chunks. */
  datatype Request = Request(
    verb: string,
    path: string,
    signature: Option<string>,
    event: Option<string>,
    chunks: seq<Chunk>)

  /** What handling one request amounts to. `Responded` carries the status,
      headers and body sent, the message broadcast (if any) and the chat lines
      written. `Stalled`: the body never finished, so nothing is sent.
      `HeaderMissing`: a header the handler decodes was absent, so decoding it
      raised and nothing is sent. `RendererFailed`: the renderer raised, so
      nothing is sent or written. */
  datatype Outcome =
    | Responded(status: int, headers: seq<(string, string)>, body: Option<string>,
                broadcast: Option<string>, ircLines: seq<string>)
    | Stalled
    | HeaderMissing(header: string)
    | RendererFailed(event: string)

  const SignatureHeader: string := "x-hub-signature-256"
  const EventHeader: string := "x-github-event"
  const RedirectTarget: string := "https://github.com/tfaughnan/ghirc"
  const TextPlain: seq<(string, string)> := [("content-type", "text/plain")]
  const AcceptedText: string := "Received payload successfully"
  const UnparsableText: string := "Failed to parse payload as JSON"
  const InvalidSignatureText: string := "Invalid signature"

  predicate IsWebhook(req: Request) {
    req.path == "/webhooks" && req.verb == "POST"
  }

  /** A webhook request whose whole body arrived and whose signature is valid. */
  predicate Authenticated(app: App, req: Request, hmac: Hmac) {
    && IsWebhook(req)
    && ReadBody(req.chunks).Some?
    && req.signature.Some?
    && ValidSignature(app.secret, ReadBody(req.chunks).value, req.signature.value, hmac)
  }

  /** An authenticated request whose body parses and whose event type is subscribed. */
  predicate Delivered(app: App, req: Request, hmac: Hmac, parse: seq<byte> -> Option<Payload>) {
    && Authenticated(app, req, hmac)
    && parse(ReadBody(req.chunks).value).Some?
    && req.event.Some?
    && req.event.value in app.events
  }

  /** The headers the handler decodes are present whenever it reaches them:
      the signature once the body has been read, the event type once the body
      has been authenticated and parsed. */
  predicate HeadersPresent(app: App, req: Request, hmac: Hmac, parse: seq<byte> -> Option<Payload>) {
    && (IsWebhook(req) && ReadBody(req.chunks).Some? ==> req.signature.Some?)
    && (Authenticated(app, req, hmac) && parse(ReadBody(req.chunks).value).Some? ==> req.event.Some?)
  }

  /** The renderer's verdict on a delivered request. */
  function Verdict(app: App, req: Request, hmac: Hmac, parse: seq<byte> -> Option<Payload>): Rendered
    requires Valid(app)
    requires Delivered(app, req, hmac, parse)
  {
    Render(req.event.value, parse(ReadBody(req.chunks).value).value, app.formatting)
  }

  /** A 202 response, with the broadcast of `message` when there is one. */
  function Accepted(app: App, message: Option<string>): (out: Outcome)
    ensures out.Responded? && out.status == 202
  {
    Responded(202, TextPlain, Some(AcceptedText), message,
              if message.Some? then Broadcast(app.channels, message.value) else [])
  }

  /** `http`: 307 for anything but POST /webhooks; 401 when the signature does
      not match the body; 400 when the body is not JSON; otherwise 202, with a
      broadcast to every channel exactly when the event type is subscribed and
      its renderer produces a message. */
  function Http(app: App, req: Request, hmac: Hmac, parse: seq<byte> -> Option<Payload>): (out: Outcome)
    requires Valid(app)
    ensures !IsWebhook(req) ==> out == Responded(307, [("location", RedirectTarget)], None, None, [])
    ensures out.Stalled? <==> IsWebhook(req) && ReadBody(req.chunks).None?
    ensures out.HeaderMissing? <==> !HeadersPresent(app, req, hmac, parse)
    ensures IsWebhook(req) && ReadBody(req.chunks).Some? && req.signature.None? ==> out == HeaderMissing(SignatureHeader)
    ensures Authenticated(app, req, hmac) && parse(ReadBody(req.chunks).value).Some? && req.event.None? ==>
      out == HeaderMissing(EventHeader)
    ensures IsWebhook(req) && ReadBody(req.chunks).Some? && req.signature.Some? && !Authenticated(app, req, hmac) ==>
      out == Responded(401, TextPlain, Some(InvalidSignatureText), None, [])
    ensures Authenticated(app, req, hmac) && parse(ReadBody(req.chunks).value).None? ==>
      out == Responded(400, TextPlain, Some(UnparsableText), None, [])
    ensures Authenticated(app, req, hmac) && parse(ReadBody(req.chunks).value).Some? && out.Responded? ==>
      out.status == 202 && out.headers == TextPlain && out.body == Some(AcceptedText)
    ensures out.Responded? ==>
      out.ircLines == if out.broadcast.Some? then Broadcast(app.channels, out.broadcast.value) else []
    ensures out.Responded? && out.broadcast.Some? ==>
      Delivered(app, req, hmac, parse) && Verdict(app, req, hmac, parse) == Message(out.broadcast.value)
    ensures Delivered(app, req, hmac, parse) && Verdict(app, req, hmac, parse).Message? ==>
      out == Accepted(app, Some(Verdict(app, req, hmac, parse).text))
    ensures out.RendererFailed? <==> Delivered(app, req, hmac, parse) && Verdict(app, req, hmac, parse).VerbUnbound?
    ensures out.RendererFailed? ==> req.event.Some? && out.event == req.event.value
  {
    if !IsWebhook(req) then
      Responded(307, [("location", RedirectTarget)], None, None, [])
    else
      match ReadBody(req.chunks)
      case None => Stalled
      case Some(raw) =>
        if req.signature.None? then HeaderMissing(SignatureHeader)
        else if !ValidSignature(app.secret, raw, req.signature.value, hmac) then
          Responded(401, TextPlain, Some(InvalidSignatureText), None, [])
        else
          match parse(raw)
          case None => Responded(400, TextPlain, Some(UnparsableText), None, [])
          case Some(payload) =>
            if req.event.None? then HeaderMissing(EventHeader)
            else if req.event.value !in app.events then Accepted(app, None)
            else
              match Render(req.event.value, payload, app.formatting)
              case VerbUnbound(_) => RendererFailed(req.event.value)
              case Suppressed => Accepted(app, None)
              case Message(text) => if |text| > 0 then Accepted(app, Some(text)) else Accepted(app, None)
  }

  /** A request that fails authentication is never parsed: the outcome is the
      same whatever the parser would have said. */
  lemma UnauthenticatedNeverParsed(app: App, req: Request, hmac: Hmac,
                                   parse: seq<byte> -> Option<Payload>, other: seq<byte> -> Option<Payload>)
    requires Valid(app)
    requires !Authenticated(app, req, hmac)
    ensures Http(app, req, hmac, parse) == Http(app, req, hmac, other)
    ensures Http(app, req, hmac, parse).Responded? ==> Http(app, req, hmac, parse).broadcast.None?
  {
  }

  /** Every broadcast was signed: the presented signature is the one computed
      from the secret and the body received. */
  lemma BroadcastImpliesSigned(app: App, req: Request, hmac: Hmac, parse: seq<byte> -> Option<Payload>)
    requires Valid(app)
    requires Http(app, req, hmac, parse).Responded? && Http(app, req, hmac, parse).broadcast.Some?
    ensures ReadBody(req.chunks).Some?
    ensures req.signature == Some(Signature(app.secret, ReadBody(req.chunks).value, hmac))
  {
  }

  /** An authenticated, parsed delivery of an event type the bridge is not
      subscribed to is acknowledged with 202 and broadcasts nothing. */
  lemma UnsubscribedIsAcknowledgedSilently(app: App, req: Request, hmac: Hmac, parse: seq<byte> -> Option<Payload>)
    requires Valid(app)
    requires Authenticated(app, req, hmac) && parse(ReadBody(req.chunks).value).Some?
    requires req.event.Some? && req.event.value !in app.events
    ensures Http(app, req, hmac, parse) == Accepted(app, None)
    ensures Http(app, req, hmac, parse).ircLines == []
  {
  }

  /** A request that passes the signature check and whose body parses is
      answered 202, unless its event header is missing or its renderer fails. */
  lemma ParsedRequestAccepted(app: App, req: Request, hmac: Hmac, parse: seq<byte> -> Option<Payload>)
    requires Valid(app)
    requires Authenticated(app, req, hmac) && parse(ReadBody(req.chunks).value).Some?
    requires req.event.Some?
    requires !(Delivered(app, req, hmac, parse) && Verdict(app, req, hmac, parse).VerbUnbound?)
    ensures Http(app, req, hmac, parse).Responded?
    ensures Http(app, req, hmac, parse).status == 202
  {
  }

  /** A subscribed delivery whose renderer stays silent (a push that created
      or deleted its ref, an issues or pull_request action outside the handled
      ones) is acknowledged with 202 and broadcasts nothing. */
  lemma SuppressedIsAcknowledgedSilently(app: App, req: Request, hmac: Hmac, parse: seq<byte> -> Option<Payload>)
    requires Valid(app)
    requires Delivered(app, req, hmac, parse)
    requires Verdict(app, req, hmac, parse).Suppressed?
    ensures Http(app, req, hmac, parse) == Accepted(app, None)
    ensures Http(app, req, hmac, parse).ircLines == []
  {
  }

  /** For a subscribed delivery, the bridge broadcasts exactly when the renderer
      produces a message, and then one PRIVMSG per channel carries it. */
  lemma BroadcastIffRendered(app: App, req: Request, hmac: Hmac, parse: seq<byte> -> Option<Payload>)
    requires Valid(app)
    requires Delivered(app, req, hmac, parse)
    ensures var out := Http(app, req, hmac, parse);
      (out.Responded? && out.broadcast.Some?) <==> Verdict(app, req, hmac, parse).Message?
    ensures var out := Http(app, req, hmac, parse);
      out.Responded? && out.broadcast.Some? ==>
        |out.ircLines| == |app.channels|
        && forall i :: 0 <= i < |app.channels| ==> out.ircLines[i] == PrivmsgLine(app.channels[i], out.broadcast.value)
  {
  }

  /** A line break in the first 32 characters of a new comment's body reaches
      the chat unchanged: the PRIVMSG line written for it is not one protocol
      message. Multi-line comments are common, so this is reachable. */
  lemma CommentLineBreakReachesChat(p: Payload, fmt: map<string, string>, channel: string)
    requires Decorates(fmt)
    requires p.action == "created"
    requires !NoLineBreak(Truncate(p.comment.body))
    ensures IssueComment(p, fmt).Message?
    ensures ParseLine(PrivmsgLine(channel, IssueComment(p, fmt).text)) == None
  {
    var text := IssueComment(p, fmt).text;
    var verb := " " + CommentVerb(p.action, p.comment.body).value;
    QuotedLineBreak(p.comment.body);
    LineBreakAfter(PayloadPrefix(p, fmt), verb);
    LineBreakCarriesOver(text, PayloadPrefix(p, fmt) + verb);
    PrivmsgLineBreakBreaksMessage(channel, text);
  }

  /** The verb phrase of a new comment keeps the line breaks of its quote. */
  lemma QuotedLineBreak(body: string)
    requires !NoLineBreak(Truncate(body))
    ensures !NoLineBreak(" " + CommentVerb("created", body).value)
  {
    var q := Truncate(body);
    LineBreakAfter("\"", q);
    LineBreakBefore("\"" + q, "\"");
    assert CommentQuote(body) == "\"" + q + "\"";
    LineBreakAfter("commented ", CommentQuote(body));
    LineBreakAfter(" ", "commented " + CommentQuote(body));
  }

  lemma LineBreakCarriesOver(text: string, head: string)
    requires StartsWith(text, head) && !NoLineBreak(head)
    ensures !NoLineBreak(text)
  {
    if '\r' in head {
      var j :| 0 <= j < |head| && head[j] == '\r';
      assert text[j] == '\r';
    } else {
      var j :| 0 <= j < |head| && head[j] == '\n';
      assert text[j] == '\n';
    }
  }
}
