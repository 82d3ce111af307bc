# ghirc in Dafny

ghirc bridges GitHub webhooks to IRC. It is an ASGI application that also
keeps one client connection to an IRC server. On startup it registers a
nickname and joins the configured channels, and it answers the server's
PINGs. A `POST /webhooks` delivery is handled in four steps:

1. read the whole request body;
2. check the body against the `X-Hub-Signature-256` HMAC;
3. parse the body as JSON;
4. when the `X-GitHub-Event` type is subscribed and its renderer produces a
   message, send that message as a PRIVMSG to every configured channel.

The reply is 202, 400, 401 or a 307 redirect.

This project models that core as pure functions over immutable data:

- `Text`: prefix and suffix tests, Python's `str.strip()` (with its
  whitespace set) and the decimal rendering of integers.
- `Formatting`: the palette, the decorated `repo: user` prefix every
  message opens with, and the 32-character truncation of titles and
  comment bodies.
- `Handlers`: the nine renderers (create, delete, fork, issue_comment,
  issues, ping, pull_request, push, star) and the handler table.
- `Irc`: the lines written at registration, on a PING and on a broadcast.
  It also has a reader for RFC 2812 message lines (section 2.3.1), which
  serves as the partner that every line builder is checked against. The reader
  is more lenient than the grammar in three places, listed under "Left out".
- `Signing`: signature acceptance, with lowercase hexadecimal rendering
  and reading. The HMAC itself is a function parameter about which
  nothing is assumed.
- `Application`: constructing the bridge from its configuration, and
  refusing event types that have no renderer.
- `Ingress`: the request handler as a decision from the request, the body
  chunks, the HMAC and the JSON parser to the outcome. The outcome is the
  response sent plus the chat lines written, or one of the ways the handler
  ends without responding.

A renderer's `None` is `Suppressed`. A renderer that reads its `verb`
without binding it (star and issue_comment, for an action they do not
list) is `VerbUnbound`. That raise is an `UnboundLocalError` in the code,
and no response is sent for it.

## Model

| member | source | states |
|---|---|---|
| Text.Strip | src/app.py:86 | the stripped line is a slice of the raw line that neither begins nor ends with Python whitespace, and everything cut off on either side is whitespace |
| Text.StripDropsTrailingSpace | src/app.py:86 | a line with no surrounding whitespace followed by a whitespace tail (such as CR LF) strips back to the line itself |
| Text.NatToStringRoundTrip | src/handlers.py:69 | the decimal digits rendered for a number read back as that number |
| Text.IntToStringInjective | src/handlers.py:69 | distinct issue, pull-request or hook numbers render as distinct text |
| Text.IntToString | src/handlers.py:69 | a number renders as non-empty text that opens with a minus sign exactly when the number is negative |
| Formatting.Palette | src/app.py:21-41 | the palette holds every name the renderers look up; bold is byte 2, colour is byte 3, and every other entry is a two-digit colour number |
| Formatting.PalettePrefix | src/handlers.py:14-16 | with the application's palette, a message opens with colour 01,08 around the repository name, a colour reset, ": ", and the login in bold; it is 11 characters longer than the two names |
| Formatting.PrefixReadSound | src/handlers.py:14-15 | whatever names are read from a message are exactly the decorated prefix it opens with, and they are names the reader reads back |
| Formatting.PrefixReadsBack | src/handlers.py:14-15 | the repository name and login can be read back from any message, as long as the name holds no colour byte and the login no bold byte |
| Formatting.Truncate | src/handlers.py:60 | text of at most 32 characters is kept; longer text becomes its first 32 characters followed by "...", which is 35 characters |
| Formatting.TruncateIdempotent | src/handlers.py:60 | truncating a truncated text changes nothing |
| Formatting.TruncateFixedPoints | src/handlers.py:60 | truncation leaves a text unchanged exactly when it is short, or is 35 characters ending in "..." |
| Handlers.CreateUrl | src/handlers.py:6-12 | a branch links to its tree, a tag to its release page, and any other ref type to the repository page; every link extends the repository URL |
| Handlers.DeleteUrl | src/handlers.py:25-31 | a branch links to the branch list, a tag to the tag list, and any other ref type to the repository page |
| Handlers.IssuesVerb | src/handlers.py:81-93 | an issues message exists exactly for opened, edited, deleted, closed and reopened, and names the action itself |
| Handlers.PullRequestVerb | src/handlers.py:120-132 | a pull-request message exists exactly for five actions; a closed pull request reads "merged" exactly when it was merged; synchronize reads "synchronized" |
| Handlers.CommentVerb | src/handlers.py:57-65 | a comment verb exists exactly for created, edited and deleted; a new comment quotes its truncated body |
| Handlers.StarVerb | src/handlers.py:162-166 | a star verb exists exactly for created ("starred") and deleted ("unstarred") |
| Handlers.Create | src/handlers.py:1-17 | always a message: the prefix, "created", the ref type and ref, then " @ " and the ref's link, with no other characters |
| Handlers.Delete | src/handlers.py:20-36 | always a message: the prefix, "deleted", the ref type and ref, then " @ " and the list link, with no other characters |
| Handlers.Fork | src/handlers.py:39-47 | always a message: the prefix and "forked repo", then " @ " and the fork's URL |
| Handlers.IssueComment | src/handlers.py:51-70 | never suppressed; fails exactly for actions other than created, edited and deleted; otherwise the prefix, the verb phrase, then the issue number and the comment URL |
| Handlers.Issues | src/handlers.py:73-98 | suppressed exactly for actions outside the five handled ones and never fails; otherwise the prefix, the action, the issue number, then the quoted truncated title and the issue URL |
| Handlers.Ping | src/handlers.py:101-109 | always a message: the prefix followed by "created a webhook with id=" and the hook id |
| Handlers.PullRequestEvent | src/handlers.py:112-137 | suppressed exactly for actions outside the five handled ones and never fails; otherwise the prefix, the verb, the PR number, then the quoted truncated title and the PR URL |
| Handlers.Push | src/handlers.py:140-154 | suppressed exactly when the push created or deleted the ref; otherwise "force-pushed" or "pushed", the ref and the compare URL |
| Handlers.Star | src/handlers.py:157-171 | never suppressed; fails exactly for actions other than created and deleted; otherwise the prefix, the verb, "repo" and the stargazers URL |
| Handlers.MessageTexts | src/handlers.py:1-171 | every message text is exactly the decorated prefix, the event phrase and the link, with no other characters |
| Handlers.Render | src/app.py:48-58 | every message any registered renderer produces opens with the decorated prefix and is never empty; only issues, pull_request and push can be suppressed; only issue_comment and star can fail |
| Irc.Registration | src/app.py:70-78 | after connecting, the bridge writes NICK, then USER with mode 8 and its real name, then one JOIN per channel in the configured order, and nothing else |
| Irc.RegistrationReadsBack | src/app.py:70-78 | each registration line reads back through the RFC 2812 reader as the intended command and parameters: NICK, USER (nickname, 8, *, real name), and JOIN for each channel |
| Irc.NickReadsBack | src/app.py:70 | the NICK line reads back as the command NICK with the nickname as its one parameter |
| Irc.UserReadsBack | src/app.py:71-73 | the USER line reads back as USER with the nickname, mode 8, "*" and the whole real name, spaces included |
| Irc.JoinReadsBack | src/app.py:76-77 | each JOIN line reads back as JOIN with the channel as its one parameter |
| Irc.PrivmsgReadsBack | src/app.py:97 | a PRIVMSG line reads back as PRIVMSG to the channel with the whole text as its trailing parameter, when the text holds no line break |
| Irc.Broadcast | src/app.py:95-98 | a broadcast writes exactly one PRIVMSG per channel, in channel order |
| Irc.BroadcastReadsBack | src/app.py:95-98 | each broadcast line reads back as a PRIVMSG to its channel carrying the whole text, when the text holds no line break |
| Irc.PrivmsgLineBreakBreaksMessage | src/app.py:97 | a text with CR or LF does not go out as one protocol message |
| Irc.PingTokenMatches | src/app.py:88 | the ping pattern matches exactly the lines "PING " + token with no line feed in the token, optionally followed by one final line feed, and captures the token |
| Irc.Keepalive | src/app.py:84-93 | one turn of the receive loop writes at most one line; it writes a PONG exactly when the stripped line is a ping, and the PONG echoes the text after "PING " |
| Irc.KeepaliveIgnoresNickname | src/app.py:89 | the nickname fallback for the token never takes effect |
| Irc.PongAnswersPing | src/app.py:86-91 | a server ping with a token is answered with exactly one PONG carrying that token |
| Irc.BarePingUnanswered | src/app.py:86-88 | a ping with no token, once stripped, gets no answer |
| Irc.PongEchoesPingParams | src/app.py:88-90 | the PONG written carries exactly the parameters of the PING it answers |
| Signing.Hex | src/app.py:177 | the hexdigest has two lowercase hexadecimal digits per digest byte |
| Signing.UnHexHex | src/app.py:177 | reading back a hexdigest gives the digest |
| Signing.HexUnHex | src/app.py:177 | any hexadecimal text that reads back is the hexdigest of what it reads as, so each digest has exactly one spelling |
| Signing.HexInjective | src/app.py:177 | distinct digests have distinct hexdigests |
| Signing.Signature | src/app.py:173-178 | the expected signature is "sha256=" followed by text that reads back as the HMAC of the body under the secret |
| Signing.ValidSignature | src/app.py:172-180 | a presented signature is accepted exactly when it is "sha256=" followed by lowercase hex that reads back as the HMAC of the body under the secret |
| Signing.SignedBodyAccepted | src/app.py:172-180 | the signature computed from the secret and the body is accepted |
| Signing.OnlyTheSignatureAccepted | src/app.py:180 | every other presented text is refused |
| Signing.AcceptanceDeterminesDigest | src/app.py:172-180 | a signature accepted for two (secret, body) pairs means their HMACs agree |
| Application.NewApp | src/app.py:12-63 | construction fails exactly when a subscribed event type has no renderer, naming the first such type; otherwise the configuration is kept unchanged, the palette is the fixed one, and every subscribed type has a renderer |
| Ingress.ReadBody | src/app.py:161-170 | the body is the concatenation of the chunks up to and including the first chunk that does not announce more; a missing body adds nothing; when every chunk announces more, no body is produced |
| Ingress.ReadBodyReassembles | src/app.py:161-170 | however a body is split into chunks, reading them gives the whole body back |
| Ingress.Http | src/app.py:114-159 | 307 for anything but POST /webhooks; no response exactly while the body is unfinished; no response when a header the handler decodes is missing, naming the signature header when it is absent after the body is read and the event header when it is absent after the body is authenticated and parsed; 401 when the signature does not match; 400 when the body is not JSON; otherwise 202; a broadcast exactly when the delivery is subscribed and its renderer produces a message; no response when the renderer fails, naming the delivered event type |
| Ingress.UnauthenticatedNeverParsed | src/app.py:123-146 | a request that fails authentication gets the same outcome whatever the parser would say, and it broadcasts nothing |
| Ingress.BroadcastImpliesSigned | src/app.py:121-139 | every broadcast comes from a request whose presented signature is the one computed from the secret and the body received |
| Ingress.UnsubscribedIsAcknowledgedSilently | src/app.py:127-139 | an authenticated, parsed delivery of an event type that is not subscribed is answered 202 and writes no chat line |
| Ingress.ParsedRequestAccepted | src/app.py:124-139 | a request with a valid signature and a JSON body is answered 202 whenever its event header is present and its renderer does not fail, whether it is subscribed, suppressed or broadcast |
| Ingress.SuppressedIsAcknowledgedSilently | src/app.py:127-139 | a subscribed delivery whose renderer produces no message (such as a push that created its ref, or an issues action outside the handled five) is answered 202 and writes no chat line |
| Ingress.BroadcastIffRendered | src/app.py:130-139 | a subscribed delivery broadcasts exactly when its renderer produces a message, and then writes one PRIVMSG per channel |
| Ingress.CommentLineBreakReachesChat | src/handlers.py:57-61 | a new comment whose quoted first 32 characters hold CR or LF produces a message whose PRIVMSG line is not one protocol message |

## Left out

- Sockets, TLS, `drain`, `readline`, task creation and the ASGI lifespan messages are left out. Each operation is modelled as the lines it writes or the response it decides.
- Concurrency between the receive loop and the request handler is left out. The two share only the writer.
- Concurrent requests are left out. `irc_chanmsg` awaits `drain()` between channels, so the PRIVMSG lines of two deliveries handled at once can interleave on the shared writer. `Irc.Broadcast` states the lines of one call, in order and with nothing else between them, and does not state the order on the wire.
- `print` calls are left out because they have no effect on the protocol.
- The receive loop is modelled one turn at a time (`Irc.Keepalive`). Its termination when the writer closes, the `sys.exit` after it, and its spinning on an empty read at end of stream are not modelled.
- Decoding bytes as UTF-8 is left out. Lines and headers are strings, and a `UnicodeDecodeError` from an invalid line or header is not modelled.
- The request's header list is reduced to the two headers the handler reads. The dictionary's last-wins rule for repeated headers is not modelled.
- `json.loads` is the parameter `parse`, which returns none where the code raises `JSONDecodeError`. A `UnicodeDecodeError` that escapes the handler for a body that is not UTF-8 is not modelled.
- The payload is a record holding every field a renderer reads. Missing keys and wrongly typed values, which raise `KeyError` or `TypeError` in the code, are not modelled.
- A renderer's `verb` left unbound is modelled as `VerbUnbound`. The bridge's outcome for it is `RendererFailed`, with no response sent.
- HMAC-SHA256 is an uninterpreted function parameter, so its internals are out of scope. The configured secret's `.encode()` is taken as already done.
- Signing.ValidSignature: for a presented signature with non-ASCII characters, `compare_digest` raises `TypeError` instead of returning false. The model returns false.
- The constant-time property of `compare_digest` is not modelled. Only its result is.
- Irc.ParseLine reads only messages without a source prefix and does not enforce the 15-parameter or 512-byte limits of RFC 2812. None of the lines the bridge writes carries a prefix.
- Irc.ParseLine is more permissive than the grammar of section 2.3.1 of RFC 2812 in three ways. It accepts a NUL character inside a parameter, which `nospcrlfcl` excludes. It reads doubled spaces as empty middle parameters. It accepts any command word, where the grammar allows only letters or three digits. So the `ReadsBack` lemmas state that a line splits into the intended command and parameters, and not that the line is valid RFC 2812. A nickname, channel or text holding NUL is written and read back unchanged.
- Encoding each written line with `.encode()` (src/app.py:70, 72, 77, 90, 97) is left out. `json.loads` turns a `\ud800` escape into a lone surrogate. When one lands in a title, comment body, ref or name, `.encode()` raises `UnicodeEncodeError`, and the request gets no response and writes no chat line. A Dafny `char` cannot hold a surrogate, so every text the model can express is encodable, and the model answers 202 with the broadcast.
- `Application.NewApp` models `sys.exit` with a message as an error result. The configuration-file reading that precedes it is left out.
- Formatting.Palette: the contract does not state that the palette has exactly 19 entries; the table lists each one.

## Notes

Three behaviours of the code are easy to miss. The model keeps each of them:

- The handler writes the chat lines before it sends the 202 response, because it awaits the broadcast first (src/app.py:139, 152).
- A bare `PING` with no token gets no reply. Stripping removes the space the pattern needs (src/app.py:86-88).
- The nickname fallback at src/app.py:89 is unreachable, because the token group always takes part in a match (`Irc.KeepaliveIgnoresNickname`).

A new comment's quoted text keeps any line breaks in its first 32 characters, and those reach the PRIVMSG line. `Ingress.CommentLineBreakReachesChat` shows that the resulting line is then not a single protocol message.
