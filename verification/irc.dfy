/** The chat side of the bridge (app.py, `irc_connect`, `irc_mainloop` and
    `irc_chanmsg`) with the socket taken away: each operation is the list of
    protocol lines it writes, in order. The commands are those of RFC 2812:
    NICK (section 3.1.2), USER (section 3.1.3), JOIN (section 3.2.1), PRIVMSG
    (section 3.3.1), PING and PONG (sections 3.7.2 and 3.7.3).

    `ParseLine` reads a line back into its command and parameters following
    the message grammar of section 2.3.1 of RFC 2812, more permissively in a
    few places (a NUL inside a parameter, empty middle parameters, any command
    word); it is the partner against which the line builders are checked. */
module Irc {
  import opened Wrappers
  import opened Text

  const Crlf: string := "\r\n"

  function NickLine(nick: string): string {
    "NICK " + nick + Crlf
  }

  /** USER with mode 8 (invisible) and an unused `*`, as the bridge registers. */
  function UserLine(nick: string, realname: string): string {
    "USER " + nick + " 8 * :" + realname + Crlf
  }

  function JoinLine(channel: string): string {
    "JOIN " + channel + Crlf
  }

  function PrivmsgLine(channel: string, text: string): string {
    "PRIVMSG " + channel + " :" + text + Crlf
  }

  function PongLine(token: string): string {
    "PONG " + token + Crlf
  }

  /** One JOIN per channel, in the configured order. */
  function JoinLines(channels: seq<string>): (lines: seq<string>)
    ensures |lines| == |channels|
    ensures forall i :: 0 <= i < |channels| ==> lines[i] == JoinLine(channels[i])
  {
    if channels == [] then [] else [JoinLine(channels[0])] + JoinLines(channels[1..])
  }

  /** What `irc_connect` writes once the connection is open: the nickname,
      the user registration, then one JOIN per channel in configured order. */
  function Registration(nick: string, realname: string, channels: seq<string>): (lines: seq<string>)
    ensures |lines| == |channels| + 2
    ensures lines[0] == NickLine(nick) && lines[1] == UserLine(nick, realname)
    ensures forall i :: 0 <= i < |channels| ==> lines[i + 2] == JoinLine(channels[i])
  {
    [NickLine(nick), UserLine(nick, realname)] + JoinLines(channels)
  }

  /** What `irc_chanmsg(text)` writes: one PRIVMSG per channel, in channel
      order, and nothing else. */
  function Broadcast(channels: seq<string>, text: string): (lines: seq<string>)
    ensures |lines| == |channels|
    ensures forall i :: 0 <= i < |channels| ==> lines[i] == PrivmsgLine(channels[i], text)
  {
    if channels == [] then [] else [PrivmsgLine(channels[0], text)] + Broadcast(channels[1..], text)
  }

  /** The token group of `re.match(r"^PING (?P<token>.*)$", line)`, or none when
      the line does not match. `.` matches anything but a line feed, and `$`
      matches at the end of the line or just before a line feed that ends it. */
  function PingToken(line: string): Option<string> {
    if !StartsWith(line, "PING ") then None
    else
      var rest := line[5..];
      var k := IndexOf(rest, '\n');
      if k == |rest| then Some(rest)
      else if k == |rest| - 1 then Some(rest[..k])
      else None
  }

  /** The pattern matches exactly the lines "PING " + token with no line feed
      in the token, optionally followed by one final line feed, and the group
      captures that token. */
  lemma PingTokenMatches(line: string)
    ensures PingToken(line).Some? ==> StartsWith(line, "PING ") && '\n' !in PingToken(line).value
    ensures PingToken(line).Some? ==>
      line == "PING " + PingToken(line).value || line == "PING " + PingToken(line).value + "\n"
    ensures PingToken(line).None? <==> !IsPing(line) && !(StartsWith(line, "PING ") && IsPing(line[..|line| - 1]) && line[|line| - 1] == '\n')
  {
    if StartsWith(line, "PING ") {
      var rest := line[5..];
      var k := IndexOf(rest, '\n');
      assert line == "PING " + rest;
      if k == |rest| {
        PingWhole(line);
      } else if k == |rest| - 1 {
        PingFeedLast(line);
      } else {
        PingInnerFeed(line);
      }
    }
  }

  lemma PingWhole(line: string)
    requires StartsWith(line, "PING ") && IndexOf(line[5..], '\n') == |line[5..]|
    ensures IsPing(line)
  {
  }

  lemma PingFeedLast(line: string)
    requires StartsWith(line, "PING ") && IndexOf(line[5..], '\n') == |line[5..]| - 1
    ensures !IsPing(line)
    ensures line == "PING " + line[5..|line| - 1] + "\n"
    ensures StartsWith(line[..|line| - 1], "PING ") && IsPing(line[..|line| - 1]) && line[|line| - 1] == '\n'
  {
    var rest := line[5..];
    var body := rest[..|rest| - 1];
    var head := line[..|line| - 1];
    assert rest[|rest| - 1] == '\n';
    assert '\n' !in body by {
      assert forall j :: 0 <= j < |body| ==> body[j] == rest[j];
    }
    assert line[5..|line| - 1] == body;
    assert head == "PING " + body by {
      assert head[..5] == line[..5];
      assert head[5..] == body;
    }
    assert line == head + "\n";
  }

  lemma PingInnerFeed(line: string)
    requires StartsWith(line, "PING ")
    requires IndexOf(line[5..], '\n') < |line[5..]| - 1
    ensures !IsPing(line)
    ensures !IsPing(line[..|line| - 1])
  {
    var rest := line[5..];
    var k := IndexOf(rest, '\n');
    assert line[5 + k] == '\n';
    assert line[..|line| - 1][5..][k] == '\n';
  }

  /** A line `irc_mainloop` answers: a ping keyword, a space, then a token free of line feeds. */
  predicate IsPing(line: string) {
    StartsWith(line, "PING ") && '\n' !in line[5..]
  }

  /** One turn of `irc_mainloop`: the lines written in reply to one line read
      from the server. The line is stripped first; a ping is answered with
      exactly one PONG carrying the text after "PING ", and every other line,
      a bare "PING" included, is answered with nothing. */
  function Keepalive(raw: string, nick: string): (out: seq<string>)
    ensures |out| <= 1
    ensures |out| == 1 <==> IsPing(Strip(raw))
    ensures |out| == 1 ==> out[0] == PongLine(Strip(raw)[5..])
  {
    var line := Strip(raw);
    PingTokenMatches(line);
    match PingToken(line)
    case None => []
    case Some(token) =>
      var withFeed := "PING " + token + "\n";
      assert withFeed[|withFeed| - 1] == '\n';
      assert line[|line| - 1] != '\n';
      assert line == "PING " + token;
      assert line[5..] == token;
      // `groupdict()` has a key for every named group of a match, so the
      // token is always there.
      var groups := map["token" := token];
      [PongLine(if "token" in groups then groups["token"] else nick)]
  }

  /** The nickname fallback of `groupdict().get("token", nickname)` is never
      taken: the token group always takes part in a match. */
  lemma KeepaliveIgnoresNickname(raw: string, nick: string, other: string)
    ensures Keepalive(raw, nick) == Keepalive(raw, other)
  {
  }

  /** A server ping `PING <token>` read as one line is answered with exactly one
      `PONG <token>`, whenever the token survives stripping. */
  lemma PongAnswersPing(token: string, nick: string)
    requires |token| > 0 && !IsSpace(token[|token| - 1])
    requires '\n' !in token
    ensures Keepalive("PING " + token + Crlf, nick) == [PongLine(token)]
  {
    var line := "PING " + token;
    assert line[|line| - 1] == token[|token| - 1];
    StripDropsTrailingSpace(line, Crlf);
    assert Strip(line + Crlf)[5..] == token;
  }

  /** A ping without a token, stripped to the bare keyword, gets no answer. */
  lemma BarePingUnanswered(nick: string)
    ensures Keepalive("PING" + Crlf, nick) == []
    ensures Keepalive("PING " + Crlf, nick) == []
  {
    StripDropsTrailingSpace("PING", Crlf);
    StripDropsTrailingSpace("PING", " " + Crlf);
    assert "PING " + Crlf == "PING" + (" " + Crlf);
  }

  /** A protocol message: its command and its parameters, the last of which
      may be a trailing parameter introduced by ':'. */
  datatype IrcMessage = IrcMessage(command: string, params: seq<string>)

  predicate NoLineBreak(s: string) {
    '\r' !in s && '\n' !in s
  }

  /** A middle parameter: non-empty, no space or line break, not opening with ':'. */
  predicate IsMiddle(s: string) {
    |s| > 0 && s[0] != ':' && ' ' !in s && NoLineBreak(s)
  }

  /** The parameters after a command, split at single spaces up to a trailing parameter. */
  function ParseParams(rest: string): seq<string>
    decreases |rest|
  {
    if |rest| > 0 && rest[0] == ':' then [rest[1..]]
    else
      var k := IndexOf(rest, ' ');
      if k == |rest| then [rest] else [rest[..k]] + ParseParams(rest[k + 1..])
  }

  /** One line read as a protocol message: it must end in CR LF. */
  function ParseLine(line: string): Option<IrcMessage> {
    if !EndsWith(line, Crlf) then None else ParseContent(line[..|line| - 2])
  }

  /** The line without its CR LF: no other line break, and a non-empty command. */
  function ParseContent(content: string): Option<IrcMessage> {
    if !NoLineBreak(content) then None
    else
      var k := IndexOf(content, ' ');
      if k == 0 then None
      else if k == |content| then Some(IrcMessage(content, []))
      else Some(IrcMessage(content[..k], ParseParams(content[k + 1..])))
  }

  lemma LineContent(content: string)
    ensures ParseLine(content + Crlf) == ParseContent(content)
  {
    var line := content + Crlf;
    assert line[|line| - 2..] == Crlf;
    assert line[..|line| - 2] == content;
  }

  lemma ParamsTrailing(t: string)
    ensures ParseParams(":" + t) == [t]
  {
  }

  lemma ParamsMiddle(x: string)
    requires IsMiddle(x)
    ensures ParseParams(x) == [x]
  {
    assert IndexOf(x, ' ') == |x|;
  }

  lemma ParamsMiddleThen(x: string, rest: string)
    requires IsMiddle(x)
    ensures ParseParams(x + " " + rest) == [x] + ParseParams(rest)
  {
    SplitAtSpace(x, rest);
    assert (x + " " + rest)[0] == x[0];
  }

  lemma NoLineBreakJoin(a: string, b: string)
    requires NoLineBreak(a) && NoLineBreak(b)
    ensures NoLineBreak(a + b)
  {
    assert forall j :: 0 <= j < |a + b| ==> (a + b)[j] == if j < |a| then a[j] else b[j - |a|];
  }

  /** A line made of a command word, a space and the parameter text parses
      into that command and the parsed parameters. */
  lemma ParseCommandLine(line: string, command: string, params: string)
    requires |command| > 0 && ' ' !in command
    requires NoLineBreak(command) && NoLineBreak(params)
    requires line == command + " " + params + Crlf
    ensures ParseLine(line) == Some(IrcMessage(command, ParseParams(params)))
  {
    LineContent(command + " " + params);
    ContentCommand(command, params);
  }

  lemma ContentCommand(command: string, params: string)
    requires |command| > 0 && ' ' !in command
    requires NoLineBreak(command) && NoLineBreak(params)
    ensures ParseContent(command + " " + params) == Some(IrcMessage(command, ParseParams(params)))
  {
    SplitAtSpace(command, params);
    NoLineBreakAround(command, params);
    ParseContentAt(command + " " + params, |command|);
  }

  /** The first space of `a + " " + b`, when `a` has none, separates `a` from `b`. */
  lemma SplitAtSpace(a: string, b: string)
    requires ' ' !in a
    ensures IndexOf(a + " " + b, ' ') == |a|
    ensures (a + " " + b)[..|a|] == a && (a + " " + b)[|a| + 1..] == b
  {
    assert a + " " + b == a + (" " + b);
    IndexOfAppend(a, " " + b, ' ');
  }

  lemma NoLineBreakAround(a: string, b: string)
    requires NoLineBreak(a) && NoLineBreak(b)
    ensures NoLineBreak(a + " " + b)
  {
    NoLineBreakJoin(a, " ");
    NoLineBreakJoin(a + " ", b);
  }

  /** Content split at its first space, after a non-empty command. */
  lemma ParseContentAt(content: string, k: nat)
    requires NoLineBreak(content)
    requires 0 < k < |content| && IndexOf(content, ' ') == k
    ensures ParseContent(content) == Some(IrcMessage(content[..k], ParseParams(content[k + 1..])))
  {
  }

  /** NICK reads back as the nickname. */
  lemma NickReadsBack(nick: string)
    requires IsMiddle(nick)
    ensures ParseLine(NickLine(nick)) == Some(IrcMessage("NICK", [nick]))
  {
    ParseCommandLine(NickLine(nick), "NICK", nick);
    ParamsMiddle(nick);
  }

  lemma UserParams(nick: string, realname: string)
    requires IsMiddle(nick)
    ensures ParseParams(nick + " 8 * :" + realname) == [nick, "8", "*", realname]
  {
    UserParamsText(nick, realname);
    ModeParams(realname);
    ParamsMiddleThen(nick, "8" + " " + ("*" + " " + (":" + realname)));
  }

  /** The USER parameters, spelled as a chain of single-space separators. */
  lemma UserParamsText(nick: string, realname: string)
    ensures nick + " 8 * :" + realname == nick + " " + ("8" + " " + ("*" + " " + (":" + realname)))
  {
  }

  lemma ModeParams(realname: string)
    ensures ParseParams("8" + " " + ("*" + " " + (":" + realname))) == ["8", "*", realname]
  {
    ParamsTrailing(realname);
    ParamsMiddleThen("*", ":" + realname);
    ParamsMiddleThen("8", "*" + " " + (":" + realname));
  }

  /** USER reads back as nickname, mode 8, `*` and the real name. */
  lemma UserReadsBack(nick: string, realname: string)
    requires IsMiddle(nick) && NoLineBreak(realname)
    ensures ParseLine(UserLine(nick, realname)) == Some(IrcMessage("USER", [nick, "8", "*", realname]))
  {
    var params := nick + " 8 * :" + realname;
    NoLineBreakJoin(nick, " 8 * :");
    NoLineBreakJoin(nick + " 8 * :", realname);
    ParseCommandLine(UserLine(nick, realname), "USER", params);
    UserParams(nick, realname);
  }

  /** JOIN reads back as the channel. */
  lemma JoinReadsBack(channel: string)
    requires IsMiddle(channel)
    ensures ParseLine(JoinLine(channel)) == Some(IrcMessage("JOIN", [channel]))
  {
    ParseCommandLine(JoinLine(channel), "JOIN", channel);
    ParamsMiddle(channel);
  }

  /** PRIVMSG reads back as the channel and the whole text, provided the text
      holds no line break. */
  lemma PrivmsgReadsBack(channel: string, text: string)
    requires IsMiddle(channel) && NoLineBreak(text)
    ensures ParseLine(PrivmsgLine(channel, text)) == Some(IrcMessage("PRIVMSG", [channel, text]))
  {
    var r1 := ":" + text;
    var params := channel + " " + r1;
    assert params == channel + " :" + text;
    NoLineBreakJoin(":", text);
    NoLineBreakJoin(channel, " ");
    NoLineBreakJoin(channel + " ", r1);
    ParseCommandLine(PrivmsgLine(channel, text), "PRIVMSG", params);
    ParamsTrailing(text);
    ParamsMiddleThen(channel, r1);
    assert ParseParams(params) == [channel, text];
  }

  /** A text holding a line break does not go out as one PRIVMSG: the line the
      bridge writes is not a single protocol message. */
  lemma PrivmsgLineBreakBreaksMessage(channel: string, text: string)
    requires !NoLineBreak(text)
    ensures ParseLine(PrivmsgLine(channel, text)) == None
  {
    var content := "PRIVMSG " + channel + " :" + text;
    LineContent(content);
    LineBreakAfter("PRIVMSG " + channel + " :", text);
  }

  /** A line break survives whatever comes after it. */
  lemma LineBreakBefore(q: string, b: string)
    requires !NoLineBreak(q)
    ensures !NoLineBreak(q + b)
  {
    if '\r' in q {
      var j :| 0 <= j < |q| && q[j] == '\r';
      assert (q + b)[j] == '\r';
    } else {
      var j :| 0 <= j < |q| && q[j] == '\n';
      assert (q + b)[j] == '\n';
    }
  }

  /** A line break survives whatever comes before it. */
  lemma LineBreakAfter(a: string, q: string)
    requires !NoLineBreak(q)
    ensures !NoLineBreak(a + q)
  {
    if '\r' in q {
      var j :| 0 <= j < |q| && q[j] == '\r';
      assert (a + q)[|a| + j] == '\r';
    } else {
      var j :| 0 <= j < |q| && q[j] == '\n';
      assert (a + q)[|a| + j] == '\n';
    }
  }

  /** The PONG the keepalive writes carries exactly the parameters of the PING
      it answers. */
  lemma PongEchoesPingParams(token: string)
    requires NoLineBreak(token)
    ensures ParseLine("PING " + token + Crlf) == Some(IrcMessage("PING", ParseParams(token)))
    ensures ParseLine(PongLine(token)) == Some(IrcMessage("PONG", ParseParams(token)))
  {
    ParseCommandLine("PING " + token + Crlf, "PING", token);
    ParseCommandLine(PongLine(token), "PONG", token);
  }

  /** The registration reads back as NICK, USER and one JOIN per channel. */
  lemma RegistrationReadsBack(nick: string, realname: string, channels: seq<string>)
    requires IsMiddle(nick) && NoLineBreak(realname)
    requires forall i :: 0 <= i < |channels| ==> IsMiddle(channels[i])
    ensures var lines := Registration(nick, realname, channels);
      && ParseLine(lines[0]) == Some(IrcMessage("NICK", [nick]))
      && ParseLine(lines[1]) == Some(IrcMessage("USER", [nick, "8", "*", realname]))
      && forall i :: 0 <= i < |channels| ==> ParseLine(lines[i + 2]) == Some(IrcMessage("JOIN", [channels[i]]))
  {
    NickReadsBack(nick);
    UserReadsBack(nick, realname);
    forall i | 0 <= i < |channels|
      ensures ParseLine(Registration(nick, realname, channels)[i + 2]) == Some(IrcMessage("JOIN", [channels[i]]))
    {
      JoinReadsBack(channels[i]);
    }
  }

  /** A broadcast of a text free of line breaks reads back as one PRIVMSG of
      that text per channel, in channel order. */
  lemma BroadcastReadsBack(channels: seq<string>, text: string)
    requires NoLineBreak(text)
    requires forall i :: 0 <= i < |channels| ==> IsMiddle(channels[i])
    ensures forall i :: 0 <= i < |channels| ==>
      ParseLine(Broadcast(channels, text)[i]) == Some(IrcMessage("PRIVMSG", [channels[i], text]))
  {
    forall i | 0 <= i < |channels|
      ensures ParseLine(Broadcast(channels, text)[i]) == Some(IrcMessage("PRIVMSG", [channels[i], text]))
    {
      PrivmsgReadsBack(channels[i], text);
    }
  }
}
