/** The event renderers of handlers.py: one pure function per GitHub webhook
    event type, mapping a payload and the formatting palette to a one-line
    chat message, to "suppressed" (the Python `None`), or to the
    `UnboundLocalError` two renderers raise for an action they do not match. */
module Handlers {
  import opened Wrappers
  import opened Text
  import opened Formatting

  datatype Repository = Repository(name: string, htmlUrl: string)
  datatype Sender = Sender(login: string)
  datatype Issue = Issue(number: int, title: string, htmlUrl: string)
  datatype Comment = Comment(body: string, htmlUrl: string)
  datatype PullRequest = PullRequest(number: int, title: string, htmlUrl: string, merged: bool)
  datatype Forkee = Forkee(htmlUrl: string)

  /** The fields of a webhook payload that some renderer reads. Each renderer
      reads only the fields of its own event type. */
  datatype Payload = Payload(
    action: string,
    repository: Repository,
    sender: Sender,
    refType: string,
    ref: string,
    hookId: int,
    issue: Issue,
    comment: Comment,
    pullRequest: PullRequest,
    forkee: Forkee,
    created: bool,
    deleted: bool,
    forced: bool,
    compare: string)

  /** What a renderer produces. `VerbUnbound` is the `UnboundLocalError` raised
      when a `match` on the action binds no verb and the message is built anyway. */
  datatype Rendered = Message(text: string) | Suppressed | VerbUnbound(action: string)

  /** The keys of the application's handler table. */
  const HandlerNames: set<string> :=
    {"create", "delete", "fork", "issue_comment", "issues", "ping", "pull_request", "push", "star"}

  const IssueActions: set<string> := {"opened", "edited", "deleted", "closed", "reopened"}
  const PullRequestActions: set<string> := {"opened", "edited", "closed", "reopened", "synchronize"}
  const CommentActions: set<string> := {"created", "edited", "deleted"}
  const StarActions: set<string> := {"created", "deleted"}

  /** The URL a `create` message links to: the new branch's tree or the new
      tag's release page; any other ref type links to the repository itself. */
  function CreateUrl(htmlUrl: string, refType: string, ref: string): (url: string)
    ensures StartsWith(url, htmlUrl)
    ensures refType == "branch" ==> url == htmlUrl + "/tree/" + ref
    ensures refType == "tag" ==> url == htmlUrl + "/releases/tag/" + ref
    ensures refType != "branch" && refType != "tag" ==> url == htmlUrl
  {
    if refType == "branch" then htmlUrl + "/tree/" + ref
    else if refType == "tag" then htmlUrl + "/releases/tag/" + ref
    else htmlUrl
  }

  /** The URL a `delete` message links to: the repository's branch or tag list. */
  function DeleteUrl(htmlUrl: string, refType: string): (url: string)
    ensures StartsWith(url, htmlUrl)
    ensures refType == "branch" ==> url == htmlUrl + "/branches"
    ensures refType == "tag" ==> url == htmlUrl + "/tags"
    ensures refType != "branch" && refType != "tag" ==> url == htmlUrl
  {
    if refType == "branch" then htmlUrl + "/branches"
    else if refType == "tag" then htmlUrl + "/tags"
    else htmlUrl
  }

  /** The verb of an `issues` message: the action itself for the five handled
      actions, none for every other action. */
  function IssuesVerb(action: string): (verb: Option<string>)
    ensures verb.Some? <==> action in IssueActions
    ensures verb.Some? ==> verb.value == action
  {
    if action == "opened" then Some("opened")
    else if action == "edited" then Some("edited")
    else if action == "deleted" then Some("deleted")
    else if action == "closed" then Some("closed")
    else if action == "reopened" then Some("reopened")
    else None
  }

  /** The verb of a `pull_request` message. A closed pull request reads
      "merged" exactly when it was merged; "synchronize" reads "synchronized". */
  function PullRequestVerb(action: string, merged: bool): (verb: Option<string>)
    ensures verb.Some? <==> action in PullRequestActions
    ensures action in {"opened", "edited", "reopened"} ==> verb == Some(action)
    ensures verb == Some("merged") <==> action == "closed" && merged
    ensures action == "closed" && !merged ==> verb == Some("closed")
    ensures verb == Some("synchronized") <==> action == "synchronize"
  {
    if action == "opened" then Some("opened")
    else if action == "edited" then Some("edited")
    else if action == "closed" then Some(if merged then "merged" else "closed")
    else if action == "reopened" then Some("reopened")
    else if action == "synchronize" then Some("synchronized")
    else None
  }

  /** The quoted, truncated comment body of an `issue_comment` "created" message. */
  function CommentQuote(body: string): (quote: string)
    ensures |quote| <= TruncationLimit + 5
    ensures StartsWith(quote, "\"") && EndsWith(quote, "\"")
  {
    "\"" + Truncate(body) + "\""
  }

  /** The verb phrase of an `issue_comment` message; none (an unbound verb) for
      an action other than created, edited and deleted. */
  function CommentVerb(action: string, body: string): (verb: Option<string>)
    ensures verb.Some? <==> action in CommentActions
    ensures action == "created" ==> verb == Some("commented " + CommentQuote(body))
    ensures action == "edited" ==> verb == Some("edited a comment")
    ensures action == "deleted" ==> verb == Some("deleted a comment")
  {
    if action == "created" then Some("commented " + CommentQuote(body))
    else if action == "edited" then Some("edited a comment")
    else if action == "deleted" then Some("deleted a comment")
    else None
  }

  /** The verb of a `star` message; none (an unbound verb) for any other action. */
  function StarVerb(action: string): (verb: Option<string>)
    ensures verb.Some? <==> action in StarActions
    ensures verb == Some("starred") <==> action == "created"
    ensures verb == Some("unstarred") <==> action == "deleted"
  {
    if action == "created" then Some("starred")
    else if action == "deleted" then Some("unstarred")
    else None
  }

  /** The prefix every message of the payload opens with. */
  function PayloadPrefix(p: Payload, fmt: map<string, string>): string
    requires Decorates(fmt)
  {
    Prefix(p.repository.name, p.sender.login, fmt)
  }

  /** handlers.create: announces a new branch or tag, linking to it. */
  function Create(p: Payload, fmt: map<string, string>): (r: Rendered)
    requires Decorates(fmt)
    ensures r.Message?
    ensures StartsWith(r.text, PayloadPrefix(p, fmt))
    ensures StartsWith(r.text, PayloadPrefix(p, fmt) + (" created " + p.refType + " " + p.ref))
    ensures EndsWith(r.text, " @ " + CreateUrl(p.repository.htmlUrl, p.refType, p.ref))
    ensures |r.text| == |PayloadPrefix(p, fmt) + (" created " + p.refType + " " + p.ref)|
                        + |" @ " + CreateUrl(p.repository.htmlUrl, p.refType, p.ref)|
  {
    var middle := " created " + p.refType + " " + p.ref;
    var tail := " @ " + CreateUrl(p.repository.htmlUrl, p.refType, p.ref);
    ConcatParts(PayloadPrefix(p, fmt), middle, tail);
    Message(PayloadPrefix(p, fmt) + middle + tail)
  }

  /** handlers.delete: announces a deleted branch or tag, linking to the list it left. */
  function Delete(p: Payload, fmt: map<string, string>): (r: Rendered)
    requires Decorates(fmt)
    ensures r.Message?
    ensures StartsWith(r.text, PayloadPrefix(p, fmt))
    ensures StartsWith(r.text, PayloadPrefix(p, fmt) + (" deleted " + p.refType + " " + p.ref))
    ensures EndsWith(r.text, " @ " + DeleteUrl(p.repository.htmlUrl, p.refType))
    ensures |r.text| == |PayloadPrefix(p, fmt) + (" deleted " + p.refType + " " + p.ref)|
                        + |" @ " + DeleteUrl(p.repository.htmlUrl, p.refType)|
  {
    var middle := " deleted " + p.refType + " " + p.ref;
    var tail := " @ " + DeleteUrl(p.repository.htmlUrl, p.refType);
    ConcatParts(PayloadPrefix(p, fmt), middle, tail);
    Message(PayloadPrefix(p, fmt) + middle + tail)
  }

  /** handlers.fork: announces a fork, linking to the new repository. */
  function Fork(p: Payload, fmt: map<string, string>): (r: Rendered)
    requires Decorates(fmt)
    ensures r.Message?
    ensures StartsWith(r.text, PayloadPrefix(p, fmt))
    ensures StartsWith(r.text, PayloadPrefix(p, fmt) + " forked repo")
    ensures EndsWith(r.text, " @ " + p.forkee.htmlUrl)
    ensures |r.text| == |PayloadPrefix(p, fmt) + " forked repo"| + |" @ " + p.forkee.htmlUrl|
  {
    var middle := " forked repo";
    var tail := " @ " + p.forkee.htmlUrl;
    ConcatParts(PayloadPrefix(p, fmt), middle, tail);
    Message(PayloadPrefix(p, fmt) + middle + tail)
  }

  /** handlers.issue_comment: a new, edited or deleted comment on an issue or
      pull request; any other action leaves the verb unbound. */
  function IssueComment(p: Payload, fmt: map<string, string>): (r: Rendered)
    requires Decorates(fmt)
    ensures r.Message? ==> StartsWith(r.text, PayloadPrefix(p, fmt))
    ensures !r.Suppressed?
    ensures r.VerbUnbound? <==> p.action !in CommentActions
    ensures r.VerbUnbound? ==> r.action == p.action
    ensures r.Message? ==> StartsWith(r.text, PayloadPrefix(p, fmt) + (" " + CommentVerb(p.action, p.comment.body).value))
    ensures r.Message? ==> EndsWith(r.text, " on #" + IntToString(p.issue.number) + " @ " + p.comment.htmlUrl)
    ensures r.Message? ==>
      |r.text| == |PayloadPrefix(p, fmt) + (" " + CommentVerb(p.action, p.comment.body).value)|
                  + |" on #" + IntToString(p.issue.number) + " @ " + p.comment.htmlUrl|
  {
    var verb := CommentVerb(p.action, p.comment.body);
    if verb.None? then VerbUnbound(p.action)
    else
      var middle := " " + verb.value;
      var tail := " on #" + IntToString(p.issue.number) + " @ " + p.comment.htmlUrl;
      ConcatParts(PayloadPrefix(p, fmt), middle, tail);
      Message(PayloadPrefix(p, fmt) + middle + tail)
  }

  /** handlers.issues: an issue opened, edited, deleted, closed or reopened,
      quoting its truncated title; every other action is suppressed. */
  function Issues(p: Payload, fmt: map<string, string>): (r: Rendered)
    requires Decorates(fmt)
    ensures r.Message? ==> StartsWith(r.text, PayloadPrefix(p, fmt))
    ensures !r.VerbUnbound?
    ensures r.Suppressed? <==> p.action !in IssueActions
    ensures r.Message? ==> StartsWith(r.text, PayloadPrefix(p, fmt) + (" " + p.action + " issue #" + IntToString(p.issue.number)))
    ensures r.Message? ==> EndsWith(r.text, " \"" + Truncate(p.issue.title) + "\" @ " + p.issue.htmlUrl)
    ensures r.Message? ==>
      |r.text| == |PayloadPrefix(p, fmt) + (" " + p.action + " issue #" + IntToString(p.issue.number))|
                  + |" \"" + Truncate(p.issue.title) + "\" @ " + p.issue.htmlUrl|
  {
    var verb := IssuesVerb(p.action);
    if verb.None? then Suppressed
    else
      var middle := " " + verb.value + " issue #" + IntToString(p.issue.number);
      var tail := " \"" + Truncate(p.issue.title) + "\" @ " + p.issue.htmlUrl;
      ConcatParts(PayloadPrefix(p, fmt), middle, tail);
      Message(PayloadPrefix(p, fmt) + middle + tail)
  }

  /** handlers.ping: the test delivery GitHub sends when a webhook is created. */
  function Ping(p: Payload, fmt: map<string, string>): (r: Rendered)
    requires Decorates(fmt)
    ensures r.Message?
    ensures StartsWith(r.text, PayloadPrefix(p, fmt))
    ensures EndsWith(r.text, " created a webhook with id=" + IntToString(p.hookId))
    ensures |r.text| == |PayloadPrefix(p, fmt)| + |" created a webhook with id=" + IntToString(p.hookId)|
  {
    var tail := " created a webhook with id=" + IntToString(p.hookId);
    ConcatParts(PayloadPrefix(p, fmt), "", tail);
    assert PayloadPrefix(p, fmt) + "" + tail == PayloadPrefix(p, fmt) + tail;
    Message(PayloadPrefix(p, fmt) + tail)
  }

  /** handlers.pull_request: a pull request opened, edited, closed or merged,
      reopened or synchronized, quoting its truncated title; every other action
      is suppressed. */
  function PullRequestEvent(p: Payload, fmt: map<string, string>): (r: Rendered)
    requires Decorates(fmt)
    ensures r.Message? ==> StartsWith(r.text, PayloadPrefix(p, fmt))
    ensures !r.VerbUnbound?
    ensures r.Suppressed? <==> p.action !in PullRequestActions
    ensures r.Message? ==>
      StartsWith(r.text, PayloadPrefix(p, fmt) + (" " + PullRequestVerb(p.action, p.pullRequest.merged).value
                                                  + " PR #" + IntToString(p.pullRequest.number)))
    ensures r.Message? ==> EndsWith(r.text, " \"" + Truncate(p.pullRequest.title) + "\" @ " + p.pullRequest.htmlUrl)
    ensures r.Message? ==>
      |r.text| == |PayloadPrefix(p, fmt) + (" " + PullRequestVerb(p.action, p.pullRequest.merged).value
                                           + " PR #" + IntToString(p.pullRequest.number))|
                  + |" \"" + Truncate(p.pullRequest.title) + "\" @ " + p.pullRequest.htmlUrl|
  {
    var verb := PullRequestVerb(p.action, p.pullRequest.merged);
    if verb.None? then Suppressed
    else
      var middle := " " + verb.value + " PR #" + IntToString(p.pullRequest.number);
      var tail := " \"" + Truncate(p.pullRequest.title) + "\" @ " + p.pullRequest.htmlUrl;
      ConcatParts(PayloadPrefix(p, fmt), middle, tail);
      Message(PayloadPrefix(p, fmt) + middle + tail)
  }

  /** handlers.push: commits pushed (or force-pushed) to a ref, linking to the
      comparison. Pushes that create or delete the ref are suppressed, since the
      create and delete events already announce them. */
  function Push(p: Payload, fmt: map<string, string>): (r: Rendered)
    requires Decorates(fmt)
    ensures r.Message? ==> StartsWith(r.text, PayloadPrefix(p, fmt))
    ensures !r.VerbUnbound?
    ensures r.Suppressed? <==> p.created || p.deleted
    ensures r.Message? ==> StartsWith(r.text, PayloadPrefix(p, fmt) + (" " + (if p.forced then "force-pushed" else "pushed") + " "))
    ensures r.Message? ==> EndsWith(r.text, p.ref + " @ " + p.compare)
    ensures r.Message? ==>
      |r.text| == |PayloadPrefix(p, fmt) + (" " + (if p.forced then "force-pushed" else "pushed") + " ")|
                  + |p.ref + " @ " + p.compare|
  {
    if p.created || p.deleted then Suppressed
    else
      var middle := " " + (if p.forced then "force-pushed" else "pushed") + " ";
      var tail := p.ref + " @ " + p.compare;
      ConcatParts(PayloadPrefix(p, fmt), middle, tail);
      Message(PayloadPrefix(p, fmt) + middle + tail)
  }

  /** handlers.star: a star added or removed, linking to the stargazers page;
      any other action leaves the verb unbound. */
  function Star(p: Payload, fmt: map<string, string>): (r: Rendered)
    requires Decorates(fmt)
    ensures r.Message? ==> StartsWith(r.text, PayloadPrefix(p, fmt))
    ensures !r.Suppressed?
    ensures r.VerbUnbound? <==> p.action !in StarActions
    ensures r.VerbUnbound? ==> r.action == p.action
    ensures r.Message? ==> StartsWith(r.text, PayloadPrefix(p, fmt) + (" " + StarVerb(p.action).value))
    ensures r.Message? ==> EndsWith(r.text, " repo @ " + p.repository.htmlUrl + "/stargazers")
    ensures r.Message? ==>
      |r.text| == |PayloadPrefix(p, fmt) + (" " + StarVerb(p.action).value)|
                  + |" repo @ " + p.repository.htmlUrl + "/stargazers"|
  {
    var verb := StarVerb(p.action);
    if verb.None? then VerbUnbound(p.action)
    else
      var middle := " " + verb.value;
      var tail := " repo @ " + p.repository.htmlUrl + "/stargazers";
      ConcatParts(PayloadPrefix(p, fmt), middle, tail);
      Message(PayloadPrefix(p, fmt) + middle + tail)
  }

  /** The opening, ending and length each renderer promises fix its message
      completely: the text is the prefix, the phrase and the link, and nothing
      else. */
  lemma MessageTexts(p: Payload, fmt: map<string, string>)
    requires Decorates(fmt)
    ensures Create(p, fmt).text == PayloadPrefix(p, fmt) + (" created " + p.refType + " " + p.ref)
                                   + (" @ " + CreateUrl(p.repository.htmlUrl, p.refType, p.ref))
    ensures Delete(p, fmt).text == PayloadPrefix(p, fmt) + (" deleted " + p.refType + " " + p.ref)
                                   + (" @ " + DeleteUrl(p.repository.htmlUrl, p.refType))
    ensures Fork(p, fmt).text == PayloadPrefix(p, fmt) + " forked repo" + (" @ " + p.forkee.htmlUrl)
    ensures Ping(p, fmt).text == PayloadPrefix(p, fmt) + (" created a webhook with id=" + IntToString(p.hookId))
    ensures IssueComment(p, fmt).Message? ==>
      IssueComment(p, fmt).text == PayloadPrefix(p, fmt) + (" " + CommentVerb(p.action, p.comment.body).value)
                                   + (" on #" + IntToString(p.issue.number) + " @ " + p.comment.htmlUrl)
    ensures Issues(p, fmt).Message? ==>
      Issues(p, fmt).text == PayloadPrefix(p, fmt) + (" " + p.action + " issue #" + IntToString(p.issue.number))
                             + (" \"" + Truncate(p.issue.title) + "\" @ " + p.issue.htmlUrl)
    ensures PullRequestEvent(p, fmt).Message? ==>
      PullRequestEvent(p, fmt).text == PayloadPrefix(p, fmt) + (" " + PullRequestVerb(p.action, p.pullRequest.merged).value
                                                               + " PR #" + IntToString(p.pullRequest.number))
                                       + (" \"" + Truncate(p.pullRequest.title) + "\" @ " + p.pullRequest.htmlUrl)
    ensures Push(p, fmt).Message? ==>
      Push(p, fmt).text == PayloadPrefix(p, fmt) + (" " + (if p.forced then "force-pushed" else "pushed") + " ")
                           + (p.ref + " @ " + p.compare)
    ensures Star(p, fmt).Message? ==>
      Star(p, fmt).text == PayloadPrefix(p, fmt) + (" " + StarVerb(p.action).value)
                           + (" repo @ " + p.repository.htmlUrl + "/stargazers")
  {
    PartsDetermine(Create(p, fmt).text, PayloadPrefix(p, fmt) + (" created " + p.refType + " " + p.ref),
                   " @ " + CreateUrl(p.repository.htmlUrl, p.refType, p.ref));
    PartsDetermine(Delete(p, fmt).text, PayloadPrefix(p, fmt) + (" deleted " + p.refType + " " + p.ref),
                   " @ " + DeleteUrl(p.repository.htmlUrl, p.refType));
    PartsDetermine(Fork(p, fmt).text, PayloadPrefix(p, fmt) + " forked repo", " @ " + p.forkee.htmlUrl);
    PartsDetermine(Ping(p, fmt).text, PayloadPrefix(p, fmt), " created a webhook with id=" + IntToString(p.hookId));
    if IssueComment(p, fmt).Message? {
      PartsDetermine(IssueComment(p, fmt).text, PayloadPrefix(p, fmt) + (" " + CommentVerb(p.action, p.comment.body).value),
                     " on #" + IntToString(p.issue.number) + " @ " + p.comment.htmlUrl);
    }
    if Issues(p, fmt).Message? {
      PartsDetermine(Issues(p, fmt).text, PayloadPrefix(p, fmt) + (" " + p.action + " issue #" + IntToString(p.issue.number)),
                     " \"" + Truncate(p.issue.title) + "\" @ " + p.issue.htmlUrl);
    }
    if PullRequestEvent(p, fmt).Message? {
      PartsDetermine(PullRequestEvent(p, fmt).text,
                     PayloadPrefix(p, fmt) + (" " + PullRequestVerb(p.action, p.pullRequest.merged).value
                                              + " PR #" + IntToString(p.pullRequest.number)),
                     " \"" + Truncate(p.pullRequest.title) + "\" @ " + p.pullRequest.htmlUrl);
    }
    if Push(p, fmt).Message? {
      PartsDetermine(Push(p, fmt).text, PayloadPrefix(p, fmt) + (" " + (if p.forced then "force-pushed" else "pushed") + " "),
                     p.ref + " @ " + p.compare);
    }
    if Star(p, fmt).Message? {
      PartsDetermine(Star(p, fmt).text, PayloadPrefix(p, fmt) + (" " + StarVerb(p.action).value),
                     " repo @ " + p.repository.htmlUrl + "/stargazers");
    }
  }

  /** The handler table of app.py: the renderer registered for `event`. Every
      message any renderer produces opens with the decorated prefix, so none is
      empty; only three event types can be suppressed and only two can fail. */
  function Render(event: string, p: Payload, fmt: map<string, string>): (r: Rendered)
    requires event in HandlerNames
    requires Decorates(fmt)
    ensures r.Message? ==> StartsWith(r.text, PayloadPrefix(p, fmt)) && |r.text| > 0
    ensures r.Suppressed? ==> event in {"issues", "pull_request", "push"}
    ensures r.VerbUnbound? ==> event in {"issue_comment", "star"}
  {
    var r :=
      if event == "create" then Create(p, fmt)
      else if event == "delete" then Delete(p, fmt)
      else if event == "fork" then Fork(p, fmt)
      else if event == "issue_comment" then IssueComment(p, fmt)
      else if event == "issues" then Issues(p, fmt)
      else if event == "ping" then Ping(p, fmt)
      else if event == "pull_request" then PullRequestEvent(p, fmt)
      else if event == "push" then Push(p, fmt)
      else Star(p, fmt);
    assert r.Message? ==> |PayloadPrefix(p, fmt)| > 0;
    r
  }
}
