/** What `migrate_issues` writes to the patch script for one issue
    (lib/import.rb:370-496), as functions of the Jira records and of the
    bindings made so far, and the loops that write it through the builder. */
module Emit {
  import opened Values
  import Jira
  import Users
  import Issues
  import opened Patch
  import MysqlBuilder

  /** Everything the per-issue writes depend on besides the issue: the
      users and bindings of the earlier phases, the configuration, the
      attachment files, and the text encoders the code calls (Base64,
      emoji removal, SHA-256 of a file). */
  datatype Env = Env(
    users: Jira.Table<Jira.User>, aliases: Jira.Table<Jira.UserAlias>, userBinding: map<Jira.JiraId, int>,
    statuses: map<Jira.JiraId, int>, projects: map<string, int>,
    anonymous: Value, postfix: string, root: string, files: Issues.Files,
    encode: string -> string, sanitize: string -> string, digest: seq<string> -> string)

  /** The Redmine user written for a Jira login. */
  function Actor(env: Env, login: string): Value
  {
    Users.Actor(env.users, env.aliases, env.userBinding, env.anonymous, login)
  }

  /** The `data` hash of `update_issue` (lib/import.rb:373-385). */
  function IssueDataOf(env: Env, info: Jira.Issue): IssueData
  {
    var status := Lookup(env.statuses, info.status);
    IssueData(OfOption(status), info.created, info.updated, Actor(env, info.creator), Issues.DoneRatio(status),
              Issues.DueDate(info.dueDate), Issues.Encoded(info.description, "", env.sanitize, env.encode))
  }

  // ---------------------------------------------------------------- comments

  function CommentEventOf(env: Env, c: Jira.Comment): CommentEvent
  {
    CommentEvent(Actor(env, c.author), Issues.Encoded(c.body, "", env.sanitize, env.encode), c.created, Issues.PrivateNotes(c.roleLevel))
  }

  /** The comments' journals, in order (lib/import.rb:387-399). */
  function CommentsScript(env: Env, rid: int, cs: Jira.Table<Jira.Comment>): seq<Statement>
  {
    if cs == [] then []
    else
      var n := |cs| - 1;
      CommentsScript(env, rid, cs[..n]) + CommentLines(rid, CommentEventOf(env, cs[n].1))
  }

  /** One comment journal per comment, in order, with the comment's author,
      encoded body, date and privacy. */
  lemma {:induction false} CommentsScriptEntries(env: Env, rid: int, cs: Jira.Table<Jira.Comment>)
    ensures var r := CommentsScript(env, rid, cs);
      |r| == |cs| && forall i :: 0 <= i < |r| ==> JournalFor(r[i], env, rid, cs[i].1)
  {
    if cs != [] {
      var n := |cs| - 1;
      CommentsScriptEntries(env, rid, cs[..n]);
      var init := CommentsScript(env, rid, cs[..n]);
      var r := init + CommentLines(rid, CommentEventOf(env, cs[n].1));
      assert CommentsScript(env, rid, cs) == r;
      forall i | 0 <= i < |r|
        ensures JournalFor(r[i], env, rid, cs[i].1)
      {
        if i < n {
          assert r[i] == init[i];
          assert cs[..n][i] == cs[i];
        } else {
          assert r[i] == CommentLines(rid, CommentEventOf(env, cs[n].1))[0];
        }
      }
    }
  }

  /** The journal of comment `c` on the issue `rid`: its author, encoded
      body, date and privacy. */
  predicate JournalFor(s: Statement, env: Env, rid: int, c: Jira.Comment)
  {
    s == CommentJournal(rid, CommentEventOf(env, c).userId, CommentEventOf(env, c).body, c.created, Issues.PrivateNotes(c.roleLevel))
  }

  // ---------------------------------------------------------------- worklogs

  function WorklogOf(env: Env, projectId: Value, w: Jira.Worklog): WorklogData
  {
    WorklogData(projectId, Actor(env, w.author), Issues.Encoded(w.body, "< No comment >", env.sanitize, env.encode),
                w.startDate, Issues.Hours(w.timeWorked), 9)
  }

  /** The worklogs' time entries, in order (lib/import.rb:401-415). */
  function WorklogsScript(env: Env, rid: int, projectId: Value, ws: Jira.Table<Jira.Worklog>): seq<Statement>
  {
    if ws == [] then []
    else
      var n := |ws| - 1;
      WorklogsScript(env, rid, projectId, ws[..n]) + WorklogLines(rid, WorklogOf(env, projectId, ws[n].1))
  }

  /** One time entry per worklog, in order, all on the issue's project with
      activity 9 and the worklog's hours. */
  lemma {:induction false} WorklogsScriptEntries(env: Env, rid: int, projectId: Value, ws: Jira.Table<Jira.Worklog>)
    ensures var r := WorklogsScript(env, rid, projectId, ws);
      |r| == |ws| && forall i :: 0 <= i < |r| ==> EntryFor(r[i], rid, projectId, ws[i].1)
  {
    if ws != [] {
      var n := |ws| - 1;
      WorklogsScriptEntries(env, rid, projectId, ws[..n]);
      var init := WorklogsScript(env, rid, projectId, ws[..n]);
      var r := init + WorklogLines(rid, WorklogOf(env, projectId, ws[n].1));
      assert WorklogsScript(env, rid, projectId, ws) == r;
      forall i | 0 <= i < |r|
        ensures EntryFor(r[i], rid, projectId, ws[i].1)
      {
        if i < n {
          assert r[i] == init[i];
          assert ws[..n][i] == ws[i];
        } else {
          var w := WorklogOf(env, projectId, ws[n].1);
          assert w.projectId == projectId && w.activityId == 9 && w.hours == Issues.Hours(ws[n].1.timeWorked);
          assert r[i] == WorklogLines(rid, w)[0];
        }
      }
    }
  }

  /** A time entry of the issue `rid` on the project `projectId`, with
      activity 9 and the worklog's hours. */
  predicate EntryFor(s: Statement, rid: int, projectId: Value, w: Jira.Worklog)
  {
    s.TimeEntry? && s.issue == rid && s.activityId == 9 && s.projectId == projectId && s.hours == Issues.Hours(w.timeWorked)
  }

  // ------------------------------------------------------------- attachments

  /** The file an attachment is copied from (lib/import.rb:420-432). */
  function SourceOf(env: Env, projectKey: string, issueKey: string, aid: Jira.JiraId, a: Jira.Attachment): seq<string>
  {
    Issues.SourceFile(env.files, Issues.Candidates(env.root, projectKey, issueKey, aid, a.filename))
  }

  /** The statements for one attachment: none when its file is missing or
      unreadable (lib/import.rb:433-469). */
  function AttachmentScript(env: Env, projectKey: string, issueKey: string, issue: Jira.JiraId, rid: int,
                            aid: Jira.JiraId, a: Jira.Attachment): (r: seq<Statement>)
    ensures r == [] <==> !Issues.Found(env.files, SourceOf(env, projectKey, issueKey, aid, a))
    ensures r != [] ==> Ordered4(r) && r[0].name == env.encode(a.filename)
                        && r[0].filename == env.encode(Issues.StoredName(issue, a.filename))
  {
    var source := SourceOf(env, projectKey, issueKey, aid, a);
    if Issues.Found(env.files, source) then
      MysqlBuilder.AttachmentLines(rid, AttachmentEvent(env.encode(a.filename), Actor(env, a.author),
        env.encode(Issues.StoredName(issue, a.filename)), a.created, a.filesize, env.digest(source), a.mimeType))
    else []
  }

  /** The four statements of one attachment, row first. */
  predicate Ordered4(r: seq<Statement>)
  {
    |r| == 4 && r[0].AttachmentRow? && MysqlBuilder.Ordered(r)
  }

  function AttachmentsScript(env: Env, projectKey: string, issueKey: string, issue: Jira.JiraId, rid: int,
                             as_: Jira.Table<Jira.Attachment>): seq<Statement>
  {
    if as_ == [] then []
    else
      var n := |as_| - 1;
      AttachmentsScript(env, projectKey, issueKey, issue, rid, as_[..n])
        + AttachmentScript(env, projectKey, issueKey, issue, rid, as_[n].0, as_[n].1)
  }

  // ----------------------------------------------------------------- history

  /** The statements for one history item: a status journal when it changes
      the Redmine status (lib/import.rb:478-491). */
  function ItemScript(env: Env, rid: int, g: Jira.HistoryGroup, item: Jira.HistoryItem): (r: seq<Statement>)
    ensures r == [] <==> Issues.StatusChange(env.statuses, item).None?
    ensures r != [] ==> r == StatusLines(rid, StatusEvent(rid, Actor(env, g.author),
                          Issues.StatusChange(env.statuses, item).value.0, Issues.StatusChange(env.statuses, item).value.1, g.created))
  {
    match Issues.StatusChange(env.statuses, item)
    case None => []
    case Some(change) => StatusLines(rid, StatusEvent(rid, Actor(env, g.author), change.0, change.1, g.created))
  }

  function GroupScript(env: Env, rid: int, g: Jira.HistoryGroup, items: Jira.Table<Jira.HistoryItem>): seq<Statement>
  {
    if items == [] then []
    else
      var n := |items| - 1;
      GroupScript(env, rid, g, items[..n]) + ItemScript(env, rid, g, items[n].1)
  }

  /** The issue's change groups in order, each with its items in order
      (lib/import.rb:472-496). */
  function HistoryScript(env: Env, d: Jira.Dataset, rid: int, groups: Jira.Table<Jira.HistoryGroup>): seq<Statement>
  {
    if groups == [] then []
    else
      var n := |groups| - 1;
      HistoryScript(env, d, rid, groups[..n]) + GroupScript(env, rid, groups[n].1, Jira.HistoryItemsOf(d, groups[n].0))
  }

  // ------------------------------------------------------------------- issue

  /** Everything written for one issue created as `rid`, in the order the
      code writes it. */
  function IssueScript(env: Env, d: Jira.Dataset, id: Jira.JiraId, info: Jira.Issue, projectKey: string, rid: int): seq<Statement>
  {
    var projectId := OfOption(Lookup(env.projects, Issues.IssueProject(info, env.postfix)));
    UpdateIssueLines(rid, IssueDataOf(env, info))
    + CommentsScript(env, rid, Jira.CommentsOf(d, id))
    + WorklogsScript(env, rid, projectId, Jira.WorklogsOf(d, id))
    + AttachmentsScript(env, projectKey, info.key, id, rid, Jira.AttachmentsOf(d, id))
    + HistoryScript(env, d, rid, Jira.HistoryGroupsOf(d, id))
  }

  // ------------------------------------------------------------------- loops

  /** The comments' loop. */
  method EmitComments(b: MysqlBuilder.Builder, env: Env, rid: int, cs: Jira.Table<Jira.Comment>)
    requires b.Valid()
    modifies b
    ensures b.Valid() && b.statements == old(b.statements) + CommentsScript(env, rid, cs)
  {
    ghost var s0 := b.statements;
    for i := 0 to |cs|
      invariant b.Valid() && b.statements == s0 + CommentsScript(env, rid, cs[..i])
    {
      CommentsStep(env, rid, cs, i);
      b.CreateHistoryEventComment(rid, CommentEventOf(env, cs[i].1));
      Associate(s0, CommentsScript(env, rid, cs[..i]), CommentLines(rid, CommentEventOf(env, cs[i].1)));
    }
    assert cs[..|cs|] == cs;
  }

  lemma CommentsStep(env: Env, rid: int, cs: Jira.Table<Jira.Comment>, i: nat)
    requires i < |cs|
    ensures CommentsScript(env, rid, cs[..i + 1]) == CommentsScript(env, rid, cs[..i]) + CommentLines(rid, CommentEventOf(env, cs[i].1))
  {
    assert cs[..i + 1][..i] == cs[..i];
  }

  /** The worklogs' loop. */
  method EmitWorklogs(b: MysqlBuilder.Builder, env: Env, rid: int, projectId: Value, ws: Jira.Table<Jira.Worklog>)
    requires b.Valid()
    modifies b
    ensures b.Valid() && b.statements == old(b.statements) + WorklogsScript(env, rid, projectId, ws)
  {
    ghost var s0 := b.statements;
    for i := 0 to |ws|
      invariant b.Valid() && b.statements == s0 + WorklogsScript(env, rid, projectId, ws[..i])
    {
      WorklogsStep(env, rid, projectId, ws, i);
      b.CreateWorklog(rid, WorklogOf(env, projectId, ws[i].1));
      Associate(s0, WorklogsScript(env, rid, projectId, ws[..i]), WorklogLines(rid, WorklogOf(env, projectId, ws[i].1)));
    }
    assert ws[..|ws|] == ws;
  }

  lemma WorklogsStep(env: Env, rid: int, projectId: Value, ws: Jira.Table<Jira.Worklog>, i: nat)
    requires i < |ws|
    ensures WorklogsScript(env, rid, projectId, ws[..i + 1])
         == WorklogsScript(env, rid, projectId, ws[..i]) + WorklogLines(rid, WorklogOf(env, projectId, ws[i].1))
  {
    assert ws[..i + 1][..i] == ws[..i];
  }

  /** One attachment: a missing or unreadable file is skipped. The copy
      itself is not modelled; the digest is `env.digest` of the source. */
  method EmitAttachment(b: MysqlBuilder.Builder, env: Env, projectKey: string, issueKey: string, issue: Jira.JiraId,
                        rid: int, aid: Jira.JiraId, a: Jira.Attachment)
    requires b.Valid()
    modifies b
    ensures b.Valid() && b.statements == old(b.statements) + AttachmentScript(env, projectKey, issueKey, issue, rid, aid, a)
  {
    var source := Issues.SourceFile(env.files, Issues.Candidates(env.root, projectKey, issueKey, aid, a.filename));
    if Issues.Found(env.files, source) {
      var filename := Issues.StoredName(issue, a.filename);
      b.CreateHistoryEventAttachments(rid, AttachmentEvent(env.encode(a.filename), Actor(env, a.author),
        env.encode(filename), a.created, a.filesize, env.digest(source), a.mimeType));
    }
  }

  /** The attachments' loop. */
  method EmitAttachments(b: MysqlBuilder.Builder, env: Env, projectKey: string, issueKey: string, issue: Jira.JiraId,
                         rid: int, as_: Jira.Table<Jira.Attachment>)
    requires b.Valid()
    modifies b
    ensures b.Valid() && b.statements == old(b.statements) + AttachmentsScript(env, projectKey, issueKey, issue, rid, as_)
  {
    ghost var s0 := b.statements;
    for i := 0 to |as_|
      invariant b.Valid() && b.statements == s0 + AttachmentsScript(env, projectKey, issueKey, issue, rid, as_[..i])
    {
      AttachmentsStep(env, projectKey, issueKey, issue, rid, as_, i);
      EmitAttachment(b, env, projectKey, issueKey, issue, rid, as_[i].0, as_[i].1);
      Associate(s0, AttachmentsScript(env, projectKey, issueKey, issue, rid, as_[..i]),
                AttachmentScript(env, projectKey, issueKey, issue, rid, as_[i].0, as_[i].1));
    }
    assert as_[..|as_|] == as_;
  }

  lemma AttachmentsStep(env: Env, projectKey: string, issueKey: string, issue: Jira.JiraId, rid: int,
                        as_: Jira.Table<Jira.Attachment>, i: nat)
    requires i < |as_|
    ensures AttachmentsScript(env, projectKey, issueKey, issue, rid, as_[..i + 1])
         == AttachmentsScript(env, projectKey, issueKey, issue, rid, as_[..i]) + AttachmentScript(env, projectKey, issueKey, issue, rid, as_[i].0, as_[i].1)
  {
    assert as_[..i + 1][..i] == as_[..i];
  }

  /** One history item. */
  method EmitItem(b: MysqlBuilder.Builder, env: Env, rid: int, g: Jira.HistoryGroup, item: Jira.HistoryItem)
    requires b.Valid()
    modifies b
    ensures b.Valid() && b.statements == old(b.statements) + ItemScript(env, rid, g, item)
  {
    if item.field == "status" {
      var newValue := Issues.BoundStatus(env.statuses, item.newValue);
      var oldValue := Issues.BoundStatus(env.statuses, item.oldValue);
      if newValue != oldValue {
        b.CreateHistoryEventStatus(rid, StatusEvent(rid, Actor(env, g.author), oldValue, newValue, g.created));
      }
    }
  }

  /** One change group's loop. */
  method EmitGroup(b: MysqlBuilder.Builder, env: Env, rid: int, g: Jira.HistoryGroup, items: Jira.Table<Jira.HistoryItem>)
    requires b.Valid()
    modifies b
    ensures b.Valid() && b.statements == old(b.statements) + GroupScript(env, rid, g, items)
  {
    ghost var s0 := b.statements;
    for i := 0 to |items|
      invariant b.Valid() && b.statements == s0 + GroupScript(env, rid, g, items[..i])
    {
      GroupStep(env, rid, g, items, i);
      EmitItem(b, env, rid, g, items[i].1);
      Associate(s0, GroupScript(env, rid, g, items[..i]), ItemScript(env, rid, g, items[i].1));
    }
    assert items[..|items|] == items;
  }

  lemma GroupStep(env: Env, rid: int, g: Jira.HistoryGroup, items: Jira.Table<Jira.HistoryItem>, i: nat)
    requires i < |items|
    ensures GroupScript(env, rid, g, items[..i + 1]) == GroupScript(env, rid, g, items[..i]) + ItemScript(env, rid, g, items[i].1)
  {
    assert items[..i + 1][..i] == items[..i];
  }

  /** The change groups' loop. */
  method EmitHistory(b: MysqlBuilder.Builder, env: Env, d: Jira.Dataset, rid: int, groups: Jira.Table<Jira.HistoryGroup>)
    requires b.Valid()
    modifies b
    ensures b.Valid() && b.statements == old(b.statements) + HistoryScript(env, d, rid, groups)
  {
    ghost var s0 := b.statements;
    var i := 0;
    while i < |groups|
      invariant i <= |groups|
      invariant b.Valid()
      invariant b.statements == s0 + HistoryScript(env, d, rid, groups[..i])
    {
      HistoryStep(env, d, rid, groups, i);
      var items := Jira.HistoryItemsOf(d, groups[i].0);
      EmitGroup(b, env, rid, groups[i].1, items);
      Associate(s0, HistoryScript(env, d, rid, groups[..i]), GroupScript(env, rid, groups[i].1, items));
      i := i + 1;
    }
    assert groups[..|groups|] == groups;
  }

  lemma HistoryStep(env: Env, d: Jira.Dataset, rid: int, groups: Jira.Table<Jira.HistoryGroup>, i: nat)
    requires i < |groups|
    ensures HistoryScript(env, d, rid, groups[..i + 1])
         == HistoryScript(env, d, rid, groups[..i]) + GroupScript(env, rid, groups[i].1, Jira.HistoryItemsOf(d, groups[i].0))
  {
    assert groups[..i + 1][..i] == groups[..i];
  }

  /** All the writes for one issue created as `rid`. */
  method EmitIssue(b: MysqlBuilder.Builder, env: Env, d: Jira.Dataset, id: Jira.JiraId, info: Jira.Issue, projectKey: string, rid: int)
    requires b.Valid()
    modifies b
    ensures b.Valid() && b.statements == old(b.statements) + IssueScript(env, d, id, info, projectKey, rid)
  {
    ghost var s0 := b.statements;
    var projectId := OfOption(Lookup(env.projects, Issues.IssueProject(info, env.postfix)));
    ghost var u := UpdateIssueLines(rid, IssueDataOf(env, info));
    ghost var c := CommentsScript(env, rid, Jira.CommentsOf(d, id));
    ghost var w := WorklogsScript(env, rid, projectId, Jira.WorklogsOf(d, id));
    ghost var a := AttachmentsScript(env, projectKey, info.key, id, rid, Jira.AttachmentsOf(d, id));
    ghost var h := HistoryScript(env, d, rid, Jira.HistoryGroupsOf(d, id));
    assert IssueScript(env, d, id, info, projectKey, rid) == u + c + w + a + h;
    b.UpdateIssue(rid, IssueDataOf(env, info));
    EmitComments(b, env, rid, Jira.CommentsOf(d, id));
    Associate(s0, u, c);
    EmitWorklogs(b, env, rid, projectId, Jira.WorklogsOf(d, id));
    Associate(s0, u + c, w);
    EmitAttachments(b, env, projectKey, info.key, id, rid, Jira.AttachmentsOf(d, id));
    Associate(s0, u + c + w, a);
    EmitHistory(b, env, d, rid, Jira.HistoryGroupsOf(d, id));
    Associate(s0, u + c + w + a, h);
  }

  lemma Associate(s: seq<Statement>, x: seq<Statement>, y: seq<Statement>)
    ensures s + x + y == s + (x + y)
  {
  }

  // ------------------------------------------------------------------ lemmas

  /** Everything written for an issue concerns that issue: every statement
      that names an issue names the one created as `rid`. */
  lemma IssueScriptTargetsIssue(env: Env, d: Jira.Dataset, id: Jira.JiraId, info: Jira.Issue, projectKey: string, rid: int)
    ensures forall s :: s in IssueScript(env, d, id, info, projectKey, rid) && NamesIssue(s) ==> s.issue == rid
  {
    var projectId := OfOption(Lookup(env.projects, Issues.IssueProject(info, env.postfix)));
    var u := UpdateIssueLines(rid, IssueDataOf(env, info));
    var c := CommentsScript(env, rid, Jira.CommentsOf(d, id));
    var w := WorklogsScript(env, rid, projectId, Jira.WorklogsOf(d, id));
    var a := AttachmentsScript(env, projectKey, info.key, id, rid, Jira.AttachmentsOf(d, id));
    var h := HistoryScript(env, d, rid, Jira.HistoryGroupsOf(d, id));
    assert IssueScript(env, d, id, info, projectKey, rid) == u + c + w + a + h;
    CommentsTarget(env, rid, Jira.CommentsOf(d, id));
    WorklogsTarget(env, rid, projectId, Jira.WorklogsOf(d, id));
    AttachmentsTarget(env, projectKey, info.key, id, rid, Jira.AttachmentsOf(d, id));
    HistoryTargets(env, d, rid, Jira.HistoryGroupsOf(d, id));
    forall s | s in u + c + w + a + h && NamesIssue(s)
      ensures s.issue == rid
    {
      if s in u {
      } else if s in c {
      } else if s in w {
      } else if s in a {
      } else {
        assert s in h;
      }
    }
  }

  lemma CommentsTarget(env: Env, rid: int, cs: Jira.Table<Jira.Comment>)
    ensures forall s :: s in CommentsScript(env, rid, cs) && NamesIssue(s) ==> s.issue == rid
  {
    CommentsScriptEntries(env, rid, cs);
  }

  lemma WorklogsTarget(env: Env, rid: int, projectId: Value, ws: Jira.Table<Jira.Worklog>)
    ensures forall s :: s in WorklogsScript(env, rid, projectId, ws) && NamesIssue(s) ==> s.issue == rid
  {
    WorklogsScriptEntries(env, rid, projectId, ws);
  }

  /** The statements that carry an issue id. */
  predicate NamesIssue(s: Statement)
  {
    s.IssueUpdate? || s.JournalDates? || s.Journal? || s.AttachmentRow? || s.CommentJournal? || s.TimeEntry?
  }

  lemma {:induction false} AttachmentsTarget(env: Env, projectKey: string, issueKey: string, issue: Jira.JiraId, rid: int,
                                             as_: Jira.Table<Jira.Attachment>)
    ensures forall s :: s in AttachmentsScript(env, projectKey, issueKey, issue, rid, as_) && NamesIssue(s) ==> s.issue == rid
  {
    if as_ != [] {
      AttachmentsTarget(env, projectKey, issueKey, issue, rid, as_[..|as_| - 1]);
    }
  }

  lemma {:induction false} GroupTargets(env: Env, rid: int, g: Jira.HistoryGroup, items: Jira.Table<Jira.HistoryItem>)
    ensures forall s :: s in GroupScript(env, rid, g, items) && NamesIssue(s) ==> s.issue == rid
  {
    if items != [] {
      GroupTargets(env, rid, g, items[..|items| - 1]);
    }
  }

  lemma {:induction false} HistoryTargets(env: Env, d: Jira.Dataset, rid: int, groups: Jira.Table<Jira.HistoryGroup>)
    ensures forall s :: s in HistoryScript(env, d, rid, groups) && NamesIssue(s) ==> s.issue == rid
  {
    if groups != [] {
      var n := |groups| - 1;
      HistoryTargets(env, d, rid, groups[..n]);
      GroupTargets(env, rid, groups[n].1, Jira.HistoryItemsOf(d, groups[n].0));
    }
  }

  /** The number of status journals of a change group is the number of its
      items that change the Redmine status. */
  lemma {:induction false} GroupScriptLength(env: Env, rid: int, g: Jira.HistoryGroup, items: Jira.Table<Jira.HistoryItem>)
    ensures |GroupScript(env, rid, g, items)| == 2 * Changes(env, items)
  {
    if items != [] {
      GroupScriptLength(env, rid, g, items[..|items| - 1]);
    }
  }

  /** How many items change the Redmine status. */
  function Changes(env: Env, items: Jira.Table<Jira.HistoryItem>): (n: nat)
    ensures n <= |items|
  {
    if items == [] then 0
    else
      var k := |items| - 1;
      Changes(env, items[..k]) + if Issues.StatusChange(env.statuses, items[k].1).Some? then 1 else 0
  }
}
