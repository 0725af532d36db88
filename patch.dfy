/** The statements of the SQL patch script that completes what the Redmine
    API cannot set (back-dated timestamps, journals, attachments, time
    entries), independent of the SQL dialect they are rendered in
    (lib/builder.rb, lib/builder_postgres.rb). */
module Patch {
  import opened Values

  datatype Statement =
      /** UPDATE of the issue's dates, status, author, done ratio and due date. */
    | IssueUpdate(issue: int, created: string, updated: string, statusId: Value, authorId: Value, doneRatio: int, dueDate: string)
      /** UPDATE of the creation date of the issue's journals. */
    | JournalDates(issue: int, created: string)
      /** INSERT of an empty journal: a status change or an attachment. */
    | Journal(issue: int, userId: Value, created: string)
      /** INSERT of a status detail into the journal inserted last. */
    | StatusDetail(oldValue: Value, value: Value)
      /** INSERT of an attachment row. */
    | AttachmentRow(issue: int, userId: Value, name: string, filename: string, filesize: string, mimeType: string, digest: string, created: string)
      /** MySQL only: keeps the id of the attachment inserted last. */
    | KeepAttachmentId
      /** INSERT of an attachment detail into the journal inserted last. */
    | AttachmentDetail(name: string)
      /** INSERT of a comment journal. */
    | CommentJournal(issue: int, userId: Value, body: string, created: string, privateNotes: Value)
      /** INSERT of a time entry. */
    | TimeEntry(projectId: Value, userId: Value, issue: int, hours: Value, comments: string, activityId: int, created: string)
      /** INSERT of an issue relation. */
    | IssueRelation(from: Value, to: Value, relationType: string)

  /** The `data` hash of `update_issue`. */
  datatype IssueData = IssueData(statusId: Value, created: string, updated: string, authorId: Value, doneRatio: int, dueDate: string, description: string)

  /** The `data` hash of `create_history_event_status`. */
  datatype StatusEvent = StatusEvent(journalId: int, userId: Value, oldValue: Value, value: Value, created: string)

  /** The `data` hash of `create_history_event_attachments`. */
  datatype AttachmentEvent = AttachmentEvent(name: string, userId: Value, filename: string, created: string, filesize: string, digest: string, mimeType: string)

  /** The `data` hash of `create_history_event_comment`. */
  datatype CommentEvent = CommentEvent(userId: Value, body: string, created: string, privateNotes: Value)

  /** The `data` hash of `create_worklog`. */
  datatype WorklogData = WorklogData(projectId: Value, userId: Value, comments: string, created: string, hours: Value, activityId: int)

  /** The `data` hash of `create_issue_link`. */
  datatype LinkData = LinkData(from: Value, to: Value, relationType: string)

  /** `update_issue`: the issue row, then its journals' dates. The
      description is not written. */
  function UpdateIssueLines(id: int, d: IssueData): (r: seq<Statement>)
    ensures |r| == 2 && r[0].IssueUpdate? && r[1].JournalDates? && r[0].issue == id == r[1].issue
  {
    [IssueUpdate(id, d.created, d.updated, d.statusId, d.authorId, d.doneRatio, d.dueDate), JournalDates(id, d.created)]
  }

  /** `create_history_event_status`: a journal, then its status detail. */
  function StatusLines(id: int, e: StatusEvent): (r: seq<Statement>)
    ensures |r| == 2 && r[0].Journal? && r[1].StatusDetail? && r[0].issue == id
  {
    [Journal(id, e.userId, e.created), StatusDetail(e.oldValue, e.value)]
  }

  function CommentLines(id: int, e: CommentEvent): (r: seq<Statement>)
    ensures |r| == 1 && r[0].CommentJournal? && r[0].issue == id
  {
    [CommentJournal(id, e.userId, e.body, e.created, e.privateNotes)]
  }

  function WorklogLines(id: int, w: WorklogData): (r: seq<Statement>)
    ensures |r| == 1 && r[0].TimeEntry? && r[0].issue == id
  {
    [TimeEntry(w.projectId, w.userId, id, w.hours, w.comments, w.activityId, w.created)]
  }

  function LinkLines(l: LinkData): (r: seq<Statement>)
    ensures |r| == 1 && r[0].IssueRelation?
  {
    [IssueRelation(l.from, l.to, l.relationType)]
  }

  /** The description never reaches the patch script. */
  lemma UpdateIssueIgnoresDescription(id: int, d: IssueData, description: string)
    ensures UpdateIssueLines(id, d) == UpdateIssueLines(id, d.(description := description))
  {
  }

  /** A script's text: every statement followed by a line break, as `store`
      appends it. */
  function Script(lines: seq<string>): (text: string)
    ensures |text| >= |lines|
  {
    if lines == [] then "" else Script(lines[..|lines| - 1]) + lines[|lines| - 1] + "\n"
  }

  /** Appending statements appends their text and changes nothing before. */
  lemma {:induction false} ScriptAppend(a: seq<string>, b: seq<string>)
    ensures Script(a + b) == Script(a) + Script(b)
    decreases |b|
  {
    if b == [] {
      assert a + b == a;
    } else {
      var n := |b| - 1;
      ScriptAppend(a, b[..n]);
      assert (a + b)[..|a + b| - 1] == a + b[..n];
      assert (a + b)[|a + b| - 1] == b[n];
      calc {
        Script(a + b);
        Script(a + b[..n]) + b[n] + "\n";
        Script(a) + Script(b[..n]) + b[n] + "\n";
        Script(a) + (Script(b[..n]) + b[n] + "\n");
      }
    }
  }

  /** Each statement rendered by `render`, in order. */
  function RenderAll(render: Statement --> string, s: seq<Statement>): (r: seq<string>)
    requires forall i :: 0 <= i < |s| ==> render.requires(s[i])
    ensures |r| == |s| && forall i :: 0 <= i < |s| ==> r[i] == render(s[i])
  {
    seq(|s|, i requires 0 <= i < |s| => render(s[i]))
  }

  /** Rendering distributes over appending. */
  lemma RenderAllAppend(render: Statement --> string, a: seq<Statement>, b: seq<Statement>)
    requires forall i :: 0 <= i < |a| ==> render.requires(a[i])
    requires forall i :: 0 <= i < |b| ==> render.requires(b[i])
    ensures forall i :: 0 <= i < |a + b| ==> render.requires((a + b)[i])
    ensures RenderAll(render, a + b) == RenderAll(render, a) + RenderAll(render, b)
  {
    assert forall i :: 0 <= i < |a + b| ==> (a + b)[i] == if i < |a| then a[i] else b[i - |a|];
  }
}
