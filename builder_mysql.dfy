/** The MySQL patch-script builder (lib/builder.rb): every method appends a
    fixed sequence of statements to the script and never touches what is
    already written. Statements that read `LAST_INSERT_ID()` or `@PROP_KEY`
    depend on the statement just before them, so the order is an invariant
    of the script. This is the builder the importer loads. */
module MysqlBuilder {
  import opened Values
  import opened Patch

  /** The MySQL text of one statement (lib/builder.rb:13-56). */
  function Render(s: Statement): string
  {
    match s
    case IssueUpdate(id, created, updated, statusId, authorId, doneRatio, dueDate) =>
      "UPDATE `issues` SET `created_on` = TIMESTAMP('" + created + "'), start_date=TIMESTAMP('" + created
      + "'), updated_on = TIMESTAMP('" + updated + "'), `status_id` = " + ToS(statusId) + ", `author_id` = " + ToS(authorId)
      + ", `done_ratio` = " + IntToString(doneRatio) + ", `due_date` = TIMESTAMP('" + dueDate + "') WHERE id = " + IntToString(id) + ";"
    case JournalDates(id, created) =>
      "UPDATE `journals` set `created_on` = TIMESTAMP('" + created + "') WHERE `journalized_type`='Issue' AND `journalized_id`='"
      + IntToString(id) + "';"
    case Journal(id, userId, created) =>
      "INSERT INTO `journals` (`journalized_id`, `journalized_type`, `user_id`, `notes`, `created_on`) VALUES ("
      + IntToString(id) + ", 'Issue', " + ToS(userId) + ", '', TIMESTAMP('" + created + "'));"
    case StatusDetail(oldValue, value) =>
      "INSERT INTO `journal_details` (`journal_id`, `property`, `prop_key`, `old_value`, `value`) VALUES (LAST_INSERT_ID(), 'attr', 'status_id', '"
      + ToS(oldValue) + "', '" + ToS(value) + "');"
    case AttachmentRow(id, userId, name, filename, filesize, mimeType, digest, created) =>
      "INSERT INTO `attachments` (`container_id`, `description`, `author_id`, `container_type`, `filename`, `disk_filename`, `disk_directory`, `filesize`, `content_type`, `digest`, `created_on`) VALUES ("
      + IntToString(id) + ", '', " + ToS(userId) + ", 'Issue', FROM_BASE64('" + name + "'), FROM_BASE64('" + filename
      + "'), 'jira', '" + filesize + "', '" + mimeType + "', '" + digest + "', TIMESTAMP('" + created + "'));"
    case KeepAttachmentId =>
      "SELECT LAST_INSERT_ID() INTO @PROP_KEY;"
    case AttachmentDetail(name) =>
      "INSERT INTO `journal_details` (`journal_id`, `property`, `prop_key`, `value`) VALUES (LAST_INSERT_ID(), 'attachment', @PROP_KEY, FROM_BASE64('"
      + name + "'));"
    case CommentJournal(id, userId, body, created, privateNotes) =>
      "INSERT INTO `journals` (`journalized_id`, `journalized_type`, `user_id`, `notes`, `created_on`, `private_notes`) VALUES ("
      + IntToString(id) + ", 'Issue', " + ToS(userId) + ", FROM_BASE64('" + body + "'), TIMESTAMP('" + created + "'), "
      + ToS(privateNotes) + ");"
    case TimeEntry(projectId, userId, id, hours, comments, activityId, created) =>
      "INSERT INTO `time_entries` (`project_id`, `author_id`, `user_id`, `issue_id`, `hours`, `comments`, `activity_id`, `spent_on`, `tyear`, `tmonth`, `tweek`, `created_on`, `updated_on`) VALUES ("
      + ToS(projectId) + ", " + ToS(userId) + ", " + ToS(userId) + ", " + IntToString(id) + ", " + ToS(hours)
      + ", LEFT(FROM_BASE64('" + comments + "'), 1024), " + IntToString(activityId) + ", TIMESTAMP('" + created
      + "'), YEAR(TIMESTAMP('" + created + "')), MONTH(TIMESTAMP('" + created + "')), WEEK(TIMESTAMP('" + created
      + "')), TIMESTAMP('" + created + "'), TIMESTAMP('" + created + "'));"
    case IssueRelation(from, to, relationType) =>
      "INSERT INTO `issue_relations` (`issue_from_id`, `issue_to_id`, `relation_type`) VALUES ("
      + ToS(from) + ", " + ToS(to) + ", '" + relationType + "');"
  }

  function Rendered(s: seq<Statement>): (r: seq<string>)
    ensures |r| == |s| && forall i :: 0 <= i < |s| ==> r[i] == Render(s[i])
  {
    RenderAll(Render, s)
  }

  lemma RenderedAppend(a: seq<Statement>, b: seq<Statement>)
    ensures Rendered(a + b) == Rendered(a) + Rendered(b)
  {
    RenderAllAppend(Render, a, b);
  }

  /** Whether the statement at `i` finds what it reads right before it: a
      status or attachment detail follows the journal whose id it takes from
      `LAST_INSERT_ID()`; the saved attachment id follows the attachment row;
      an attachment detail reads `@PROP_KEY` saved two statements earlier,
      from the attachment row of the same name and issue as its journal. */
  predicate WellPlaced(s: seq<Statement>, i: nat)
    requires i < |s|
  {
    && (s[i].StatusDetail? ==> 1 <= i && s[i - 1].Journal?)
    && (s[i].KeepAttachmentId? ==> 1 <= i && s[i - 1].AttachmentRow?)
    && (s[i].AttachmentDetail? ==>
          3 <= i && s[i - 1].Journal? && s[i - 2].KeepAttachmentId? && s[i - 3].AttachmentRow?
          && s[i - 3].name == s[i].name && s[i - 3].issue == s[i - 1].issue)
  }

  predicate Ordered(s: seq<Statement>)
  {
    forall i :: 0 <= i < |s| ==> WellPlaced(s, i)
  }

  /** Ordered scripts stay ordered when concatenated, since a statement only
      looks back within the group that wrote it. */
  lemma OrderedConcat(a: seq<Statement>, b: seq<Statement>)
    requires Ordered(a) && Ordered(b)
    ensures Ordered(a + b)
  {
    forall i | 0 <= i < |a + b|
      ensures WellPlaced(a + b, i)
    {
      if i < |a| {
        assert WellPlaced(a, i);
      } else {
        assert WellPlaced(b, i - |a|);
      }
    }
  }

  /** `create_history_event_attachments`: the attachment row, its id saved
      right after it, the journal, and the detail reading both. */
  function AttachmentLines(id: int, e: AttachmentEvent): (r: seq<Statement>)
    ensures |r| == 4 && Ordered(r)
    ensures r[0].AttachmentRow? && r[1].KeepAttachmentId? && r[2].Journal? && r[3].AttachmentDetail?
  {
    [AttachmentRow(id, e.userId, e.name, e.filename, e.filesize, e.mimeType, e.digest, e.created),
     KeepAttachmentId, Journal(id, e.userId, e.created), AttachmentDetail(e.name)]
  }

  /** A statement that reads nothing written before it is ordered alone. */
  lemma SingleOrdered(s: Statement)
    requires !s.StatusDetail? && !s.KeepAttachmentId? && !s.AttachmentDetail?
    ensures Ordered([s])
  {
    assert WellPlaced([s], 0);
  }

  lemma UpdateIssueOrdered(id: int, d: IssueData)
    ensures Ordered(UpdateIssueLines(id, d))
  {
    var u := UpdateIssueLines(id, d);
    assert WellPlaced(u, 0) && WellPlaced(u, 1);
  }

  /** The status detail comes right after its journal. */
  lemma StatusOrdered(id: int, e: StatusEvent)
    ensures Ordered(StatusLines(id, e))
  {
    var s := StatusLines(id, e);
    assert WellPlaced(s, 0) && WellPlaced(s, 1);
  }

  /** The file's text grows by exactly the new statements' text. */
  lemma OutputAppend(a: seq<Statement>, b: seq<Statement>)
    ensures Script(Rendered(a + b)) == Script(Rendered(a)) + Script(Rendered(b))
  {
    RenderedAppend(a, b);
    ScriptAppend(Rendered(a), Rendered(b));
  }

  class Builder {
    /** The text the output file held before this builder wrote to it;
        `store` appends, so it stays in front. */
    const existing: string
    /** The statements written to the output file so far. */
    var statements: seq<Statement>

    ghost predicate Valid()
      reads this
    {
      Ordered(statements)
    }

    /** The output file's contents. */
    function Output(): string
      reads this
    {
      existing + Script(Rendered(statements))
    }

    /** A builder over a file holding `existing`. */
    constructor (existing: string)
      ensures this.existing == existing && statements == [] && Valid()
      ensures Output() == existing
    {
      this.existing := existing;
      statements := [];
    }

    /** `store`: appends one statement. */
    method Store(s: Statement)
      modifies this
      ensures statements == old(statements) + [s]
    {
      statements := statements + [s];
    }

    method UpdateIssue(id: int, data: IssueData)
      modifies this
      requires Valid()
      ensures Valid()
      ensures statements == old(statements) + UpdateIssueLines(id, data)
      ensures Output() == old(Output()) + Script(Rendered(UpdateIssueLines(id, data)))
    {
      ghost var before := statements;
      Store(IssueUpdate(id, data.created, data.updated, data.statusId, data.authorId, data.doneRatio, data.dueDate));
      Store(JournalDates(id, data.created));
      assert statements == before + UpdateIssueLines(id, data);
      UpdateIssueOrdered(id, data);
      Settle(before, UpdateIssueLines(id, data));
    }

    method CreateHistoryEventStatus(id: int, data: StatusEvent)
      modifies this
      requires Valid()
      ensures Valid()
      ensures statements == old(statements) + StatusLines(id, data)
      ensures Output() == old(Output()) + Script(Rendered(StatusLines(id, data)))
    {
      ghost var before := statements;
      Store(Journal(id, data.userId, data.created));
      Store(StatusDetail(data.oldValue, data.value));
      assert statements == before + StatusLines(id, data);
      StatusOrdered(id, data);
      Settle(before, StatusLines(id, data));
    }

    method CreateHistoryEventAttachments(id: int, data: AttachmentEvent)
      modifies this
      requires Valid()
      ensures Valid()
      ensures statements == old(statements) + AttachmentLines(id, data)
      ensures Output() == old(Output()) + Script(Rendered(AttachmentLines(id, data)))
    {
      ghost var before := statements;
      Store(AttachmentRow(id, data.userId, data.name, data.filename, data.filesize, data.mimeType, data.digest, data.created));
      Store(KeepAttachmentId);
      Store(Journal(id, data.userId, data.created));
      Store(AttachmentDetail(data.name));
      assert statements == before + AttachmentLines(id, data);
      Settle(before, AttachmentLines(id, data));
    }

    method CreateHistoryEventComment(id: int, data: CommentEvent)
      modifies this
      requires Valid()
      ensures Valid()
      ensures statements == old(statements) + CommentLines(id, data)
      ensures Output() == old(Output()) + Script(Rendered(CommentLines(id, data)))
    {
      ghost var before := statements;
      Store(CommentJournal(id, data.userId, data.body, data.created, data.privateNotes));
      SingleOrdered(CommentLines(id, data)[0]);
      Settle(before, CommentLines(id, data));
    }

    method CreateWorklog(id: int, data: WorklogData)
      modifies this
      requires Valid()
      ensures Valid()
      ensures statements == old(statements) + WorklogLines(id, data)
      ensures Output() == old(Output()) + Script(Rendered(WorklogLines(id, data)))
    {
      ghost var before := statements;
      Store(TimeEntry(data.projectId, data.userId, id, data.hours, data.comments, data.activityId, data.created));
      SingleOrdered(WorklogLines(id, data)[0]);
      Settle(before, WorklogLines(id, data));
    }

    method CreateIssueLink(data: LinkData)
      modifies this
      requires Valid()
      ensures Valid()
      ensures statements == old(statements) + LinkLines(data)
      ensures Output() == old(Output()) + Script(Rendered(LinkLines(data)))
    {
      ghost var before := statements;
      Store(IssueRelation(data.from, data.to, data.relationType));
      SingleOrdered(LinkLines(data)[0]);
      Settle(before, LinkLines(data));
    }
  }

  /** What every builder method relies on once its group is stored: the
      script stays ordered and its text only grows. */
  lemma Settle(before: seq<Statement>, lines: seq<Statement>)
    requires Ordered(before) && Ordered(lines)
    ensures Ordered(before + lines)
    ensures Script(Rendered(before + lines)) == Script(Rendered(before)) + Script(Rendered(lines))
  {
    OrderedConcat(before, lines);
    OutputAppend(before, lines);
  }
}
