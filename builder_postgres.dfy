/** The PostgreSQL patch-script builder (lib/builder_postgres.rb): the same
    methods as the MySQL builder, reading the ids of the rows just inserted
    with `CURRVAL` on the journals and attachments sequences instead of
    `LAST_INSERT_ID()`, writing a missing due date as NULL and private notes
    as a boolean. The importer loads the MySQL builder; this one stands in
    when `lib/builder.rb` is replaced by it. */
module PostgresBuilder {
  import opened Values
  import opened Patch

  /** The due date as `update_issue` writes it: the placeholder the importer
      uses for a missing due date becomes NULL. */
  function DueDateLiteral(dueDate: string): string
  {
    if dueDate == "0000-00-00 00:00:00" then "NULL" else "'" + dueDate + "'"
  }

  /** `data[:private_notes] ? "TRUE" : "FALSE"`, with Ruby's truthiness. */
  function PrivateNotesLiteral(v: Value): string
  {
    if Truthy(v) then "TRUE" else "FALSE"
  }

  /** The PostgreSQL text of one statement (lib/builder_postgres.rb:13-55).
      This builder never writes a saved attachment id. */
  function Render(s: Statement): string
    requires !s.KeepAttachmentId?
  {
    match s
    case IssueUpdate(id, created, updated, statusId, authorId, doneRatio, dueDate) =>
      "UPDATE issues SET created_on = '" + created + "', start_date='" + created + "', updated_on = '" + updated
      + "', status_id = " + ToS(statusId) + ", author_id = " + ToS(authorId) + ", done_ratio = " + IntToString(doneRatio)
      + ", due_date = " + DueDateLiteral(dueDate) + " WHERE id = " + IntToString(id) + ";"
    case JournalDates(id, created) =>
      "UPDATE journals set created_on = '" + created + "' WHERE journalized_type='Issue' AND journalized_id='" + IntToString(id) + "';"
    case Journal(id, userId, created) =>
      "INSERT INTO journals (journalized_id, journalized_type, user_id, notes, created_on) VALUES ("
      + IntToString(id) + ", 'Issue', " + ToS(userId) + ", '', '" + created + "');"
    case StatusDetail(oldValue, value) =>
      "INSERT INTO journal_details (journal_id, property, prop_key, old_value, value) VALUES (CURRVAL('journals_id_seq'), 'attr', 'status_id', '"
      + ToS(oldValue) + "', '" + ToS(value) + "');"
    case AttachmentRow(id, userId, name, filename, filesize, mimeType, digest, created) =>
      "INSERT INTO attachments (container_id, description, author_id, container_type, filename, disk_filename, disk_directory, filesize, content_type, digest, created_on) VALUES ("
      + IntToString(id) + ", '', " + ToS(userId) + ", 'Issue', CONVERT_FROM(DECODE('" + name + "', 'base64'), 'UTF8'), CONVERT_FROM(DECODE('"
      + filename + "', 'base64'), 'UTF8'), 'jira', '" + filesize + "', '" + mimeType + "', '" + digest + "', '" + created + "');"
    case AttachmentDetail(name) =>
      "INSERT INTO journal_details (journal_id, property, prop_key, value) VALUES (CURRVAL('journals_id_seq'), 'attachment', CURRVAL('attachments_id_seq'), CONVERT_FROM(DECODE('"
      + name + "', 'base64'), 'UTF8'));"
    case CommentJournal(id, userId, body, created, privateNotes) =>
      "INSERT INTO journals (journalized_id, journalized_type, user_id, notes, created_on, private_notes) VALUES ("
      + IntToString(id) + ", 'Issue', " + ToS(userId) + ", CONVERT_FROM(DECODE('" + body + "', 'base64'), 'UTF8'), '" + created + "', "
      + PrivateNotesLiteral(privateNotes) + ");"
    case TimeEntry(projectId, userId, id, hours, comments, activityId, created) =>
      "INSERT INTO time_entries (project_id, author_id, user_id, issue_id, hours, comments, activity_id, spent_on, tyear, tmonth, tweek, created_on, updated_on) VALUES ("
      + ToS(projectId) + ", " + ToS(userId) + ", " + ToS(userId) + ", " + IntToString(id) + ", " + ToS(hours)
      + ", LEFT(CONVERT_FROM(DECODE('" + comments + "', 'base64'), 'UTF8'), 1024), " + IntToString(activityId) + ", '" + created
      + "', EXTRACT(YEAR FROM TIMESTAMP '" + created + "'), EXTRACT(MONTH FROM TIMESTAMP '" + created + "'), EXTRACT(WEEK FROM TIMESTAMP'"
      + created + "'), '" + created + "', '" + created + "');"
    case IssueRelation(from, to, relationType) =>
      "INSERT INTO issue_relations (issue_from_id, issue_to_id, relation_type) VALUES ("
      + ToS(from) + ", " + ToS(to) + ", '" + relationType + "');"
  }

  /** The due date is NULL exactly for the missing-date placeholder. */
  lemma DueDateNullIff(dueDate: string)
    ensures DueDateLiteral(dueDate) == "NULL" <==> dueDate == "0000-00-00 00:00:00"
  {
    if dueDate != "0000-00-00 00:00:00" {
      assert DueDateLiteral(dueDate)[0] == '\'';
    }
  }

  /** Both values the importer passes as private notes, 0 for a public
      comment and 1 for a restricted one (lib/import.rb:396), are truthy in
      Ruby, so every comment is written as private. */
  lemma PrivateNotesAlwaysTrue(v: Value)
    requires v == Int(0) || v == Int(1)
    ensures PrivateNotesLiteral(v) == "TRUE"
  {
  }

  /** FALSE is written only for a missing value. */
  lemma PrivateNotesFalseOnlyForNil(v: Value)
    ensures PrivateNotesLiteral(v) == "FALSE" <==> v.Nil?
  {
  }

  predicate NoSavedIds(s: seq<Statement>)
  {
    forall i :: 0 <= i < |s| ==> !s[i].KeepAttachmentId?
  }

  function Rendered(s: seq<Statement>): (r: seq<string>)
    requires NoSavedIds(s)
    ensures |r| == |s| && forall i :: 0 <= i < |s| ==> r[i] == Render(s[i])
  {
    RenderAll(Render, s)
  }

  lemma RenderedAppend(a: seq<Statement>, b: seq<Statement>)
    requires NoSavedIds(a) && NoSavedIds(b)
    ensures NoSavedIds(a + b)
    ensures Rendered(a + b) == Rendered(a) + Rendered(b)
  {
    RenderAllAppend(Render, a, b);
  }

  /** Whether the statement at `i` finds what it reads right before it: a
      status or attachment detail follows the journal whose id
      `CURRVAL('journals_id_seq')` gives; an attachment detail also comes two
      statements after the attachment row whose id
      `CURRVAL('attachments_id_seq')` gives, with the same name, for the
      journal's issue. No statement saves an id. */
  predicate WellPlaced(s: seq<Statement>, i: nat)
    requires i < |s|
  {
    && !s[i].KeepAttachmentId?
    && (s[i].StatusDetail? ==> 1 <= i && s[i - 1].Journal?)
    && (s[i].AttachmentDetail? ==>
          2 <= i && s[i - 1].Journal? && s[i - 2].AttachmentRow?
          && s[i - 2].name == s[i].name && s[i - 2].issue == s[i - 1].issue)
  }

  predicate Ordered(s: seq<Statement>)
  {
    forall i :: 0 <= i < |s| ==> WellPlaced(s, i)
  }

  /** Ordered scripts stay ordered when concatenated, since a statement only
      looks back within the group that wrote it. */
  lemma OrderedConcat(a: seq<Statement>, b: seq<Statement>)
    requires Ordered(a) && Ordered(b)
    ensures Ordered(a + b)
  {
    forall i | 0 <= i < |a + b|
      ensures WellPlaced(a + b, i)
    {
      if i < |a| {
        assert WellPlaced(a, i);
      } else {
        assert WellPlaced(b, i - |a|);
      }
    }
  }

  /** `create_history_event_attachments`: the attachment row, the journal,
      and the detail reading both sequences. */
  function AttachmentLines(id: int, e: AttachmentEvent): (r: seq<Statement>)
    ensures |r| == 3 && Ordered(r)
    ensures r[0].AttachmentRow? && r[1].Journal? && r[2].AttachmentDetail?
  {
    [AttachmentRow(id, e.userId, e.name, e.filename, e.filesize, e.mimeType, e.digest, e.created),
     Journal(id, e.userId, e.created), AttachmentDetail(e.name)]
  }

  lemma OrderedNoSavedIds(s: seq<Statement>)
    requires Ordered(s)
    ensures NoSavedIds(s)
  {
    forall i | 0 <= i < |s|
      ensures !s[i].KeepAttachmentId?
    {
      assert WellPlaced(s, i);
    }
  }

  /** A statement that reads nothing written before it is ordered alone. */
  lemma SingleOrdered(s: Statement)
    requires !s.StatusDetail? && !s.KeepAttachmentId? && !s.AttachmentDetail?
    ensures Ordered([s])
  {
    assert WellPlaced([s], 0);
  }

  lemma UpdateIssueOrdered(id: int, d: IssueData)
    ensures Ordered(UpdateIssueLines(id, d))
  {
    var u := UpdateIssueLines(id, d);
    assert WellPlaced(u, 0) && WellPlaced(u, 1);
  }

  /** The status detail comes right after its journal. */
  lemma StatusOrdered(id: int, e: StatusEvent)
    ensures Ordered(StatusLines(id, e))
  {
    var s := StatusLines(id, e);
    assert WellPlaced(s, 0) && WellPlaced(s, 1);
  }

  /** The file's text grows by exactly the new statements' text. */
  lemma OutputAppend(a: seq<Statement>, b: seq<Statement>)
    requires NoSavedIds(a) && NoSavedIds(b)
    ensures NoSavedIds(a + b)
    ensures Script(Rendered(a + b)) == Script(Rendered(a)) + Script(Rendered(b))
  {
    RenderedAppend(a, b);
    ScriptAppend(Rendered(a), Rendered(b));
  }

  class Builder {
    /** The text the output file held before this builder wrote to it;
        `store` appends, so it stays in front. */
    const existing: string
    /** The statements written to the output file so far. */
    var statements: seq<Statement>

    ghost predicate Valid()
      reads this
    {
      Ordered(statements)
    }

    /** The output file's contents. */
    function Output(): string
      reads this
      requires Valid()
    {
      OrderedNoSavedIds(statements);
      existing + Script(Rendered(statements))
    }

    /** A builder over a file holding `existing`. */
    constructor (existing: string)
      ensures this.existing == existing && statements == [] && Valid()
      ensures Output() == existing
    {
      this.existing := existing;
      statements := [];
    }

    /** `store`: appends one statement. */
    method Store(s: Statement)
      modifies this
      ensures statements == old(statements) + [s]
    {
      statements := statements + [s];
    }

    method UpdateIssue(id: int, data: IssueData)
      modifies this
      requires Valid()
      ensures Valid()
      ensures statements == old(statements) + UpdateIssueLines(id, data)
      ensures Output() == old(Output()) + Script(Rendered(UpdateIssueLines(id, data)))
    {
      ghost var before := statements;
      Store(IssueUpdate(id, data.created, data.updated, data.statusId, data.authorId, data.doneRatio, data.dueDate));
      Store(JournalDates(id, data.created));
      assert statements == before + UpdateIssueLines(id, data);
      UpdateIssueOrdered(id, data);
      Settle(before, UpdateIssueLines(id, data));
    }

    method CreateHistoryEventStatus(id: int, data: StatusEvent)
      modifies this
      requires Valid()
      ensures Valid()
      ensures statements == old(statements) + StatusLines(id, data)
      ensures Output() == old(Output()) + Script(Rendered(StatusLines(id, data)))
    {
      ghost var before := statements;
      Store(Journal(id, data.userId, data.created));
      Store(StatusDetail(data.oldValue, data.value));
      assert statements == before + StatusLines(id, data);
      StatusOrdered(id, data);
      Settle(before, StatusLines(id, data));
    }

    method CreateHistoryEventAttachments(id: int, data: AttachmentEvent)
      modifies this
      requires Valid()
      ensures Valid()
      ensures statements == old(statements) + AttachmentLines(id, data)
      ensures Output() == old(Output()) + Script(Rendered(AttachmentLines(id, data)))
    {
      ghost var before := statements;
      Store(AttachmentRow(id, data.userId, data.name, data.filename, data.filesize, data.mimeType, data.digest, data.created));
      Store(Journal(id, data.userId, data.created));
      Store(AttachmentDetail(data.name));
      assert statements == before + AttachmentLines(id, data);
      Settle(before, AttachmentLines(id, data));
    }

    method CreateHistoryEventComment(id: int, data: CommentEvent)
      modifies this
      requires Valid()
      ensures Valid()
      ensures statements == old(statements) + CommentLines(id, data)
      ensures Output() == old(Output()) + Script(Rendered(CommentLines(id, data)))
    {
      ghost var before := statements;
      Store(CommentJournal(id, data.userId, data.body, data.created, data.privateNotes));
      SingleOrdered(CommentLines(id, data)[0]);
      Settle(before, CommentLines(id, data));
    }

    method CreateWorklog(id: int, data: WorklogData)
      modifies this
      requires Valid()
      ensures Valid()
      ensures statements == old(statements) + WorklogLines(id, data)
      ensures Output() == old(Output()) + Script(Rendered(WorklogLines(id, data)))
    {
      ghost var before := statements;
      Store(TimeEntry(data.projectId, data.userId, id, data.hours, data.comments, data.activityId, data.created));
      SingleOrdered(WorklogLines(id, data)[0]);
      Settle(before, WorklogLines(id, data));
    }

    method CreateIssueLink(data: LinkData)
      modifies this
      requires Valid()
      ensures Valid()
      ensures statements == old(statements) + LinkLines(data)
      ensures Output() == old(Output()) + Script(Rendered(LinkLines(data)))
    {
      ghost var before := statements;
      Store(IssueRelation(data.from, data.to, data.relationType));
      SingleOrdered(LinkLines(data)[0]);
      Settle(before, LinkLines(data));
    }
  }

  /** What every builder method relies on once its group is stored: the
      script stays ordered and its text only grows. */
  lemma Settle(before: seq<Statement>, lines: seq<Statement>)
    requires Ordered(before) && Ordered(lines)
    ensures Ordered(before + lines)
    ensures NoSavedIds(before) && NoSavedIds(lines)
    ensures Script(Rendered(before + lines)) == Script(Rendered(before)) + Script(Rendered(lines))
  {
    OrderedNoSavedIds(before);
    OrderedNoSavedIds(lines);
    OrderedConcat(before, lines);
    OutputAppend(before, lines);
  }
}
