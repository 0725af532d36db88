# Jira to Redmine migration, modelled in Dafny

This project models the importer that moves a Jira XML export into a
Redmine instance. The importer is driven by `RUNNING_MODE`:

- **Modes 0 to 4** bind the Jira taxonomy to Redmine. Statuses, issue types
  (trackers) and priorities are matched by lower-cased name, through a
  configured alias table. Custom fields are matched through the configured
  field pairs, and the default role is found. The run stops if anything
  stays unbound.
- **Modes 1 to 4** then migrate the users. Each user's login and mail are
  normalised, missing names are filled from the display name, and a mail
  that is already taken gets a random token prefix. The user is then found
  in Redmine or created (modes 2 and 3 update the account's status).
- **Mode 4** migrates the projects, their internal subprojects and their
  versions through the Redmine REST API, then the issues.
  - Each issue is created through the API with its tracker, priority,
    custom fields, privacy, estimate and fix version.
  - Everything the API cannot set goes into an SQL patch script: dates,
    status, author, done ratio, description, comments as journals,
    attachments, worklogs as time entries, and status history.
  - The issue's assignee is added to the project if needed and assigned.
  - Issue links between issues created in this run become parent settings
    or relations. Links whose other end is not there are kept in a SQLite
    file for later.
- **Mode 5** removes a project's rows from that SQLite file.
- **Mode 6** replays the kept links against Redmine.

The model has one module per concern:

- `Values`: Ruby values as the script prints them.
- `Text`: the string methods the importer uses.
- `Jira`: the loaded export.
- `Redmine`: the REST connector. It is a class whose log records every call
  and its answer; Redmine's answers are a nondeterministic choice.
- `Patch`: the patch-script statements.
- `MysqlBuilder` and `PostgresBuilder`: the two script builders, as classes
  over their statement list.
- `Issues`: the per-issue values.
- `Storage`: the SQLite bookkeeping, as a class over maps keyed by primary
  key.
- `Taxonomy`: the name bindings.
- `Users`: user preparation.
- `Emit`: the patch lines of one issue, as functions and as the loops that
  write them.
- `Migration`: the `Import` class and its phases, which change its binding
  maps, the connector log, the builder and the storage.

Every loop of the source that changes state is a method with loop
invariants. Each method is proved against a specification function or a
predicate over the log. The properties the source relies on are proved as
lemmas: ordering of the patch statements, round trips of the SQLite
column affinity, last-write-wins of the custom field hash, idempotence of
the cleanup, and the rows left for the later link pass.

Behaviours of the code that the model keeps as written:

- `migrate_users` stores the stripped last name under the misspelt key
  `lasttname` (lib/import.rb:261). The last name itself is therefore never
  stripped (`Users.Normalize`).
- `builder_postgres.rb` writes every comment as private. The importer passes
  0 or 1, and both are truthy in Ruby (`PostgresBuilder.PrivateNotesAlwaysTrue`).
- The issue description is handed to the builder, but neither builder writes
  it (`Patch.UpdateIssueIgnoresDescription`).
- In `update_relations`, a sub-task row is never marked as created, so every
  later drain sends it again.
- In `update_relations`, a row whose type has no mapping ends the drain. The
  message for it names `link`, which does not exist there (lib/storage.rb:69).
- `update_issue_relation` also writes the status, so filing a link again sets
  it back to pending.

## Model

| member | source | states |
|---|---|---|
| Values.HoursOf | lib/import.rb:366 | the estimate in hours rounded to two decimals: hundredths `h` with `36*h <= seconds+18 < 36*(h+1)`, i.e. seconds/3600 rounded half up |
| Text.Lower | lib/import.rb:152 | `downcase`: same length; each capital of the Latin-1, Greek and Cyrillic blocks lowered, every other character kept, no such capital left |
| Text.LowerIdempotent | lib/import.rb:141 | lowering twice is lowering once, so the codes lowered at 141 match the codes stored lowered at 325 |
| Text.Strip | lib/import.rb:258 | `strip`: a slice of the input with only blanks cut on either side, which neither starts nor ends with a blank, and empty exactly when the input is all blanks |
| Text.SplitFirstWord | lib/import.rb:265 | `split(' ', 2)`: at most two parts, none for an empty string, and a first part without whitespace |
| Text.SplitFirstWordJoin | lib/import.rb:265-268 | a display name "first last" splits back into exactly its two parts |
| Text.SplitOneWord | lib/import.rb:265-270 | a one-word display name gives one part |
| Text.SplitOn | lib/storage.rb:24 | the parts of `split(',')` hold no separator |
| Text.SplitOnJoin | lib/storage.rb:24 | joining the parts with the separator gives back the string |
| Text.DropTrailingEmpty | lib/storage.rb:24 | `split` drops trailing empty fields and only those: the result is a prefix, ends non-empty, and everything dropped is empty |
| Text.SplitComma | lib/storage.rb:24 | the codes of `cleanup_project` hold no comma |
| Jira.Find | lib/import.rb:421 | a Hash lookup: None exactly when no row has the id, otherwise a row with that id holds the value; also the custom field hash read of lib/import.rb:570-587 |
| Jira.Filter | lib/import.rb:387 | `select`: every kept row satisfies the block, and no row is added |
| Jira.FilterMembers | lib/import.rb:387 | `select` keeps exactly the rows of the table that satisfy the block |
| Jira.FilterAppend | lib/import.rb:387 | `select` keeps the order: filtering a concatenation is filtering each part, one after the other |
| Patch.UpdateIssueLines | lib/builder.rb:11-18 | `update_issue` writes an issue update and then a journal-date update, both for the issue |
| Patch.StatusLines | lib/builder.rb:20-27 | `create_history_event_status` writes a journal for the issue and then its status detail |
| Patch.CommentLines | lib/builder.rb:42-46 | `create_history_event_comment` writes one journal for the issue |
| Patch.WorklogLines | lib/builder.rb:48-52 | `create_worklog` writes one time entry for the issue |
| Patch.LinkLines | lib/builder.rb:54-58 | `create_issue_link` writes one relation row |
| Patch.UpdateIssueIgnoresDescription | lib/builder.rb:11-18 | the statements do not depend on the description passed in |
| Patch.Script | lib/builder.rb:7-9 | each stored statement takes at least one character of the file, its newline |
| Patch.ScriptAppend | lib/builder.rb:7-9 | appending statements appends their text to the file |
| MysqlBuilder.Rendered | lib/builder.rb:13-56 | each statement is written as its MySQL text, in order |
| MysqlBuilder.RenderedAppend | lib/builder.rb:7-9 | rendering distributes over concatenation |
| MysqlBuilder.OrderedConcat | lib/builder.rb:25 | scripts whose `LAST_INSERT_ID()` and `@PROP_KEY` readers follow their writers stay so when concatenated |
| MysqlBuilder.AttachmentLines | lib/builder.rb:29-40 | attachment row, saved id, journal and detail, in that order, the detail reading the id its own row saved |
| MysqlBuilder.SingleOrdered | lib/builder.rb:42-58 | a statement that reads no earlier insert is ordered alone |
| MysqlBuilder.UpdateIssueOrdered | lib/builder.rb:11-18 | the issue update lines are ordered |
| MysqlBuilder.StatusOrdered | lib/builder.rb:20-27 | the status detail follows the journal it reads |
| MysqlBuilder.OutputAppend | lib/builder.rb:7-9 | the file text of two scripts is the concatenation of their texts |
| MysqlBuilder.Settle | lib/builder.rb:7-9 | appending an ordered group keeps the script ordered and appends its text |
| MysqlBuilder.Builder.constructor | lib/builder.rb:3-8 | no statement yet, which is ordered, and the output is the text the file already held, since `store` appends |
| MysqlBuilder.Builder.Store | lib/builder.rb:7-9 | one statement is appended and nothing else changes |
| MysqlBuilder.Builder.UpdateIssue | lib/builder.rb:11-18 | appends the issue update lines, keeps the script ordered, and the file grows by exactly their text |
| MysqlBuilder.Builder.CreateHistoryEventStatus | lib/builder.rb:20-27 | appends the status lines, keeps the order, and the file grows by their text |
| MysqlBuilder.Builder.CreateHistoryEventAttachments | lib/builder.rb:29-40 | appends the four attachment lines, keeps the order, and the file grows by their text |
| MysqlBuilder.Builder.CreateHistoryEventComment | lib/builder.rb:42-46 | appends the comment journal, keeps the order, and the file grows by its text |
| MysqlBuilder.Builder.CreateWorklog | lib/builder.rb:48-52 | appends the time entry, keeps the order, and the file grows by its text |
| MysqlBuilder.Builder.CreateIssueLink | lib/builder.rb:54-58 | appends the relation row, keeps the order, and the file grows by its text |
| PostgresBuilder.DueDateNullIff | lib/builder_postgres.rb:13 | the due date is written as NULL exactly when it is the zero timestamp |
| PostgresBuilder.PrivateNotesAlwaysTrue | lib/builder_postgres.rb:43 | for the 0 and 1 the importer passes, private notes are always TRUE |
| PostgresBuilder.PrivateNotesFalseOnlyForNil | lib/builder_postgres.rb:43 | private notes are FALSE exactly for nil |
| PostgresBuilder.Rendered | lib/builder_postgres.rb:13-55 | each statement is written as its PostgreSQL text, in order |
| PostgresBuilder.RenderedAppend | lib/builder_postgres.rb:7-9 | rendering distributes over concatenation |
| PostgresBuilder.OrderedConcat | lib/builder_postgres.rb:25 | scripts whose `CURRVAL` readers follow their writers stay so when concatenated |
| PostgresBuilder.AttachmentLines | lib/builder_postgres.rb:29-39 | attachment row, journal and detail, in that order, with no saved-id statement |
| PostgresBuilder.OrderedNoSavedIds | lib/builder_postgres.rb:29-39 | an ordered PostgreSQL script never holds the MySQL saved-id statement |
| PostgresBuilder.SingleOrdered | lib/builder_postgres.rb:41-57 | a statement that reads no sequence is ordered alone |
| PostgresBuilder.UpdateIssueOrdered | lib/builder_postgres.rb:11-18 | the issue update lines are ordered |
| PostgresBuilder.StatusOrdered | lib/builder_postgres.rb:20-27 | the status detail follows the journal it reads |
| PostgresBuilder.OutputAppend | lib/builder_postgres.rb:7-9 | the file text of two scripts is the concatenation of their texts |
| PostgresBuilder.Settle | lib/builder_postgres.rb:7-9 | appending an ordered group keeps the script ordered and appends its text |
| PostgresBuilder.Builder.constructor | lib/builder_postgres.rb:3-8 | no statement yet, which is ordered, and the output is the text the file already held, since `store` appends |
| PostgresBuilder.Builder.Store | lib/builder_postgres.rb:7-9 | one statement is appended and nothing else changes |
| PostgresBuilder.Builder.UpdateIssue | lib/builder_postgres.rb:11-18 | appends the issue update lines, keeps the order, and the file grows by their text |
| PostgresBuilder.Builder.CreateHistoryEventStatus | lib/builder_postgres.rb:20-27 | appends the status lines, keeps the order, and the file grows by their text |
| PostgresBuilder.Builder.CreateHistoryEventAttachments | lib/builder_postgres.rb:29-39 | appends the three attachment lines, keeps the order, and the file grows by their text |
| PostgresBuilder.Builder.CreateHistoryEventComment | lib/builder_postgres.rb:41-45 | appends the comment journal, keeps the order, and the file grows by its text |
| PostgresBuilder.Builder.CreateWorklog | lib/builder_postgres.rb:47-51 | appends the time entry, keeps the order, and the file grows by its text |
| PostgresBuilder.Builder.CreateIssueLink | lib/builder_postgres.rb:53-57 | appends the relation row, keeps the order, and the file grows by its text |
| Redmine.Connector.constructor | lib/connector.rb:73-100 | the lists the importer reads from Redmine, each read once and taken as Redmine returned it, with an empty call log |
| Redmine.Connector.Create | lib/connector.rb:39-46 | a POST is logged with the id it created or as raised, and nothing else changes |
| Redmine.Connector.Update | lib/connector.rb:48-58 | a PUT is logged as answered or raised |
| Redmine.Connector.Post | lib/connector.rb:128-138 | a POST whose answer is unused is logged as answered or raised |
| Redmine.Connector.Memberships | lib/connector.rb:102-104 | the membership list is logged with the user ids or as raised |
| Issues.IssueProject | lib/import.rb:347-351 | the issue's own project exactly when no postfix is configured or the issue has no security level; otherwise the project id followed by the postfix |
| Issues.IsPrivate | lib/import.rb:365 | 1 exactly for an issue with a security level, else 0 |
| Issues.InternalIffPrivate | lib/import.rb:347-365 | with a postfix, an issue goes to the internal project exactly when it is private |
| Issues.DoneRatio | lib/import.rb:373-374 | 100 exactly when the bound status is 3 or 5, else 0 |
| Issues.Hours | lib/import.rb:366 | 0 without a value, otherwise the seconds in hours rounded to two decimals |
| Issues.HoursOfWholeHours | lib/import.rb:411 | a whole number of hours is exact |
| Issues.DueDate | lib/import.rb:383 | the due date, or the zero timestamp when there is none |
| Issues.PrivateNotes | lib/import.rb:396 | 0 exactly for a comment without a role level, else 1 |
| Issues.Encoded | lib/import.rb:384 | the encoded fallback for nil or empty text, otherwise the encoded sanitised text |
| Issues.FirstFixVersion | lib/import.rb:355 | the first association that is the issue's fix version, and None exactly when there is none |
| Issues.FixVersion | lib/import.rb:353-357 | "" exactly when the issue has no fix-version association; an id only when it is the bound version of such an association |
| Issues.FirstMatchAsWritten | lib/import.rb:355 | the first association matching the block as written, None exactly when none does |
| Issues.FixVersionAsWritten | lib/import.rb:353-357 | the lookup as written: "" and the rows unchanged when no association comes from the issue; otherwise the first such association alone is retagged as a fix version, every other row is unchanged, and its version's bound id, or nil, is returned |
| Issues.FixVersionAgreesWhenLoaded | lib/import.rb:703 | when the loader kept only fix-version associations, the code as written returns the intended version and leaves the rows unchanged |
| Issues.FixVersionAssignmentCounterexample | lib/import.rb:355 | a component association of the issue is taken as its fix version by the code as written |
| Issues.Put | lib/import.rb:570 | a Hash write keeps the key order, appending a key not yet present |
| Issues.PutGet | lib/import.rb:570-582 | after a write, the key reads the written value and every other key is unchanged |
| Issues.PutDistinct | lib/import.rb:570-582 | writes keep the keys distinct |
| Issues.PutAll | lib/import.rb:570-582 | a run of writes keeps the keys distinct |
| Issues.LastIndex | lib/import.rb:581-583 | the last write of a key, None exactly when there is none |
| Issues.LastWrite | lib/import.rb:581-583 | the value of the last write to a key |
| Issues.PutAllLastWriteWins | lib/import.rb:570-583 | after a run of writes, each key holds its last written value, or its old value when it was not written |
| Issues.LabelText | lib/import.rb:574-576 | every label adds at least its two brackets |
| Issues.ValueWrites | lib/import.rb:581-583 | at most one write per custom value |
| Issues.ValueWritesFrom | lib/import.rb:581-583 | every write comes from a custom value whose field is bound, to the bound Redmine field, with its string value |
| Issues.ValueWritesStep | lib/import.rb:581-583 | one more custom value adds its write exactly when its field is bound |
| Issues.NonNil | lib/import.rb:585-587 | no more fields than hash entries |
| Issues.NonNilHas | lib/import.rb:585-587 | a field is sent exactly when the hash holds a non-nil value for it |
| Issues.GetSnoc | lib/import.rb:585-587 | reading a hash with one more entry |
| Issues.NonNilDistinct | lib/import.rb:585-587 | no field is sent twice |
| Issues.CustomFieldsLastWriteWins | lib/import.rb:567-589 | a field is sent with a value exactly when the last write of that field holds that value; no field is sent twice |
| Issues.IssueKeySent | lib/import.rb:570 | with the issue-key field bound and not overwritten later, "[key]" is sent in it |
| Issues.NilValuesDropped | lib/import.rb:586 | a field whose last write is nil is not sent |
| Issues.PutAllSnoc | lib/import.rb:581-583 | one more write is a Put on the hash so far |
| Issues.ProcessCustomFields | lib/import.rb:567-589 | the loops return exactly the specified custom field list |
| Issues.JoinLabels | lib/import.rb:574-576 | the loop builds the bracketed label text |
| Issues.PutValues | lib/import.rb:581-583 | the loop leaves the hash the writes specify |
| Issues.PutValueStep | lib/import.rb:581-583 | one pass of the loop writes the value exactly when its field is bound |
| Issues.Entries | lib/import.rb:585-587 | the loop returns the non-nil entries |
| Issues.Candidates | lib/import.rb:421-431 | the four paths tried, in order |
| Issues.SourceFile | lib/import.rb:420-432 | the first existing candidate, or the last candidate when none exists |
| Issues.FoundIff | lib/import.rb:433-443 | an attachment is copied exactly when some candidate exists and the first existing one is readable |
| Issues.StoredName | lib/import.rb:446 | the stored file name is the issue id, "_", then the file name |
| Issues.StoredNameInjective | lib/import.rb:446-447 | for issue ids of one length, stored names are distinct for distinct issue and file |
| Issues.BoundStatus | lib/import.rb:479-480 | the bound Redmine status, or nil |
| Issues.StatusChange | lib/import.rb:478-482 | a change is written exactly for a status item whose bound old and new statuses differ, with those two values |
| Issues.SameRedmineStatusNotWritten | lib/import.rb:481 | two Jira statuses bound to one Redmine status write no history |
| Issues.RelationType | lib/import.rb:533-547 | the mapped relation type, "relates" for an unmapped link type |
| Issues.RelationTypeAccepted | lib/import.rb:539-540 | every relation type sent is one Redmine accepts |
| Issues.Route | lib/import.rb:524-548 | deferred exactly when an end was not created; a parent setting exactly for a sub-task link; otherwise the mapped relation between the two issues |
| Storage.Affinity | lib/storage.rb:9 | an INT column stores a canonical decimal as an integer and any other text as text |
| Storage.ParsePositive | lib/storage.rb:9 | a canonical decimal that is not "0" is positive |
| Storage.CanonicalRoundTrip | lib/storage.rb:9 | printing the stored integer gives back the text |
| Storage.DrainType | lib/storage.rb:56-70 | a relation type exactly for an integer link type in the drain's map |
| Storage.Literals | lib/storage.rb:56-61 | the map keys print as the importer's link type strings |
| Storage.ShortLiterals | lib/storage.rb:56-61 | four-digit ids print as themselves |
| Storage.AffinityOfNat | lib/storage.rb:9 | a printed integer is stored as that integer |
| Storage.AffinityInt | lib/storage.rb:9 | a value stored as an integer is the printed integer |
| Storage.SubtaskAgrees | lib/storage.rb:52 | a stored link type is 10001 exactly when the importer saw "10001" |
| Storage.MappedAgrees | lib/storage.rb:56-67 | the drain maps a stored link type exactly when the importer maps its text, and to the same relation type |
| Storage.DrainedKnown | lib/storage.rb:66 | a type the drain maps is one the importer maps |
| Storage.KnownDrained | lib/storage.rb:66-67 | a type the importer maps is mapped alike by the drain |
| Storage.KnownDrainedAt | lib/storage.rb:66-67 | the same, for one map key |
| Storage.CleanupCodeEffect | lib/storage.rb:26-29 | no project with the code remains; relations from its issues are gone, relations to them are pending, and every other row is unchanged |
| Storage.CleanupIdempotent | lib/storage.rb:23-31 | cleaning a code twice is cleaning it once |
| Storage.CleanupLeavesNothingToDrain | lib/storage.rb:26-29 | after the cleanup, no row the drain selects touches the removed issues |
| Storage.DrainedMonotone | lib/storage.rb:47-74 | a drain changes at most the status of a row, never reaches a created row and never reopens one |
| Storage.RowCall | lib/storage.rb:51-73 | a selected row makes a call exactly when it is a sub-task row or its type is mapped |
| Storage.SettleAllPrefix | lib/storage.rb:74 | settling depends only on the rows that were answered |
| Storage.SettleAllEffect | lib/storage.rb:72-78 | settling distinct rows keeps the same rows, settles each answered row by its own reply and leaves every other row as it was |
| Storage.AttemptedCall | lib/storage.rb:48-79 | reaching one more selected row whose call was answered extends the drain |
| Storage.AttemptedNoCall | lib/storage.rb:66-69 | reaching one more selected row without a call extends the drain |
| Storage.Unreached | lib/storage.rb:47 | a row not reached yet looks the same to the drain as when it started |
| Storage.DrainStep | lib/storage.rb:48-79 | one turn of the loop extends the drain by its row, and the run goes on exactly when that row lets it |
| Storage.DrainEnds | lib/storage.rb:41-48 | a loop that ran out of rows, or stopped on a row, is a whole drain |
| Storage.CompletedDrainLeaves | lib/storage.rb:47-74 | after a drain that got through, a later run selects no new row, and of the rows reached exactly the sub-task rows and the relation rows Redmine did not create |
| Storage.Storage.constructor | lib/storage.rb:5-11 | the tables as found |
| Storage.Storage.UpdateProjectLink | lib/storage.rb:13-16 | the project row is inserted or overwritten, nothing else changes |
| Storage.Storage.UpdateIssueLink | lib/storage.rb:18-21 | the issue row is inserted or overwritten, nothing else changes |
| Storage.Storage.UpdateIssueRelation | lib/storage.rb:33-36 | the relation row is inserted or overwritten with the link type as the INT column stores it |
| Storage.Storage.CleanupProject | lib/storage.rb:23-31 | the tables become the cleanup of every comma-separated code in turn |
| Storage.Storage.UpdateRelations | lib/storage.rb:38-81 | the connector log grows by exactly the drain's calls: the rows reached, in order, are distinct pending rows with issue rows at both ends; the k-th call is the k-th row's parent setting or relation; each relation row is created exactly when Redmine created its relation; every other row is unchanged; `completed` exactly when every selected row was reached and none ended the run, otherwise the last row reached has an unmapped type or its parent setting raised |
| Storage.Storage.DrainRow | lib/storage.rb:48-79 | a row of an unmapped type makes no call, changes nothing and ends the run; any other row makes its one call, is settled by the reply, and the run goes on unless a parent setting raised |
| Storage.Storage.DrainNext | lib/storage.rb:48-80 | one turn of the loop: the log grows by the row's call, if any, and the drain so far is extended by the row |
| Storage.Storage.DrainSubtask | lib/storage.rb:52-54 | exactly one call, setting the target's parent to the source; true exactly when it did not raise; the row stays pending |
| Storage.Storage.DrainRelation | lib/storage.rb:56-78 | exactly one call, asking for the mapped relation from source to target; the row is marked created exactly when Redmine created it, and no other row changes |
| Taxonomy.FirstNamed | lib/import.rb:165 | the first Redmine entry whose lowered name is the search, None exactly when there is none |
| Taxonomy.BindEnum | lib/import.rb:157-175 | every Jira entry whose lowered, aliased name has a Redmine match is bound to the first match; the count is the number left unbound, 0 exactly when all are bound |
| Taxonomy.EnumBound | lib/import.rb:161-173 | a binding and miss set split as the loop splits them are the specified ones |
| Taxonomy.EnumMissed | lib/import.rb:169-172 | the missed entries are exactly the unbound ones |
| Taxonomy.DefaultRole | lib/import.rb:150-155 | the first role whose lowered name is the configured one, None exactly when none matches |
| Taxonomy.FieldPrefixStep | lib/import.rb:221-248 | one more configured pair extends the binding and the count of misses |
| Taxonomy.FieldMisses | lib/import.rb:241-246 | at most one miss per configured pair |
| Taxonomy.FieldBindingStep | lib/import.rb:226-238 | a pair that binds a key sets it to its Redmine field; any other key is unchanged |
| Taxonomy.FieldBindingKeys | lib/import.rb:217-250 | a key is bound exactly when some configured pair binds it |
| Taxonomy.FieldBindingLastWins | lib/import.rb:217-250 | a key holds the Redmine field of the last pair that binds it |
| Taxonomy.SpecialKeysNeedNoJiraField | lib/import.rb:226-231 | the issue-key and label pairs bind their key whenever the Redmine field exists, and never count as missing |
| Taxonomy.BindCustomFields | lib/import.rb:217-250 | the loop returns the specified binding and miss count |
| Taxonomy.BindAll | lib/import.rb:235-238 | every matching Jira field is bound to the Redmine field, other keys unchanged |
| Users.Normalize | lib/import.rb:258-261 | login stripped and lowered; mail stripped, lowered and postfixed; first name stripped; last name unchanged |
| Users.FillNames | lib/import.rb:264-274 | a user with a first name is unchanged; otherwise a display name of two parts gives them as first and last name, any other display name becomes the first name, and a name still empty becomes "Unknown" |
| Users.FillNamesSplitsDisplayName | lib/import.rb:265-268 | a two-word display name gives the first and last name |
| Users.ExistingUser | lib/import.rb:262 | the first Redmine user whose lowered login is the login, None exactly when there is none |
| Users.PrepareEffect | lib/import.rb:258-279 | the login is normalised; in the create-or-patch branch a taken mail gets the token prefix, the names are filled and mode 2 activates; outside it only the normalisation happens |
| Users.PrepareFreshMail | lib/import.rb:275-276 | with a fresh token, the user's mail is not one already used |
| Users.MailsHas | lib/import.rb:291 | every prepared user's mail is recorded as used |
| Users.InOrder | lib/import.rb:256 | one prepared user per loaded user |
| Users.InOrderPrefix | lib/import.rb:256 | preparing a prefix of the users gives the prefix of the result |
| Users.InOrderAt | lib/import.rb:256-291 | each user is prepared against the mails of the users before it |
| Users.PrepareAll | lib/import.rb:252-294 | one prepared user per loaded user |
| Users.PrepareAllPrefix | lib/import.rb:256 | preparation of a prefix is the prefix of the preparation |
| Users.PrepareAllAt | lib/import.rb:256-291 | user j is prepared against the mails of users 0..j-1 |
| Users.BranchMailsDistinct | lib/import.rb:275-291 | a user through the create-or-patch branch, with a fresh token, has a mail no earlier user has |
| Users.FirstLogin | lib/import.rb:617 | the first user with the login, None exactly when there is none |
| Users.FirstAlias | lib/import.rb:618 | the first alias with the user key, None exactly when there is none |
| Users.GetUserId | lib/import.rb:616-622 | the id of the first user with the login when there is one; failing that, when an alias has the login as user key, the id of the first user whose login is the first such alias's lower user name, or nil; nil when neither matches |
| Users.Actor | lib/import.rb:375-376 | the bound Redmine id of the first user with the login, or the anonymous user |
| Emit.CommentsScriptEntries | lib/import.rb:387-399 | one journal per comment of the issue, in order, with its author, encoded body, date and private flag |
| Emit.WorklogsScriptEntries | lib/import.rb:401-415 | one time entry per worklog, in order, with activity 9 and the worked hours |
| Emit.AttachmentScript | lib/import.rb:433-469 | nothing exactly when the file is not found; otherwise the ordered four lines naming the encoded file name and stored name |
| Emit.ItemScript | lib/import.rb:478-491 | nothing exactly when no status change is written; otherwise the status lines with the bound old and new statuses |
| Emit.EmitComments | lib/import.rb:387-399 | the loop appends exactly the comment lines and keeps the script ordered |
| Emit.CommentsStep | lib/import.rb:389-398 | one more comment appends its journal |
| Emit.EmitWorklogs | lib/import.rb:401-415 | the loop appends exactly the worklog lines and keeps the script ordered |
| Emit.WorklogsStep | lib/import.rb:403-414 | one more worklog appends its time entry |
| Emit.EmitAttachment | lib/import.rb:419-468 | one attachment appends exactly its lines |
| Emit.EmitAttachments | lib/import.rb:417-470 | the loop appends exactly the attachment lines and keeps the script ordered |
| Emit.AttachmentsStep | lib/import.rb:419-468 | one more attachment appends its lines |
| Emit.EmitItem | lib/import.rb:477-492 | one history item appends exactly its lines |
| Emit.EmitGroup | lib/import.rb:475-494 | the loop over a group's items appends exactly their lines |
| Emit.GroupStep | lib/import.rb:477-492 | one more item appends its lines |
| Emit.EmitHistory | lib/import.rb:472-496 | the loop over the history groups appends exactly their lines |
| Emit.HistoryStep | lib/import.rb:474-495 | one more group appends its lines |
| Emit.EmitIssue | lib/import.rb:377-496 | all the patch lines of one issue are appended, in the source's order, and the script stays ordered |
| Emit.IssueScriptTargetsIssue | lib/import.rb:377-496 | every statement of an issue's script that names an issue names the created one |
| Emit.CommentsTarget | lib/import.rb:392 | the comment journals name the created issue |
| Emit.WorklogsTarget | lib/import.rb:406 | the time entries name the created issue |
| Emit.AttachmentsTarget | lib/import.rb:460 | the attachment lines name the created issue |
| Emit.GroupTargets | lib/import.rb:484 | the status lines name the created issue |
| Emit.HistoryTargets | lib/import.rb:472-496 | the history lines name the created issue |
| Emit.GroupScriptLength | lib/import.rb:477-492 | a group writes two lines per status change |
| Emit.Changes | lib/import.rb:481 | at most one change per item |
| Migration.UserMigratedKept | lib/import.rb:292 | a migrated user stays migrated as others are bound |
| Migration.UsersMigratedStep | lib/import.rb:256-293 | one more migrated user extends the migrated prefix |
| Migration.UserMigratedMore | lib/import.rb:281-292 | a user migrated by some calls stays migrated after earlier ones |
| Migration.UsersKept | lib/import.rb:281-292 | migrated users stay migrated as calls are added |
| Migration.PrepareAllStep | lib/import.rb:256-291 | one more user is prepared against the mails before it |
| Migration.PreparedNext | lib/import.rb:256-291 | the next user prepared by the loop is the specified one |
| Migration.SentAfter | lib/import.rb:77-148 | the phases' call kinds and an abort survive concatenation of logs |
| Migration.FindProject | lib/import.rb:303 | the first Redmine project with the identifier, None exactly when there is none |
| Migration.VersionKeysInSnoc | lib/import.rb:330 | one more project adds its versions' keys |
| Migration.VersionKeysSnoc | lib/import.rb:330 | one more version row adds its key when it is the project's |
| Migration.LinksMigratedKept | lib/import.rb:324-325 | migrated projects stay migrated as calls are added |
| Migration.ProjectsMigratedStep | lib/import.rb:301-338 | one more migrated project extends the links, bindings and versions |
| Migration.LinksMigratedStep | lib/import.rb:325 | one more project gets its link row with the lowered key |
| Migration.BindingMigratedStep | lib/import.rb:324-328 | one more project and its internal subproject are bound |
| Migration.VersionsMigratedStep | lib/import.rb:329-337 | one more project's versions are migrated |
| Migration.Flatten | lib/import.rb:344 | no pieces give no statements |
| Migration.FlattenSnoc | lib/import.rb:344 | one more issue appends its piece |
| Migration.DeferredKeys | lib/import.rb:524-526 | a row is kept exactly for each link with an end not created |
| Migration.DeferredAt | lib/import.rb:526 | a deferred link is kept, pending, under its own id |
| Migration.DeferredSnoc | lib/import.rb:521-526 | one more link adds its row exactly when it is deferred |
| Migration.LinksRoutedStep | lib/import.rb:521-559 | one more routed link extends the routed prefix |
| Migration.LinksRoutedWithin | lib/import.rb:521-559 | routed links stay routed in a longer log |
| Migration.Import.constructor | lib/import.rb:77 | the run starts with no bindings, no default role and no migrated users |
| Migration.Import.PrepareRoles | lib/import.rb:150-155 | the default role is the first role with the configured name; the run goes on exactly when there is one |
| Migration.Import.PrepareStatuses | lib/import.rb:157-175 | statuses are bound by name and alias; the count is the number unbound |
| Migration.Import.PrepareTrackers | lib/import.rb:177-195 | issue types are bound by name and alias; the count is the number unbound |
| Migration.Import.PreparePriorities | lib/import.rb:197-215 | priorities are bound by name and alias; the count is the number unbound |
| Migration.Import.PrepareCustomFields | lib/import.rb:217-250 | custom fields are bound as the configured pairs specify; the count is the misses |
| Migration.Import.MigrateUser | lib/import.rb:281-292 | one prepared user is reused or created and bound, only its id is added to the binding, or the run aborts on the failing call |
| Migration.Import.MigrateNextUser | lib/import.rb:256-293 | one pass of the user loop extends the migrated prefix |
| Migration.Import.MigrateUsers | lib/import.rb:252-294 | every user is rewritten as the preparation specifies, every Jira user is bound, each reused or created as specified; only user calls are made; a failure aborts |
| Migration.Import.MigrateProject | lib/import.rb:301-327 | the project and its internal subproject are found or created, its link row is written with the lowered key, and it is bound |
| Migration.Import.MigrateVersions | lib/import.rb:328-336 | every version of the project is created in Redmine and bound, and only those keys are added |
| Migration.Import.MigrateVersion | lib/import.rb:332-336 | one more version is created and bound |
| Migration.Import.MigrateNextProject | lib/import.rb:301-337 | one pass of the project loop extends the migrated prefix |
| Migration.Import.MigrateProjects | lib/import.rb:296-338 | every project has its link row, Redmine project (found by name or created), internal subproject and binding, and every version of the loaded projects is created and bound, with only the calls that show it |
| Migration.ProjectsMigratedWithin | lib/import.rb:296-338 | migrated projects and versions stay migrated in a longer log |
| Migration.Import.AssigneesDoneWithin | lib/import.rb:498-512 | assignments stay shown in a longer log |
| Migration.AssignPassCreatesIffMissing | lib/import.rb:501-509 | a pass assigns the issue, and adds the member to the project exactly when the membership listing does not hold it; it makes two or three calls |
| Migration.AssignPassCalls | lib/import.rb:501-509 | a pass, whole or cut short by a raise, makes only membership and assignment calls, and a cut pass ends with the raise |
| Migration.SentAfterAssign | lib/import.rb:498-510 | joined logs keep making only assignment calls, and a raise at the end still ends the run |
| Migration.AssignPassesSnoc | lib/import.rb:498-510 | one more user adds its pass when its login is the assignee's, and nothing otherwise |
| Migration.Import.AssigneesDoneStep | lib/import.rb:498-510 | one more pass keeps the earlier users assigned and assigns the next user with the login |
| Migration.Import.AssignPassesDone | lib/import.rb:498-510 | the passes of the loop assign the issue to every user with the login, with only assignment calls |
| Migration.Import.AssignUser | lib/import.rb:501-509 | the log grows by exactly one pass: the listing, then the membership only when the listing does not hold the member, then the assignment; or by a prefix of that pass ending in the call that raised |
| Migration.Import.AssignNext | lib/import.rb:498-510 | one pass of the loop extends the passes so far, or the run stops on a raise |
| Migration.Import.AssignUsers | lib/import.rb:497-510 | the log grows by exactly the passes of the users with the assignee's login, in the users' order, so each is assigned; only membership and assignment calls are made; a raise ends the run |
| Migration.Import.IssueMigratedWithin | lib/import.rb:370-513 | a migrated issue stays migrated in a longer log |
| Migration.Import.IssuesMigratedStep | lib/import.rb:344-518 | one more migrated issue extends the binding, link rows and migrated prefix |
| Migration.Import.IssuesMigratedWithin | lib/import.rb:344-518 | migrated issues stay migrated in a longer log |
| Migration.Import.RequestIssue | lib/import.rb:343-370 | the issue is created with its specified fields |
| Migration.Import.WriteIssue | lib/import.rb:377-496 | the issue's specified patch lines are appended |
| Migration.Import.CompleteIssue | lib/import.rb:370-517 | the lines are written, the assignee assigned, the issue bound and its link row written |
| Migration.Import.CompleteNextIssue | lib/import.rb:370-517 | completing one created issue extends the migrated prefix and the script |
| Migration.Import.MigrateNextIssue | lib/import.rb:344-518 | one pass of the issue loop extends the requested and migrated prefixes and the script |
| Migration.Import.CreateIssues | lib/import.rb:341-518 | every issue is created with its fields, bound, linked in storage and assigned, and the script grows by exactly the issues' lines |
| Migration.Import.RouteLink | lib/import.rb:522-558 | a deferred link is kept pending with no call; a sub-task link sets the parent; another link asks for its mapped relation, whose failure is ignored |
| Migration.Import.RouteNextLink | lib/import.rb:521-559 | one pass of the link loop extends the routed prefix and the kept rows |
| Migration.Import.RouteLinks | lib/import.rb:519-559 | every link is routed, and storage gains exactly the deferred rows |
| Migration.Import.MigrateIssues | lib/import.rb:341-560 | the issue loop's and the link loop's promises together |
| Migration.Import.Prepare | lib/import.rb:87-100 | the default role is found and nothing is left unbound, or the run stops |
| Migration.Import.WorkMigratedWithin | lib/import.rb:296-560 | migrated projects, issues and routed links stay so in a longer log |
| Migration.Import.MigrateWorkIssues | lib/import.rb:341-560 | after the projects, every issue is created with its fields, bound, linked in storage and assigned; the script grows by exactly the issues' lines; every link is routed and storage gains exactly the deferred rows; or a call aborted the run |
| Migration.Import.MigrateWork | lib/import.rb:133-136 | every project and version is migrated, every issue created with its fields, bound, linked and assigned, the script grows by exactly the issues' lines, every link is routed and storage gains exactly the deferred rows; or a call aborted the run |
| Migration.Import.MigrateLoadedUsers | lib/import.rb:102-108 | every loaded user is bound and migrated, or a call aborted the run |
| Migration.Import.MigrateAll | lib/import.rb:102-136 | users in modes 1 to 4; in mode 4 the projects, versions, issues and links as `MigrateWork` states; in other modes no script line, storage row or project, version or issue binding |
| Migration.Import.MigrateBound | lib/import.rb:87-136 | the taxonomy is bound and a gap stops the run before any call; mode 0 makes no call; modes 1 to 4 migrate the users; modes 0 to 3 write no script line or storage row; mode 4 migrates the projects and issues |
| Migration.Import.Migrate | lib/import.rb:77-148 | modes 0-4 bind the taxonomy, and a missing role or unbound entry stops the run before any call, script line, storage row or binding; mode 0 makes no call; 1-4 migrate the users; 0-3 write no script line, storage row or project, version or issue binding; 4 migrates the projects, versions, issues and links, the script growing by exactly the issues' lines and storage by exactly the deferred rows; 5 cleans the lowered codes with no call; 6 drains the stored links; any other mode changes nothing |

## Left out

- Loading the XML export is not modelled. A `Jira.Dataset` is the loaded
  result, and the importer's methods require `Jira.Loaded`: every issue
  belongs to a loaded project (lib/import.rb:661), only fix-version
  associations are kept (lib/import.rb:703), and every Hash has distinct
  keys.
- Console output, timing (lib/import.rb:147) and the colour of messages
  are not modelled.
- The HTTP transport of lib/connector.rb is not modelled. Each answer
  Redmine might give to a create, update or membership call is a
  nondeterministic choice, and a raised error on such a call is an answer
  in the log. The response filtering is not modelled either.
- Redmine.Connector.constructor: the seven enumerations (roles, statuses,
  trackers, priorities, custom fields, users and projects, read at
  lib/import.rb:151, 159, 179, 199, 219, 254 and 299) are read once, each
  as the list Redmine returned, of at most 1000 entries
  (`?limit=1000`, lib/connector.rb:21 and 31). Reading them never fails,
  whereas lib/connector.rb:24 and 34 raise on an answer other than 200.
- `SecureRandom.alphanumeric` is not modelled. The tokens are a parameter,
  one per user, and the mail-distinctness lemma assumes the token chosen is
  fresh.
- Base64 encoding, emoji removal and the SHA-256 digest are function
  parameters.
- The attachment file copy and the file-system checks are not modelled.
  The existing and readable paths are a parameter.
- The importer writes its patch script through the MySQL builder, as
  `Migration.Import` does. The PostgreSQL builder is modelled on its own,
  with the same promises.
- PostgresBuilder.Rendered: it requires a script without the MySQL
  saved-id statement, which the PostgreSQL builder never writes.
- Storage.Storage.UpdateRelations: the rows are taken in an unspecified
  order, where SQLite returns them in its own order. The contract names
  the order the run took, but not which order SQLite would have chosen.
- Text.Lower: it lowers only the capitals of the ASCII, Latin-1, Greek
  and Cyrillic blocks, each to a single character. Ruby's `downcase`
  follows the whole Unicode case mapping, so a capital of another script,
  such as Latin Extended-A, or one lowered to several characters, such as
  U+0130, is kept as it is. Logins, mails, project keys, role names and
  taxonomy names written with such capitals do not match their lower-case
  forms in the model.
- Storage.Affinity: it models SQLite's INT column affinity for unsigned
  canonical decimals only. Signs, leading zeros and reals are kept as
  text.
- Storage.Storage: the Jira ids of `project_links`, `issue_links` and
  `issue_relations` are kept as the strings the importer passes, whereas
  lib/storage.rb:7-9 declares those columns INT; only the link type goes
  through `Storage.Affinity`. For the canonical decimal ids Jira exports,
  the keys and joins agree.
- Taxonomy.BindEnum: the Jira entries are visited in an unspecified
  order. The binding is the same in any order, since each entry's target
  depends only on its own name.
- Migration.Import.MigrateProjects: the promise about `projects_binding`
  holds only when no project id equals another project's id followed by
  the internal postfix. Otherwise the Ruby Hash keys collide.
- An issue whose project is not loaded files its attachments under the
  project key "", where the source would raise. `Jira.Loaded` rules that
  case out.
- The `load_jira_*` helpers are not part of this model, apart from the
  filters that `Jira.Loaded` records. That includes the 30-character
  truncation and the `ø` replacement at lib/import.rb:602-603.
- misc/post_import.py is not part of this model.
- Floating-point rounding of hours is modelled as exact rounding, half up.

## Findings

| source | as written | input that shows it | evidently intended | confidence | as-written member | corrected member |
|---|---|---|---|---|---|---|
| lib/import.rb:355 | the `find` block ends with `as[:associationType] = 'IssueFixVersion'`, an assignment, which is always truthy and rewrites the row | the association ("1", "Issue", "7", "IssueComponent") with version "7" bound to 70: issue "1" gets fix version 70 | compare with `==`: only a fix-version association sets the fix version | not executed; harmless in practice because the loader keeps only fix-version associations (lib/import.rb:703) | Issues.FixVersionAsWritten, Issues.FixVersionAssignmentCounterexample | Issues.FixVersion, Issues.FixVersionAgreesWhenLoaded |
