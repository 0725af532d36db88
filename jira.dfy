/** The records the importer reads from the Jira export, as they stand once
    loaded (the structs at lib/import.rb:28-42, the user hashes built at
    600-605 and the loaders' filters). Parsing the XML is not modelled: a
    `Dataset` is the loaded result. */
module Jira {
  import opened Values

  /** Jira ids are the decimal strings of the export. */
  type JiraId = string

  datatype Project = Project(name: string, lead: string, description: string, key: string)

  datatype Version = Version(project: JiraId, name: string, description: string)

  datatype Issue = Issue(
    key: string, project: JiraId, creator: string, assignee: Option<string>,
    issueType: JiraId, summary: string, description: Option<string>,
    priority: JiraId, status: JiraId, created: string, updated: string,
    security: Option<string>, timeOriginalEstimate: Option<nat>, dueDate: Option<string>)

  datatype IssueLink = IssueLink(linktype: string, source: JiraId, destination: JiraId)

  datatype Comment = Comment(issue: JiraId, author: string, body: Option<string>, created: string, roleLevel: Option<string>)

  datatype Worklog = Worklog(issue: JiraId, author: string, body: Option<string>, startDate: string, timeWorked: Option<nat>)

  datatype Attachment = Attachment(issue: JiraId, author: string, mimeType: string, filename: string, created: string, filesize: string)

  datatype HistoryGroup = HistoryGroup(issue: JiraId, author: string, created: string)

  datatype HistoryItem = HistoryItem(group: JiraId, field: string, newValue: Option<JiraId>, oldValue: Option<JiraId>)

  datatype NodeAssociation = NodeAssociation(sourceNodeId: JiraId, sourceNodeEntity: string, sinkNodeId: JiraId, associationType: string)

  datatype CustomFieldValue = CustomFieldValue(issue: JiraId, customField: JiraId, stringValue: Option<string>)

  datatype Label = Label(issue: JiraId, text: string)

  /** A Jira user; `migrate_users` rewrites these in place. */
  datatype User = User(login: string, mail: string, firstname: string, lastname: string, status: string, displayName: string)

  datatype UserAlias = UserAlias(userKey: string, lowerUserName: string)

  /** A Ruby Hash, iterated in insertion order. */
  type Table<T> = seq<(JiraId, T)>

  /** `hash[id]`. */
  function Find<K(==), T>(t: seq<(K, T)>, id: K): (r: Option<T>)
    ensures r.None? <==> forall i :: 0 <= i < |t| ==> t[i].0 != id
    ensures r.Some? ==> exists i :: 0 <= i < |t| && t[i] == (id, r.value)
  {
    if t == [] then None
    else if t[0].0 == id then Some(t[0].1)
    else Find(t[1..], id)
  }

  /** The values of a Hash, in order. */
  function Rows<T>(t: Table<T>): seq<T>
  {
    seq(|t|, i requires 0 <= i < |t| => t[i].1)
  }

  /** `hash.select { … }`, keeping insertion order. */
  function Filter<T>(t: Table<T>, p: T -> bool): (r: Table<T>)
    ensures |r| <= |t|
    ensures forall i :: 0 <= i < |r| ==> p(r[i].1)
  {
    if t == [] then []
    else if p(t[0].1) then [t[0]] + Filter(t[1..], p)
    else Filter(t[1..], p)
  }

  /** `select` keeps exactly the rows satisfying the block. */
  lemma {:induction false} FilterMembers<T(!new)>(t: Table<T>, p: T -> bool)
    ensures forall x :: x in Filter(t, p) <==> x in t && p(x.1)
    decreases |t|
  {
    if t != [] {
      FilterMembers(t[1..], p);
      assert t == [t[0]] + t[1..];
    }
  }

  /** Filtering keeps the order: the rows kept from a concatenation are the
      rows kept from each part, one part after the other. */
  lemma {:induction false} FilterAppend<T>(a: Table<T>, b: Table<T>, p: T -> bool)
    ensures Filter(a + b, p) == Filter(a, p) + Filter(b, p)
    decreases |a|
  {
    if a == [] {
      assert a + b == b;
    } else {
      assert (a + b)[0] == a[0] && (a + b)[1..] == a[1..] + b;
      FilterAppend(a[1..], b, p);
      if p(a[0].1) {
        calc {
          Filter(a + b, p);
          [a[0]] + Filter(a[1..] + b, p);
          [a[0]] + (Filter(a[1..], p) + Filter(b, p));
          Filter(a, p) + Filter(b, p);
        }
      }
    }
  }

  datatype Dataset = Dataset(
    statuses: map<JiraId, string>,
    types: map<JiraId, string>,
    priorities: map<JiraId, string>,
    customFields: map<JiraId, string>,
    users: Table<User>,
    userAliases: Table<UserAlias>,
    projects: Table<Project>,
    versions: Table<Version>,
    issues: Table<Issue>,
    issueLinks: Table<IssueLink>,
    nodeAssociations: seq<NodeAssociation>,
    comments: Table<Comment>,
    worklogs: Table<Worklog>,
    attachments: Table<Attachment>,
    historyGroups: Table<HistoryGroup>,
    history: Table<HistoryItem>,
    customFieldValues: Table<CustomFieldValue>,
    labels: Table<Label>)

  /** A Hash has one entry per key. */
  predicate Keyed<T>(t: Table<T>)
  {
    forall i, j :: 0 <= i < j < |t| ==> t[i].0 != t[j].0
  }

  /** What the loaders guarantee: every issue belongs to a loaded project
      (lib/import.rb:661) and only fix-version associations are kept
      (lib/import.rb:703). */
  predicate Loaded(d: Dataset)
  {
    && Keyed(d.users) && Keyed(d.projects) && Keyed(d.versions) && Keyed(d.issues) && Keyed(d.issueLinks)
    && (forall i :: 0 <= i < |d.issues| ==> Find(d.projects, d.issues[i].1.project).Some?)
    && (forall i :: 0 <= i < |d.nodeAssociations| ==> d.nodeAssociations[i].associationType == "IssueFixVersion")
  }

  function CommentsOf(d: Dataset, issue: JiraId): Table<Comment>
  {
    Filter(d.comments, (c: Comment) => c.issue == issue)
  }

  function WorklogsOf(d: Dataset, issue: JiraId): Table<Worklog>
  {
    Filter(d.worklogs, (w: Worklog) => w.issue == issue)
  }

  function AttachmentsOf(d: Dataset, issue: JiraId): Table<Attachment>
  {
    Filter(d.attachments, (a: Attachment) => a.issue == issue)
  }

  function HistoryGroupsOf(d: Dataset, issue: JiraId): Table<HistoryGroup>
  {
    Filter(d.historyGroups, (g: HistoryGroup) => g.issue == issue)
  }

  function HistoryItemsOf(d: Dataset, group: JiraId): Table<HistoryItem>
  {
    Filter(d.history, (h: HistoryItem) => h.group == group)
  }

  function LabelsOf(d: Dataset, issue: JiraId): Table<Label>
  {
    Filter(d.labels, (l: Label) => l.issue == issue)
  }

  function CustomFieldValuesOf(d: Dataset, issue: JiraId): Table<CustomFieldValue>
  {
    Filter(d.customFieldValues, (v: CustomFieldValue) => v.issue == issue)
  }

  function VersionsOf(d: Dataset, project: JiraId): Table<Version>
  {
    Filter(d.versions, (v: Version) => v.project == project)
  }
}
