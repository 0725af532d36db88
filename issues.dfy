/** What `migrate_issues` (lib/import.rb:341-561) and `process_custom_fields`
    (lib/import.rb:567-589) compute for one Jira issue before they call the
    Redmine API or the patch-script builder: the project it goes to, the
    values it sends, the custom fields, the path of each attachment, the
    status changes and what becomes of each issue link. */
module Issues {
  import opened Values
  import Jira
  import Redmine
  import Taxonomy

  // ---------------------------------------------------------------- project

  /** The issue carries a security level. */
  predicate HasSecurity(i: Jira.Issue)
  {
    i.security.Some? && i.security.value != ""
  }

  /** The key of `projects_binding` the issue is created under: with an
      internal-project postfix configured, an issue with a security level
      goes to the project's internal subproject (lib/import.rb:347-351). */
  function IssueProject(i: Jira.Issue, postfix: string): (p: Jira.JiraId)
    ensures p == i.project <==> postfix == "" || !HasSecurity(i)
    ensures p != i.project ==> p == i.project + postfix
  {
    if postfix == "" || !HasSecurity(i) then i.project
    else
      assert |i.project + postfix| > |i.project|;
      i.project + postfix
  }

  /** `is_private` (lib/import.rb:365). */
  function IsPrivate(i: Jira.Issue): (v: int)
    ensures v == 1 <==> HasSecurity(i)
    ensures v == 0 || v == 1
  {
    if HasSecurity(i) then 1 else 0
  }

  /** With a postfix configured, an issue goes to the internal subproject
      exactly when it is created private. */
  lemma InternalIffPrivate(i: Jira.Issue, postfix: string)
    requires postfix != ""
    ensures IssueProject(i, postfix) == i.project + postfix <==> IsPrivate(i) == 1
    ensures IssueProject(i, postfix) == i.project <==> IsPrivate(i) == 0
  {
    if HasSecurity(i) {
      assert IssueProject(i, postfix) != i.project;
    } else {
      assert |i.project + postfix| != |i.project|;
    }
  }

  // ---------------------------------------------------------- issue values

  /** `done_ratio`: 100 when the issue's status is bound to Redmine status 3
      or 5, 0 otherwise (lib/import.rb:373-374). */
  function DoneRatio(status: Option<int>): (r: int)
    ensures r == 100 <==> status == Some(3) || status == Some(5)
    ensures r == 0 || r == 100
  {
    if status == Some(3) || status == Some(5) then 100 else 0
  }

  /** `estimated_hours` and a worklog's `hours`: 0 when the export has no
      duration, otherwise the seconds as hours rounded to two decimals
      (lib/import.rb:366, 409). */
  function Hours(seconds: Option<nat>): (v: Value)
    ensures seconds.None? ==> v == Int(0)
    ensures seconds.Some? ==> v.Hundredths? && 36 * v.h <= seconds.value + 18 < 36 * (v.h + 1)
  {
    match seconds
    case None => Int(0)
    case Some(s) => HoursOf(s)
  }

  /** Whole hours stay whole: an estimate of `n` hours is written as `n.0`. */
  lemma HoursOfWholeHours(n: nat)
    ensures Hours(Some(3600 * n)) == Hundredths(100 * n)
  {
    var v := Hours(Some(3600 * n));
    assert 36 * v.h <= 3600 * n + 18 < 36 * (v.h + 1);
  }

  /** The placeholder the patch script receives for a missing due date. */
  const NoDueDate: string := "0000-00-00 00:00:00"

  /** `duedate` (lib/import.rb:383). */
  function DueDate(d: Option<string>): (r: string)
    ensures d.Some? ==> r == d.value
    ensures d.None? ==> r == NoDueDate
  {
    d.GetOr(NoDueDate)
  }

  /** `private_notes` of a comment: 1 when Jira restricts it to a role level,
      0 otherwise (lib/import.rb:396). */
  function PrivateNotes(roleLevel: Option<string>): (v: Value)
    ensures v == Int(0) <==> roleLevel.None?
    ensures v == Int(0) || v == Int(1)
  {
    if roleLevel.None? then Int(0) else Int(1)
  }

  /** A text as the patch script receives it: the fallback for a missing or
      empty text, otherwise the text with emoji removed, Base64-encoded
      (lib/import.rb:384, 394, 407). */
  function Encoded(text: Option<string>, fallback: string, sanitize: string -> string, encode: string -> string): (r: string)
    ensures (text.None? || text == Some("")) ==> r == encode(fallback)
    ensures text.Some? && text.value != "" ==> r == encode(sanitize(text.value))
  {
    if text.None? || text.value == "" then encode(fallback) else encode(sanitize(text.value))
  }

  // ----------------------------------------------------------- fix version

  /** The association that records the issue's fix version. */
  predicate IsFixVersionOf(a: Jira.NodeAssociation, issue: Jira.JiraId)
  {
    a.sourceNodeId == issue && a.sourceNodeEntity == "Issue" && a.associationType == "IssueFixVersion"
  }

  /** The first association satisfying `IsFixVersionOf`. */
  function FirstFixVersion(assocs: seq<Jira.NodeAssociation>, issue: Jira.JiraId): (r: Option<nat>)
    ensures r.None? <==> forall k :: 0 <= k < |assocs| ==> !IsFixVersionOf(assocs[k], issue)
    ensures r.Some? ==> r.value < |assocs| && IsFixVersionOf(assocs[r.value], issue)
                        && forall k :: 0 <= k < r.value ==> !IsFixVersionOf(assocs[k], issue)
  {
    if assocs == [] then None
    else if IsFixVersionOf(assocs[0], issue) then Some(0)
    else match FirstFixVersion(assocs[1..], issue)
      case None => None
      case Some(k) => Some(k + 1)
  }

  /** `fixed_version_id`: '' when the issue has no fix version, otherwise
      the version's Redmine id, nil when that version was not migrated
      (lib/import.rb:353-357, with the type test the code means). */
  function FixVersion(assocs: seq<Jira.NodeAssociation>, versions: map<Jira.JiraId, int>, issue: Jira.JiraId): (v: Value)
    ensures v == Str("") <==> forall k :: 0 <= k < |assocs| ==> !IsFixVersionOf(assocs[k], issue)
    ensures v.Int? ==> exists k :: 0 <= k < |assocs| && IsFixVersionOf(assocs[k], issue)
                                  && assocs[k].sinkNodeId in versions && v.i == versions[assocs[k].sinkNodeId]
    ensures v == Str("") || v == Nil || v.Int?
  {
    match FirstFixVersion(assocs, issue)
    case None => Str("")
    case Some(k) => OfOption(Lookup(versions, assocs[k].sinkNodeId))
  }

  /** The block of the `find` at lib/import.rb:355 as written: the last test
      is an assignment, which is truthy, so any association from the issue
      matches whatever its type. */
  predicate MatchesAsWritten(a: Jira.NodeAssociation, issue: Jira.JiraId)
  {
    a.sourceNodeId == issue && a.sourceNodeEntity == "Issue"
  }

  function FirstMatchAsWritten(assocs: seq<Jira.NodeAssociation>, issue: Jira.JiraId): (r: Option<nat>)
    ensures r.None? <==> forall k :: 0 <= k < |assocs| ==> !MatchesAsWritten(assocs[k], issue)
    ensures r.Some? ==> r.value < |assocs| && MatchesAsWritten(assocs[r.value], issue)
                        && forall k :: 0 <= k < r.value ==> !MatchesAsWritten(assocs[k], issue)
  {
    if assocs == [] then None
    else if MatchesAsWritten(assocs[0], issue) then Some(0)
    else match FirstMatchAsWritten(assocs[1..], issue)
      case None => None
      case Some(k) => Some(k + 1)
  }

  /** lib/import.rb:353-357 as written: the fix version found, and the
      association list after the assignment retagged the match. The `&&`
      chain stops at the first failed test, so only the first association
      from the issue reaches the assignment. */
  function FixVersionAsWritten(assocs: seq<Jira.NodeAssociation>, versions: map<Jira.JiraId, int>, issue: Jira.JiraId)
    : (r: (Value, seq<Jira.NodeAssociation>))
    ensures |r.1| == |assocs|
    ensures FirstMatchAsWritten(assocs, issue).None? ==> r == (Str(""), assocs)
    ensures FirstMatchAsWritten(assocs, issue).Some? ==>
              var k := FirstMatchAsWritten(assocs, issue).value;
              && r.1[k] == assocs[k].(associationType := "IssueFixVersion")
              && (forall j :: 0 <= j < |assocs| && j != k ==> r.1[j] == assocs[j])
              && (assocs[k].sinkNodeId in versions ==> r.0 == Int(versions[assocs[k].sinkNodeId]))
              && (assocs[k].sinkNodeId !in versions ==> r.0 == Nil)
  {
    match FirstMatchAsWritten(assocs, issue)
    case None => (Str(""), assocs)
    case Some(k) =>
      (OfOption(Lookup(versions, assocs[k].sinkNodeId)), assocs[k := assocs[k].(associationType := "IssueFixVersion")])
  }

  /** The loader keeps fix-version associations only (lib/import.rb:703), so
      the assignment is harmless there: the code as written finds the same
      version as the intended test and leaves the list as it was. */
  lemma FixVersionAgreesWhenLoaded(assocs: seq<Jira.NodeAssociation>, versions: map<Jira.JiraId, int>, issue: Jira.JiraId)
    requires forall k :: 0 <= k < |assocs| ==> assocs[k].associationType == "IssueFixVersion"
    ensures FixVersionAsWritten(assocs, versions, issue) == (FixVersion(assocs, versions, issue), assocs)
  {
    var w := FirstMatchAsWritten(assocs, issue);
    var f := FirstFixVersion(assocs, issue);
    if w.Some? {
      assert IsFixVersionOf(assocs[w.value], issue);
      assert f == w;
      assert assocs[w.value := assocs[w.value].(associationType := "IssueFixVersion")] == assocs;
    } else {
      assert f.None?;
    }
  }

  /** Without that filter an association of another type is taken for the
      fix version and rewritten into one. */
  lemma FixVersionAssignmentCounterexample()
    ensures var assocs := [Jira.NodeAssociation("1", "Issue", "7", "IssueComponent")];
            var versions := map["7" := 70];
            && FixVersionAsWritten(assocs, versions, "1").0 == Int(70)
            && FixVersionAsWritten(assocs, versions, "1").1[0].associationType == "IssueFixVersion"
            && FixVersion(assocs, versions, "1") == Str("")
  {
    var assocs := [Jira.NodeAssociation("1", "Issue", "7", "IssueComponent")];
    assert !IsFixVersionOf(assocs[0], "1");
    assert FirstMatchAsWritten(assocs, "1") == Some(0);
  }

  // --------------------------------------------------------- custom fields

  /** The `custom_fields` hash of `process_custom_fields`: Redmine custom
      field ids to values (nil included), in insertion order. */
  type FieldHash = seq<(int, Option<string>)>

  predicate DistinctIds(h: FieldHash)
  {
    forall i, j :: 0 <= i < j < |h| ==> h[i].0 != h[j].0
  }

  /** `h[k] = v`: an existing key keeps its place and takes the new value,
      a new key goes last. */
  function Put(h: FieldHash, k: int, v: Option<string>): (r: FieldHash)
    ensures || (|r| == |h| && forall i :: 0 <= i < |h| ==> r[i].0 == h[i].0)
            || (r == h + [(k, v)] && forall i :: 0 <= i < |h| ==> h[i].0 != k)
  {
    if h == [] then [(k, v)]
    else if h[0].0 == k then [(k, v)] + h[1..]
    else [h[0]] + Put(h[1..], k, v)
  }

  /** After `h[k] = v`, `k` holds `v` and every other key what it held. */
  lemma {:induction false} PutGet(h: FieldHash, k: int, v: Option<string>, k': int)
    ensures Jira.Find(Put(h, k, v), k') == if k' == k then Some(v) else Jira.Find(h, k')
  {
    if h != [] && h[0].0 != k {
      PutGet(h[1..], k, v, k');
      assert Put(h, k, v)[1..] == Put(h[1..], k, v);
    }
  }

  lemma PutDistinct(h: FieldHash, k: int, v: Option<string>)
    requires DistinctIds(h)
    ensures DistinctIds(Put(h, k, v))
  {
    var r := Put(h, k, v);
    if |r| == |h| && forall i :: 0 <= i < |h| ==> r[i].0 == h[i].0 {
      forall i, j | 0 <= i < j < |r| ensures r[i].0 != r[j].0 {
        assert r[i].0 == h[i].0 && r[j].0 == h[j].0;
      }
    } else {
      assert r == h + [(k, v)];
      forall i, j | 0 <= i < j < |r| ensures r[i].0 != r[j].0 {
        if j < |h| {
          assert r[i] == h[i] && r[j] == h[j];
        }
      }
    }
  }

  /** The hash after the writes `ws`, in order. */
  function PutAll(h: FieldHash, ws: FieldHash): (r: FieldHash)
    ensures DistinctIds(h) ==> DistinctIds(r)
  {
    if ws == [] then h
    else
      var n := |ws| - 1;
      var before := PutAll(h, ws[..n]);
      if DistinctIds(h) then PutDistinct(before, ws[n].0, ws[n].1); Put(before, ws[n].0, ws[n].1)
      else Put(before, ws[n].0, ws[n].1)
  }

  /** The position of the last write to `k`, if any. */
  function LastIndex(ws: FieldHash, k: int): (r: Option<nat>)
    ensures r.None? <==> forall i :: 0 <= i < |ws| ==> ws[i].0 != k
    ensures r.Some? ==> r.value < |ws| && ws[r.value].0 == k && forall j :: r.value < j < |ws| ==> ws[j].0 != k
  {
    if ws == [] then None
    else
      var n := |ws| - 1;
      if ws[n].0 == k then Some(n)
      else
        assert forall i :: 0 <= i < n ==> ws[..n][i] == ws[i];
        LastIndex(ws[..n], k)
  }

  /** The value of the last write to `k`, if any. */
  function LastWrite(ws: FieldHash, k: int): (r: Option<Option<string>>)
    ensures r.None? <==> forall i :: 0 <= i < |ws| ==> ws[i].0 != k
    ensures r.Some? ==> exists i :: 0 <= i < |ws| && ws[i] == (k, r.value)
                                     && forall j :: i < j < |ws| ==> ws[j].0 != k
  {
    match LastIndex(ws, k)
    case None => None
    case Some(i) => Some(ws[i].1)
  }

  /** Each key ends up with its last write; keys not written keep their
      value. */
  lemma {:induction false} PutAllLastWriteWins(h: FieldHash, ws: FieldHash, k: int)
    ensures Jira.Find(PutAll(h, ws), k) == if LastWrite(ws, k).Some? then LastWrite(ws, k) else Jira.Find(h, k)
    decreases |ws|
  {
    if ws != [] {
      var n := |ws| - 1;
      PutAllLastWriteWins(h, ws[..n], k);
      PutGet(PutAll(h, ws[..n]), ws[n].0, ws[n].1, k);
    }
  }

  /** The writes of `process_custom_fields`, in order: the issue key as
      `[KEY]`, the labels as one `[a][b]…` value when the issue has any,
      then the issue's custom field values whose field is bound
      (lib/import.rb:570-584). */
  function Writes(binding: map<string, int>, key: string, labels: seq<string>, values: seq<Jira.CustomFieldValue>): FieldHash
  {
    (if Taxonomy.IssueKeyField in binding then [(binding[Taxonomy.IssueKeyField], Some("[" + key + "]"))] else [])
    + (if Taxonomy.LabelField in binding && labels != [] then [(binding[Taxonomy.LabelField], Some(LabelText(labels)))] else [])
    + ValueWrites(binding, values)
  }

  /** The labels, each in brackets, concatenated in order. */
  function LabelText(labels: seq<string>): (r: string)
    ensures |r| >= 2 * |labels|
  {
    if labels == [] then "" else LabelText(labels[..|labels| - 1]) + "[" + labels[|labels| - 1] + "]"
  }

  function ValueWrites(binding: map<string, int>, values: seq<Jira.CustomFieldValue>): (r: FieldHash)
    ensures |r| <= |values|
  {
    if values == [] then []
    else
      var n := |values| - 1;
      var v := values[n];
      var r := ValueWrites(binding, values[..n]);
      if v.customField in binding then r + [(binding[v.customField], v.stringValue)] else r
  }

  /** Every write comes from a value whose field is bound, and writes that
      binding's id with that value. */
  lemma {:induction false} ValueWritesFrom(binding: map<string, int>, values: seq<Jira.CustomFieldValue>)
    ensures forall w :: w in ValueWrites(binding, values) ==> exists v :: v in values && v.customField in binding
                                                                 && w == (binding[v.customField], v.stringValue)
  {
    if values != [] {
      var n := |values| - 1;
      ValueWritesFrom(binding, values[..n]);
      assert forall x :: x in values[..n] ==> x in values;
    }
  }

  lemma ValueWritesStep(binding: map<string, int>, values: seq<Jira.CustomFieldValue>, i: nat)
    requires i < |values|
    ensures ValueWrites(binding, values[..i + 1])
         == ValueWrites(binding, values[..i]) + if values[i].customField in binding then [(binding[values[i].customField], values[i].stringValue)] else []
  {
    assert values[..i + 1][..i] == values[..i];
  }

  /** The fields sent: the hash's entries with a value, in order
      (lib/import.rb:585-587). */
  function NonNil(h: FieldHash): (r: seq<Redmine.CustomField>)
    ensures |r| <= |h|
  {
    if h == [] then []
    else
      var n := |h| - 1;
      NonNil(h[..n]) + if h[n].1.Some? then [Redmine.CustomField(h[n].0, h[n].1.value)] else []
  }

  /** The fields sent for one issue. */
  function CustomFields(binding: map<string, int>, key: string, labels: seq<string>, values: seq<Jira.CustomFieldValue>)
    : seq<Redmine.CustomField>
  {
    NonNil(PutAll([], Writes(binding, key, labels, values)))
  }

  /** A field is sent with a value exactly when the hash holds that value
      for it. */
  lemma {:induction false} NonNilHas(h: FieldHash, id: int, value: string)
    requires DistinctIds(h)
    ensures Redmine.CustomField(id, value) in NonNil(h) <==> Jira.Find(h, id) == Some(Some(value))
    decreases |h|
  {
    if h != [] {
      var n := |h| - 1;
      assert DistinctIds(h[..n]);
      NonNilHas(h[..n], id, value);
      GetSnoc(h[..n], h[n], id);
      assert h[..n] + [h[n]] == h;
      if h[n].0 == id {
        assert Jira.Find(h[..n], id).None? by {
          forall i | 0 <= i < n ensures h[..n][i].0 != id { assert h[i].0 != h[n].0; }
        }
      }
    }
  }

  lemma GetSnoc(h: FieldHash, e: (int, Option<string>), k: int)
    ensures Jira.Find(h + [e], k) == if Jira.Find(h, k).Some? then Jira.Find(h, k) else if e.0 == k then Some(e.1) else None
  {
    if h != [] {
      assert (h + [e])[1..] == h[1..] + [e];
    }
  }

  /** Every field is sent at most once. */
  lemma {:induction false} NonNilDistinct(h: FieldHash)
    requires DistinctIds(h)
    ensures forall i, j :: 0 <= i < j < |NonNil(h)| ==> NonNil(h)[i].id != NonNil(h)[j].id
    decreases |h|
  {
    if h != [] {
      var n := |h| - 1;
      assert DistinctIds(h[..n]);
      NonNilDistinct(h[..n]);
      forall i | 0 <= i < |NonNil(h[..n])|
        ensures NonNil(h[..n])[i].id != h[n].0
      {
        var f := NonNil(h[..n])[i];
        assert f in NonNil(h[..n]);
        NonNilHas(h[..n], f.id, f.value);
      }
    }
  }

  /** What `process_custom_fields` sends, field by field: a field is sent
      with a value exactly when the last write to it carries that value, and
      no field is sent twice. */
  lemma CustomFieldsLastWriteWins(binding: map<string, int>, key: string, labels: seq<string>,
                                  values: seq<Jira.CustomFieldValue>, id: int, value: string)
    ensures Redmine.CustomField(id, value) in CustomFields(binding, key, labels, values)
            <==> LastWrite(Writes(binding, key, labels, values), id) == Some(Some(value))
    ensures var r := CustomFields(binding, key, labels, values);
            forall i, j :: 0 <= i < j < |r| ==> r[i].id != r[j].id
  {
    var ws := Writes(binding, key, labels, values);
    var h := PutAll([], ws);
    PutAllLastWriteWins([], ws, id);
    NonNilHas(h, id, value);
    NonNilDistinct(h);
  }

  /** The issue key is sent unless a later write, the labels or a custom
      value, reuses the field bound to `%issue key%`. */
  lemma IssueKeySent(binding: map<string, int>, key: string, labels: seq<string>, values: seq<Jira.CustomFieldValue>)
    requires Taxonomy.IssueKeyField in binding
    requires Taxonomy.LabelField in binding && labels != [] ==> binding[Taxonomy.LabelField] != binding[Taxonomy.IssueKeyField]
    requires forall v :: v in values && v.customField in binding ==> binding[v.customField] != binding[Taxonomy.IssueKeyField]
    ensures Redmine.CustomField(binding[Taxonomy.IssueKeyField], "[" + key + "]") in CustomFields(binding, key, labels, values)
  {
    var id := binding[Taxonomy.IssueKeyField];
    var ws := Writes(binding, key, labels, values);
    var vw := ValueWrites(binding, values);
    ValueWritesFrom(binding, values);
    var head := [(id, Some("[" + key + "]"))];
    var lab: FieldHash := if Taxonomy.LabelField in binding && labels != [] then [(binding[Taxonomy.LabelField], Some(LabelText(labels)))] else [];
    assert ws == head + lab + vw;
    forall i | 1 <= i < |ws| ensures ws[i].0 != id {
      if i < 1 + |lab| {
        assert ws[i] == lab[i - 1];
      } else {
        assert ws[i] == vw[i - 1 - |lab|] && ws[i] in vw;
      }
    }
    var r := LastWrite(ws, id);
    assert ws[0] == (id, Some("[" + key + "]"));
    assert r == Some(Some("[" + key + "]"));
    CustomFieldsLastWriteWins(binding, key, labels, values, id, "[" + key + "]");
  }

  /** A nil custom value is never sent: a field whose last write is nil is
      left out. */
  lemma NilValuesDropped(binding: map<string, int>, key: string, labels: seq<string>, values: seq<Jira.CustomFieldValue>, id: int)
    requires LastWrite(Writes(binding, key, labels, values), id) == Some(None)
    ensures forall f :: f in CustomFields(binding, key, labels, values) ==> f.id != id
  {
    forall f | f in CustomFields(binding, key, labels, values)
      ensures f.id != id
    {
      CustomFieldsLastWriteWins(binding, key, labels, values, f.id, f.value);
    }
  }

  /** The label texts of a label table, in order. */
  function Texts(labels: Jira.Table<Jira.Label>): seq<string>
  {
    seq(|labels|, i requires 0 <= i < |labels| => labels[i].1.text)
  }

  lemma PutAllSnoc(h: FieldHash, ws: FieldHash, w: (int, Option<string>))
    ensures PutAll(h, ws + [w]) == Put(PutAll(h, ws), w.0, w.1)
  {
    assert (ws + [w])[..|ws|] == ws;
  }

  /** `process_custom_fields`, given the issue's labels and custom values
      (lib/import.rb:567-589): builds the hash write by write and returns
      its entries that have a value. */
  method ProcessCustomFields(binding: map<string, int>, key: string, labels: Jira.Table<Jira.Label>,
                             values: Jira.Table<Jira.CustomFieldValue>) returns (fields: seq<Redmine.CustomField>)
    ensures fields == CustomFields(binding, key, Texts(labels), Jira.Rows(values))
  {
    ghost var head: FieldHash := [];
    var hash: FieldHash := [];
    if Taxonomy.IssueKeyField in binding {
      hash := Put(hash, binding[Taxonomy.IssueKeyField], Some("[" + key + "]"));
      head := [(binding[Taxonomy.IssueKeyField], Some("[" + key + "]"))];
      PutAllSnoc([], [], head[0]);
      assert [] + [head[0]] == head;
    }
    if Taxonomy.LabelField in binding {
      if |labels| > 0 {
        var joined := JoinLabels(labels);
        var w := (binding[Taxonomy.LabelField], Some(joined));
        PutAllSnoc([], head, w);
        hash := Put(hash, w.0, w.1);
        head := head + [w];
      }
    }
    ghost var keyPart: FieldHash := if Taxonomy.IssueKeyField in binding then [(binding[Taxonomy.IssueKeyField], Some("[" + key + "]"))] else [];
    ghost var labelPart: FieldHash := if Taxonomy.LabelField in binding && Texts(labels) != [] then [(binding[Taxonomy.LabelField], Some(LabelText(Texts(labels))))] else [];
    assert head == keyPart + labelPart;
    hash := PutValues(binding, head, hash, values);
    assert Writes(binding, key, Texts(labels), Jira.Rows(values)) == keyPart + labelPart + ValueWrites(binding, Jira.Rows(values));
    fields := Entries(hash);
  }

  /** The labels' loop (lib/import.rb:574-576). */
  method JoinLabels(labels: Jira.Table<Jira.Label>) returns (joined: string)
    ensures joined == LabelText(Texts(labels))
  {
    ghost var texts := Texts(labels);
    joined := "";
    for i := 0 to |labels|
      invariant joined == LabelText(texts[..i])
    {
      assert texts[..i + 1][..i] == texts[..i];
      joined := joined + "[" + labels[i].1.text + "]";
    }
    assert texts[..|labels|] == texts;
  }

  /** The custom values' loop (lib/import.rb:581-583). */
  method PutValues(binding: map<string, int>, ghost head: FieldHash, hash0: FieldHash, values: Jira.Table<Jira.CustomFieldValue>)
    returns (hash: FieldHash)
    requires hash0 == PutAll([], head)
    ensures hash == PutAll([], head + ValueWrites(binding, Jira.Rows(values)))
  {
    var records := Jira.Rows(values);
    hash := hash0;
    assert head + ValueWrites(binding, records[..0]) == head;
    for i := 0 to |records|
      invariant hash == PutAll([], head + ValueWrites(binding, records[..i]))
    {
      PutValueStep(binding, head, records, i);
      if records[i].customField in binding {
        hash := Put(hash, binding[records[i].customField], records[i].stringValue);
      }
    }
    assert records[..|records|] == records;
  }

  lemma PutValueStep(binding: map<string, int>, head: FieldHash, records: seq<Jira.CustomFieldValue>, i: nat)
    requires i < |records|
    ensures var before := PutAll([], head + ValueWrites(binding, records[..i]));
            PutAll([], head + ValueWrites(binding, records[..i + 1]))
            == if records[i].customField in binding then Put(before, binding[records[i].customField], records[i].stringValue) else before
  {
    ValueWritesStep(binding, records, i);
    if records[i].customField in binding {
      var w := (binding[records[i].customField], records[i].stringValue);
      PutAllSnoc([], head + ValueWrites(binding, records[..i]), w);
      assert head + ValueWrites(binding, records[..i + 1]) == (head + ValueWrites(binding, records[..i])) + [w];
    } else {
      assert ValueWrites(binding, records[..i + 1]) == ValueWrites(binding, records[..i]);
    }
  }

  /** The final loop (lib/import.rb:585-587). */
  method Entries(hash: FieldHash) returns (fields: seq<Redmine.CustomField>)
    ensures fields == NonNil(hash)
  {
    fields := [];
    for i := 0 to |hash|
      invariant fields == NonNil(hash[..i])
    {
      assert hash[..i + 1][..i] == hash[..i];
      if hash[i].1.Some? {
        fields := fields + [Redmine.CustomField(hash[i].0, hash[i].1.value)];
      }
    }
    assert hash[..|hash|] == hash;
  }

  // ------------------------------------------------------------ attachments

  /** What the attachment directory holds: the paths that exist and the
      paths that can be read, each a list of path components. */
  datatype Files = Files(existing: set<seq<string>>, readable: set<seq<string>>)

  /** Where an attachment may lie, in the order they are tried
      (lib/import.rb:420-432). */
  function Candidates(root: string, projectKey: string, issueKey: string, aid: string, filename: string): (r: seq<seq<string>>)
    ensures |r| == 4
  {
    [[root, projectKey, issueKey, aid],
     [root, projectKey, issueKey, aid + "_" + filename],
     [root, projectKey, "10000", issueKey, aid],
     [root, projectKey, "10000", issueKey, aid + "_" + filename]]
  }

  /** The first candidate that exists; the last one when none does. */
  function SourceFile(files: Files, candidates: seq<seq<string>>): (p: seq<string>)
    requires |candidates| == 4
    ensures p in candidates
    ensures (exists k :: 0 <= k < 4 && candidates[k] in files.existing) ==>
              exists k :: 0 <= k < 4 && p == candidates[k] && p in files.existing
                          && forall j :: 0 <= j < k ==> candidates[j] !in files.existing
    ensures (forall k :: 0 <= k < 4 ==> candidates[k] !in files.existing) ==> p == candidates[3]
  {
    if candidates[0] in files.existing then candidates[0]
    else if candidates[1] in files.existing then candidates[1]
    else if candidates[2] in files.existing then candidates[2]
    else candidates[3]
  }

  /** `found` (lib/import.rb:433-443): the chosen path exists and is
      readable. */
  predicate Found(files: Files, path: seq<string>)
  {
    path in files.existing && path in files.readable
  }

  /** An attachment is copied exactly when one of its candidates exists and
      the first one that exists can be read. */
  lemma FoundIff(files: Files, candidates: seq<seq<string>>)
    requires |candidates| == 4
    ensures Found(files, SourceFile(files, candidates)) <==>
              exists k :: 0 <= k < 4 && candidates[k] in files.existing && candidates[k] in files.readable
                          && forall j :: 0 <= j < k ==> candidates[j] !in files.existing
  {
    var p := SourceFile(files, candidates);
    if exists k :: 0 <= k < 4 && candidates[k] in files.existing {
      var k :| 0 <= k < 4 && p == candidates[k] && p in files.existing
               && forall j :: 0 <= j < k ==> candidates[j] !in files.existing;
      forall k' | 0 <= k' < 4 && candidates[k'] in files.existing && forall j :: 0 <= j < k' ==> candidates[j] !in files.existing
        ensures candidates[k'] == p
      {
        assert k' == k;
      }
    }
  }

  /** The copy's file name: the Jira issue id, `_`, the attachment's name
      (lib/import.rb:447). */
  function StoredName(issue: Jira.JiraId, filename: string): (r: string)
    ensures |r| == |issue| + 1 + |filename|
    ensures r[..|issue|] == issue && r[|issue|] == '_' && r[|issue| + 1..] == filename
  {
    issue + "_" + filename
  }

  /** Two attachments of the same issue get different copies unless their
      names agree; copies of issues with ids of the same length never
      collide unless both ids and names agree. */
  lemma StoredNameInjective(i1: Jira.JiraId, f1: string, i2: Jira.JiraId, f2: string)
    requires |i1| == |i2|
    ensures StoredName(i1, f1) == StoredName(i2, f2) <==> i1 == i2 && f1 == f2
  {
    if StoredName(i1, f1) == StoredName(i2, f2) {
      assert i1 == StoredName(i1, f1)[..|i1|];
      assert f1 == StoredName(i1, f1)[|i1| + 1..];
    }
  }

  // ---------------------------------------------------------------- history

  /** `statuses_binding[v]` for a Jira status id that may be missing. */
  function BoundStatus(statuses: map<Jira.JiraId, int>, v: Option<Jira.JiraId>): (r: Value)
    ensures r == Nil || r.Int?
  {
    match v
    case None => Nil
    case Some(s) => OfOption(Lookup(statuses, s))
  }

  /** The (old, new) Redmine status of a history item that is written as a
      status change: a `status` item whose statuses map to different Redmine
      values (lib/import.rb:478-482). */
  function StatusChange(statuses: map<Jira.JiraId, int>, item: Jira.HistoryItem): (r: Option<(Value, Value)>)
    ensures r.Some? <==> item.field == "status" && BoundStatus(statuses, item.oldValue) != BoundStatus(statuses, item.newValue)
    ensures r.Some? ==> r.value == (BoundStatus(statuses, item.oldValue), BoundStatus(statuses, item.newValue))
  {
    if item.field == "status" && BoundStatus(statuses, item.oldValue) != BoundStatus(statuses, item.newValue)
    then Some((BoundStatus(statuses, item.oldValue), BoundStatus(statuses, item.newValue)))
    else None
  }

  /** A change between two Jira statuses bound to the same Redmine status is
      not written, and neither is one between two unbound statuses. */
  lemma SameRedmineStatusNotWritten(statuses: map<Jira.JiraId, int>, item: Jira.HistoryItem)
    requires item.oldValue.Some? && item.newValue.Some?
    requires (item.oldValue.value in statuses && item.newValue.value in statuses
              && statuses[item.oldValue.value] == statuses[item.newValue.value])
             || (item.oldValue.value !in statuses && item.newValue.value !in statuses)
    ensures StatusChange(statuses, item).None?
  {
  }

  // ------------------------------------------------------------ issue links

  /** Jira link type ids and the Redmine relation they become
      (lib/import.rb:533-541). */
  const LinkMap: map<string, string> :=
    map["10000" := "duplicates", "10010" := "relates", "10020" := "blocked", "10030" := "copied_from", "10130" := "follows"]

  /** The Jira link type of a sub-task link. */
  const Subtask: string := "10001"

  /** The relation types Redmine accepts. */
  const RedmineRelationTypes: set<string> :=
    {"relates", "duplicates", "duplicated", "blocks", "blocked", "precedes", "follows", "copied_to", "copied_from"}

  /** The relation created for a link type: its mapping, `relates` when it
      has none (lib/import.rb:542-547). */
  function RelationType(linktype: string): (t: string)
    ensures linktype in LinkMap ==> t == LinkMap[linktype]
    ensures linktype !in LinkMap ==> t == "relates"
  {
    if linktype in LinkMap then LinkMap[linktype] else "relates"
  }

  /** Every relation the importer creates has a type Redmine accepts. */
  lemma RelationTypeAccepted(linktype: string)
    ensures RelationType(linktype) in RedmineRelationTypes
  {
  }

  /** What becomes of one link once all issues are created. */
  datatype LinkAction =
      /** Kept in storage for a later cross-project run. */
    | Defer
      /** A sub-task: the destination issue gets the source as parent. */
    | MakeChild(child: int, parent: int)
    | Relate(from: int, to: int, relationType: string)

  /** lib/import.rb:526-548: a link with an endpoint not created in this run
      is deferred; otherwise a sub-task link sets the parent and any other
      link becomes a relation. */
  function Route(link: Jira.IssueLink, issues: map<Jira.JiraId, int>): (a: LinkAction)
    ensures a.Defer? <==> link.source !in issues || link.destination !in issues
    ensures a.MakeChild? <==> link.source in issues && link.destination in issues && link.linktype == Subtask
    ensures a.MakeChild? ==> a.child == issues[link.destination] && a.parent == issues[link.source]
    ensures a.Relate? ==> a.from == issues[link.source] && a.to == issues[link.destination]
                          && a.relationType == RelationType(link.linktype) && a.relationType in RedmineRelationTypes
  {
    if link.source !in issues || link.destination !in issues then Defer
    else if link.linktype == Subtask then MakeChild(issues[link.destination], issues[link.source])
    else Relate(issues[link.source], issues[link.destination], RelationType(link.linktype))
  }
}
