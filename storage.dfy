/** The importer's SQLite bookkeeping (lib/storage.rb): which Jira projects
    and issues became which Redmine records, and the issue links still to be
    created across projects. The tables are modelled as maps from their
    primary key; every statement the class runs becomes an update of those
    maps. */
module Storage {
  import opened Values
  import Text
  import Redmine
  import Issues

  /** A `project_link` row: the project's lower-case Jira key and its
      Redmine id. */
  datatype ProjectLink = ProjectLink(code: string, redmineId: int)

  /** An `issue_link` row: the Jira project id, the issue key and the
      Redmine id. */
  datatype IssueLink = IssueLink(projectId: string, key: string, redmineId: int)

  /** `status` 0 (still to be created) or 1 (created). */
  datatype Status = Pending | Resolved

  /** An `issue_relation` row. The link type is what the INT column holds. */
  datatype Relation = Relation(source: string, target: string, linktype: Value, status: Status)

  datatype Tables = Tables(projectLinks: map<string, ProjectLink>, issueLinks: map<string, IssueLink>,
                           relations: map<string, Relation>)

  // --------------------------------------------------------- column affinity

  /** A decimal integer literal without leading zeros. */
  predicate Canonical(s: string)
  {
    s != [] && (forall i :: 0 <= i < |s| ==> IsDigit(s[i])) && (|s| == 1 || s[0] != '0')
  }

  /** What the INT column `linktype` keeps of the text it is given: an
      integer when the text is one, the text otherwise. */
  function Affinity(s: string): (v: Value)
    ensures v.Int? <==> Canonical(s)
    ensures !v.Int? ==> v == Str(s)
  {
    if Canonical(s) then Int(ParseNat(s)) else Str(s)
  }

  lemma {:induction false} ParsePositive(s: string)
    requires s != [] && (forall i :: 0 <= i < |s| ==> IsDigit(s[i])) && s[0] != '0'
    ensures ParseNat(s) >= 1
    decreases |s|
  {
    if |s| > 1 {
      ParsePositive(s[..|s| - 1]);
    }
  }

  /** Reading a canonical literal and writing it back gives it again. */
  lemma {:induction false} CanonicalRoundTrip(s: string)
    requires Canonical(s)
    ensures NatToString(ParseNat(s)) == s
    decreases |s|
  {
    if |s| > 1 {
      var p := s[..|s| - 1];
      assert Canonical(p);
      CanonicalRoundTrip(p);
      ParsePositive(p);
      var n := ParseNat(s);
      assert n == 10 * ParseNat(p) + DigitValue(s[|s| - 1]);
      assert n / 10 == ParseNat(p) && n % 10 == DigitValue(s[|s| - 1]);
      assert s == p + [s[|s| - 1]];
    }
  }

  /** The link types the relation drain knows, as integers
      (lib/storage.rb:56-64). */
  const DrainLinkMap: map<int, string> :=
    map[10000 := "duplicates", 10010 := "relates", 10020 := "blocked", 10030 := "copied_from", 10130 := "follows"]

  /** The relation type the drain creates for a stored link type, None when
      its map has no entry (lib/storage.rb:65-70). */
  function DrainType(linktype: Value): (r: Option<string>)
    ensures r.Some? <==> linktype.Int? && linktype.i in DrainLinkMap
    ensures r.Some? ==> r.value == DrainLinkMap[linktype.i]
  {
    if linktype.Int? && linktype.i in DrainLinkMap then Some(DrainLinkMap[linktype.i]) else None
  }

  lemma Literals()
    ensures NatToString(10000) == "10000" && NatToString(10001) == "10001" && NatToString(10010) == "10010"
    ensures NatToString(10020) == "10020" && NatToString(10030) == "10030" && NatToString(10130) == "10130"
  {
    ShortLiterals();
    assert NatToString(10000) == NatToString(1000) + "0";
    assert NatToString(10001) == NatToString(1000) + "1";
    assert NatToString(10010) == NatToString(1001) + "0";
    assert NatToString(10020) == NatToString(1002) + "0";
    assert NatToString(10030) == NatToString(1003) + "0";
    assert NatToString(10130) == NatToString(1013) + "0";
  }

  lemma ShortLiterals()
    ensures NatToString(1000) == "1000" && NatToString(1001) == "1001" && NatToString(1002) == "1002"
    ensures NatToString(1003) == "1003" && NatToString(1013) == "1013"
  {
    assert NatToString(1) == "1";
    assert NatToString(10) == "10";
    assert NatToString(100) == "100" && NatToString(101) == "101";
  }

  /** An id written out as decimal text is stored as that id. */
  lemma AffinityOfNat(n: nat)
    ensures Affinity(NatToString(n)) == Int(n)
  {
    NatToStringRoundTrip(n);
  }

  /** Text stored as an integer is that integer's decimal text. */
  lemma AffinityInt(t: string)
    requires Affinity(t).Int?
    ensures Affinity(t).i >= 0 && t == NatToString(Affinity(t).i)
  {
    CanonicalRoundTrip(t);
  }

  /** A Jira link type stored and read back by the drain passes the drain's
      sub-task test exactly when it passes the importer's. */
  lemma SubtaskAgrees(t: string)
    ensures Affinity(t) == Int(10001) <==> t == Issues.Subtask
  {
    Literals();
    if Affinity(t) == Int(10001) {
      AffinityInt(t);
    }
    if t == Issues.Subtask {
      AffinityOfNat(10001);
    }
  }

  /** The drain's map knows a stored link type exactly when the importer's
      map knows the link type, and maps it to the same relation type. */
  lemma MappedAgrees(t: string)
    ensures DrainType(Affinity(t)).Some? <==> t in Issues.LinkMap
    ensures t in Issues.LinkMap ==> DrainType(Affinity(t)) == Some(Issues.RelationType(t))
  {
    if DrainType(Affinity(t)).Some? {
      DrainedKnown(t);
    }
    if t in Issues.LinkMap {
      KnownDrained(t);
    }
  }

  lemma DrainedKnown(t: string)
    requires DrainType(Affinity(t)).Some?
    ensures t in Issues.LinkMap
  {
    AffinityInt(t);
    Literals();
    var n := Affinity(t).i;
    if n == 10000 {
      assert t == "10000";
    } else if n == 10010 {
      assert t == "10010";
    } else if n == 10020 {
      assert t == "10020";
    } else if n == 10030 {
      assert t == "10030";
    } else {
      assert t == "10130";
    }
  }

  lemma KnownDrained(t: string)
    requires t in Issues.LinkMap
    ensures DrainType(Affinity(t)) == Some(Issues.RelationType(t))
  {
    Literals();
    if t == "10000" {
      KnownDrainedAt(t, 10000);
    } else if t == "10010" {
      KnownDrainedAt(t, 10010);
    } else if t == "10020" {
      KnownDrainedAt(t, 10020);
    } else if t == "10030" {
      KnownDrainedAt(t, 10030);
    } else {
      KnownDrainedAt(t, 10130);
    }
  }

  lemma KnownDrainedAt(t: string, n: nat)
    requires t == NatToString(n) && n in DrainLinkMap && t in Issues.LinkMap && Issues.LinkMap[t] == DrainLinkMap[n]
    ensures DrainType(Affinity(t)) == Some(Issues.RelationType(t))
  {
    AffinityOfNat(n);
  }





  // -------------------------------------------------------------- cleanup

  /** The ids of the `project_link` rows with this code. */
  function ProjectIds(t: Tables, code: string): set<string>
  {
    set p | p in t.projectLinks && t.projectLinks[p].code == code
  }

  /** The ids of the issues of the projects with this code. */
  function IssueIds(t: Tables, code: string): set<string>
  {
    set i | i in t.issueLinks && t.issueLinks[i].projectId in ProjectIds(t, code)
  }

  /** The four statements of `cleanup_project` for one code
      (lib/storage.rb:26-29): relations from the project's issues are
      deleted, relations to them are set back to pending, then the issue and
      project rows go. */
  function CleanupCode(t: Tables, code: string): Tables
  {
    var issues := IssueIds(t, code);
    var kept := map id | id in t.relations && t.relations[id].source !in issues :: t.relations[id];
    Tables(
      map p | p in t.projectLinks && t.projectLinks[p].code != code :: t.projectLinks[p],
      map i | i in t.issueLinks && t.issueLinks[i].projectId !in ProjectIds(t, code) :: t.issueLinks[i],
      map id | id in kept :: if kept[id].target in issues then kept[id].(status := Pending) else kept[id])
  }

  /** `cleanup_project` over the codes, in order. */
  function CleanupAll(t: Tables, codes: seq<string>): Tables
  {
    if codes == [] then t else CleanupCode(CleanupAll(t, codes[..|codes| - 1]), codes[|codes| - 1])
  }

  /** What one code's cleanup leaves: no project with that code, none of
      its issues, no relation from them, every relation to them pending;
      every other row as it was. */
  lemma CleanupCodeEffect(t: Tables, code: string)
    ensures var r := CleanupCode(t, code);
      && (forall p :: p in r.projectLinks ==> r.projectLinks[p].code != code)
      && (forall p :: p in t.projectLinks && t.projectLinks[p].code != code ==> p in r.projectLinks && r.projectLinks[p] == t.projectLinks[p])
      && (forall i :: i in r.issueLinks <==> i in t.issueLinks && i !in IssueIds(t, code))
      && (forall i :: i in r.issueLinks ==> r.issueLinks[i] == t.issueLinks[i])
      && (forall id :: id in r.relations <==> id in t.relations && t.relations[id].source !in IssueIds(t, code))
      && (forall id :: id in r.relations && t.relations[id].target in IssueIds(t, code) ==> r.relations[id] == t.relations[id].(status := Pending))
      && (forall id :: id in r.relations && t.relations[id].target !in IssueIds(t, code) ==> r.relations[id] == t.relations[id])
  {
  }

  /** Cleaning a project twice is cleaning it once. */
  lemma CleanupIdempotent(t: Tables, code: string)
    ensures CleanupCode(CleanupCode(t, code), code) == CleanupCode(t, code)
  {
    var r := CleanupCode(t, code);
    assert ProjectIds(r, code) == {};
    assert IssueIds(r, code) == {};
    var rr := CleanupCode(r, code);
    assert rr.projectLinks == r.projectLinks;
    assert rr.issueLinks == r.issueLinks;
    assert rr.relations == r.relations;
  }

  /** After a cleanup the drain selects no relation touching the cleaned
      project: its issue rows are gone, so the joins drop those rows. */
  lemma CleanupLeavesNothingToDrain(t: Tables, code: string)
    ensures forall id :: id in Selected(CleanupCode(t, code)) ==>
              t.relations[id].source !in IssueIds(t, code) && t.relations[id].target !in IssueIds(t, code)
  {
  }

  // ----------------------------------------------------------------- drain

  /** The rows the drain reads (lib/storage.rb:47): pending relations whose
      two issues both have an `issue_link` row. */
  function Selected(t: Tables): set<string>
  {
    set id | id in t.relations && t.relations[id].status == Pending
             && t.relations[id].source in t.issueLinks && t.relations[id].target in t.issueLinks
  }

  /** The call the drain makes for a selected row (lib/storage.rb:51-73):
      the target gets the source as parent for a sub-task row, the relation
      is asked for when the type is mapped, and no call is made for any
      other type, since the run ends on that row. */
  function RowCall(t: Tables, id: string): (c: Option<Redmine.Call>)
    requires id in Selected(t)
    ensures c.None? <==> t.relations[id].linktype != Int(10001) && DrainType(t.relations[id].linktype).None?
  {
    var r := t.relations[id];
    var source := t.issueLinks[r.source].redmineId;
    var target := t.issueLinks[r.target].redmineId;
    if r.linktype == Int(10001) then Some(Redmine.SetParent(target, source))
    else if DrainType(r.linktype).Some? then Some(Redmine.CreateRelation(source, target, DrainType(r.linktype).value))
    else None
  }

  /** Whether the run goes on past a row that answered `reply`: the row has
      a call, and it is not a parent setting that raised (the relation call
      alone is rescued). */
  predicate Continues(t: Tables, id: string, reply: Redmine.Reply)
    requires id in Selected(t)
  {
    RowCall(t, id).Some? && !(t.relations[id].linktype == Int(10001) && reply.Raised?)
  }

  /** The row as the drain leaves it after its call answered `reply`:
      created when it is a relation row that Redmine created, as it was
      otherwise. */
  function Settled(t: Tables, id: string, reply: Redmine.Reply): Relation
    requires id in t.relations
  {
    if DrainType(t.relations[id].linktype).Some? && reply.Created? then t.relations[id].(status := Resolved)
    else t.relations[id]
  }

  /** The relations after the first `|sent|` rows of `order` were settled,
      one after the other, by the replies in `sent`. */
  function SettleAll(t0: Tables, order: seq<string>, sent: seq<Redmine.Exchange>): map<string, Relation>
    requires |sent| <= |order| && forall k :: 0 <= k < |sent| ==> order[k] in t0.relations
    decreases |sent|
  {
    if sent == [] then t0.relations
    else
      var k := |sent| - 1;
      SettleAll(t0, order, sent[..k])[order[k] := Settled(t0, order[k], sent[k].reply)]
  }

  /** Settling depends only on the rows that were answered. */
  lemma {:induction false} SettleAllPrefix(t0: Tables, order: seq<string>, more: seq<string>, sent: seq<Redmine.Exchange>)
    requires |sent| <= |order| && forall k :: 0 <= k < |sent| ==> order[k] in t0.relations
    ensures SettleAll(t0, order + more, sent) == SettleAll(t0, order, sent)
    decreases |sent|
  {
    if sent != [] {
      SettleAllPrefix(t0, order, more, sent[..|sent| - 1]);
    }
  }

  /** What settling distinct rows does: the same relations, each answered
      row settled by its own reply, every other row as it was. */
  lemma {:induction false} SettleAllEffect(t0: Tables, order: seq<string>, sent: seq<Redmine.Exchange>)
    requires |sent| <= |order| && forall k :: 0 <= k < |sent| ==> order[k] in t0.relations
    requires forall j, k :: 0 <= j < k < |sent| ==> order[j] != order[k]
    ensures SettleAll(t0, order, sent).Keys == t0.relations.Keys
    ensures forall k :: 0 <= k < |sent| ==> SettleAll(t0, order, sent)[order[k]] == Settled(t0, order[k], sent[k].reply)
    ensures forall id :: id in t0.relations && id !in order[..|sent|] ==> SettleAll(t0, order, sent)[id] == t0.relations[id]
    decreases |sent|
  {
    if sent != [] {
      var n := |sent| - 1;
      SettleAllEffect(t0, order, sent[..n]);
      assert order[..|sent|] == order[..n] + [order[n]];
    }
  }

  /** A drain from tables `t0` that reached the rows `order`, in that
      order, and made the exchanges `sent`: each row reached is a distinct
      selected row; the k-th exchange is the k-th row's call; every row but
      the last let the run go on, and a last row without an exchange has no
      call; the relations are those rows settled by their replies. */
  predicate Attempted(t0: Tables, order: seq<string>, sent: seq<Redmine.Exchange>, rel: map<string, Relation>)
  {
    && (forall k :: 0 <= k < |order| ==> order[k] in Selected(t0))
    && (forall j, k :: 0 <= j < k < |order| ==> order[j] != order[k])
    && |sent| <= |order| <= |sent| + 1
    && (forall k :: 0 <= k < |sent| ==> RowCall(t0, order[k]) == Some(sent[k].call))
    && (forall k :: 0 <= k < |order| - 1 ==> Continues(t0, order[k], sent[k].reply))
    && (|order| == |sent| + 1 ==> RowCall(t0, order[|order| - 1]).None?)
    && rel == SettleAll(t0, order, sent)
  }

  /** The last row reached let the run go on (vacuously so for none). */
  predicate GoesOn(t0: Tables, order: seq<string>, sent: seq<Redmine.Exchange>)
    requires forall k :: 0 <= k < |order| ==> order[k] in Selected(t0)
  {
    |order| == |sent| && (|order| == 0 || Continues(t0, order[|order| - 1], sent[|order| - 1].reply))
  }

  /** A whole drain: `completed` exactly when every selected row was
      reached and each let the run go on; otherwise the run ended on the
      last row reached, because it has no call or its parent setting
      raised. */
  predicate DrainedBy(t0: Tables, order: seq<string>, sent: seq<Redmine.Exchange>, rel: map<string, Relation>, completed: bool)
  {
    && Attempted(t0, order, sent, rel)
    && (completed ==> GoesOn(t0, order, sent) && forall id :: id in Selected(t0) ==> id in order)
    && (!completed ==> |order| > 0 && !GoesOn(t0, order, sent))
  }

  /** Reaching one more selected row, whose call answered `e`. */
  lemma AttemptedCall(t0: Tables, order: seq<string>, sent: seq<Redmine.Exchange>, rel: map<string, Relation>,
                      id: string, e: Redmine.Exchange)
    requires Attempted(t0, order, sent, rel) && GoesOn(t0, order, sent)
    requires id in Selected(t0) && id !in order && RowCall(t0, id) == Some(e.call)
    ensures Attempted(t0, order + [id], sent + [e], rel[id := Settled(t0, id, e.reply)])
  {
    SettleAllPrefix(t0, order, [id], sent);
    assert (sent + [e])[..|sent|] == sent;
  }

  /** Reaching one more selected row, which has no call. */
  lemma AttemptedNoCall(t0: Tables, order: seq<string>, sent: seq<Redmine.Exchange>, rel: map<string, Relation>, id: string)
    requires Attempted(t0, order, sent, rel) && GoesOn(t0, order, sent)
    requires id in Selected(t0) && id !in order && RowCall(t0, id).None?
    ensures Attempted(t0, order + [id], sent, rel)
  {
    SettleAllPrefix(t0, order, [id], sent);
  }

  /** A row the drain has not reached yet has the same call, continuation
      and settlement in the tables as they are now as in the tables it
      started from. */
  lemma Unreached(t0: Tables, order: seq<string>, sent: seq<Redmine.Exchange>, t: Tables, id: string)
    requires Attempted(t0, order, sent, t.relations) && t.issueLinks == t0.issueLinks
    requires id in Selected(t0) && id !in order
    ensures id in Selected(t) && RowCall(t, id) == RowCall(t0, id)
    ensures forall reply :: Continues(t, id, reply) == Continues(t0, id, reply) && Settled(t, id, reply) == Settled(t0, id, reply)
  {
    SettleAllEffect(t0, order, sent);
    assert id !in order[..|sent|];
  }

  /** One row of the drain, reached from tables `t` and answered `reply`,
      extends the drain by that row. */
  lemma DrainStep(t0: Tables, order: seq<string>, sent: seq<Redmine.Exchange>, t: Tables, id: string,
                  ok: bool, reply: Redmine.Reply, sent': seq<Redmine.Exchange>, rel': map<string, Relation>)
    requires Attempted(t0, order, sent, t.relations) && GoesOn(t0, order, sent) && t.issueLinks == t0.issueLinks
    requires id in Selected(t0) && id !in order
    requires id in Selected(t) && RowCall(t, id) == RowCall(t0, id)
    requires forall reply :: Continues(t, id, reply) == Continues(t0, id, reply) && Settled(t, id, reply) == Settled(t0, id, reply)
    requires RowCall(t, id).None? ==> !ok && sent' == sent && rel' == t.relations
    requires RowCall(t, id).Some? ==>
               sent' == sent + [Redmine.Exchange(RowCall(t, id).value, reply)]
               && rel' == t.relations[id := Settled(t, id, reply)] && ok == Continues(t, id, reply)
    ensures Attempted(t0, order + [id], sent', rel') && ok == GoesOn(t0, order + [id], sent')
  {
    if RowCall(t0, id).Some? {
      AttemptedCall(t0, order, sent, t.relations, id, Redmine.Exchange(RowCall(t, id).value, reply));
    } else {
      AttemptedNoCall(t0, order, sent, t.relations, id);
    }
  }

  /** A drain loop that stops, with every selected row reached or the run
      ended, is a whole drain. */
  lemma DrainEnds(t0: Tables, order: seq<string>, sent: seq<Redmine.Exchange>, rel: map<string, Relation>,
                  todo: set<string>, completed: bool)
    requires Attempted(t0, order, sent, rel) && completed == GoesOn(t0, order, sent)
    requires forall id :: id in todo <==> id in Selected(t0) && id !in order
    requires todo == {} || !completed
    ensures DrainedBy(t0, order, sent, rel, completed)
  {
    if completed {
      forall id | id in Selected(t0)
        ensures id in order
      {
        assert id !in todo;
      }
    }
  }

  /** A drain never reopens a relation and never changes anything but its
      status; a row that was already created is not reached. */
  lemma DrainedMonotone(t0: Tables, order: seq<string>, sent: seq<Redmine.Exchange>, rel: map<string, Relation>,
                        completed: bool, id: string)
    requires DrainedBy(t0, order, sent, rel, completed) && id in t0.relations
    ensures id in rel
    ensures t0.relations[id].status == Resolved ==> id !in order && rel[id] == t0.relations[id]
    ensures rel[id].(status := t0.relations[id].status) == t0.relations[id]
  {
    SettleAllEffect(t0, order, sent);
    if id in order[..|sent|] {
      var k :| 0 <= k < |sent| && order[..|sent|][k] == id;
      assert order[k] == id;
    }
  }

  /** What a drain that got through leaves to a later run: no new row, and
      of the rows it reached, exactly the sub-task rows and the relation rows
      whose relation Redmine did not create. */
  lemma CompletedDrainLeaves(t0: Tables, order: seq<string>, sent: seq<Redmine.Exchange>, rel: map<string, Relation>)
    requires DrainedBy(t0, order, sent, rel, true)
    ensures Selected(t0.(relations := rel)) <= Selected(t0)
    ensures |sent| == |order|
    ensures forall k :: 0 <= k < |order| ==>
              (order[k] in Selected(t0.(relations := rel)) <==> t0.relations[order[k]].linktype == Int(10001) || !sent[k].reply.Created?)
  {
    var t := t0.(relations := rel);
    SettleAllEffect(t0, order, sent);
    forall id | id in Selected(t)
      ensures id in Selected(t0)
    {
      DrainedMonotone(t0, order, sent, rel, true, id);
    }
    forall k | 0 <= k < |order|
      ensures order[k] in Selected(t) <==> t0.relations[order[k]].linktype == Int(10001) || !sent[k].reply.Created?
    {
      if k < |order| - 1 {
        assert Continues(t0, order[k], sent[k].reply);
      }
      assert RowCall(t0, order[k]).Some?;
    }
  }

  class Storage {
    var projectLinks: map<string, ProjectLink>
    var issueLinks: map<string, IssueLink>
    var relations: map<string, Relation>

    function Snapshot(): Tables
      reads this
    {
      Tables(projectLinks, issueLinks, relations)
    }

    /** Opens the database: the three tables, empty when new. */
    constructor (t: Tables)
      ensures Snapshot() == t
    {
      projectLinks, issueLinks, relations := t.projectLinks, t.issueLinks, t.relations;
    }

    /** `update_project_link` (lib/storage.rb:13-16): insert or overwrite. */
    method UpdateProjectLink(id: string, code: string, redmineId: int)
      modifies this`projectLinks
      ensures projectLinks == old(projectLinks)[id := ProjectLink(code, redmineId)]
    {
      projectLinks := projectLinks[id := ProjectLink(code, redmineId)];
    }

    /** `update_issue_link` (lib/storage.rb:18-21): insert or overwrite. */
    method UpdateIssueLink(id: string, projectId: string, key: string, redmineId: int)
      modifies this`issueLinks
      ensures issueLinks == old(issueLinks)[id := IssueLink(projectId, key, redmineId)]
    {
      issueLinks := issueLinks[id := IssueLink(projectId, key, redmineId)];
    }

    /** `update_issue_relation` (lib/storage.rb:33-36): insert or overwrite,
        status included, so a created relation stored again is pending
        again. */
    method UpdateIssueRelation(id: string, source: string, target: string, linktype: string, status: Status)
      modifies this`relations
      ensures relations == old(relations)[id := Relation(source, target, Affinity(linktype), status)]
    {
      relations := relations[id := Relation(source, target, Affinity(linktype), status)];
    }

    /** `cleanup_project` (lib/storage.rb:23-31): the four statements for
        each code of the comma-separated list. */
    method CleanupProject(codes: string)
      modifies this
      ensures Snapshot() == CleanupAll(old(Snapshot()), Text.SplitComma(codes))
    {
      var fields := Text.SplitComma(codes);
      for k := 0 to |fields|
        invariant Snapshot() == CleanupAll(old(Snapshot()), fields[..k])
      {
        assert fields[..k + 1][..k] == fields[..k];
        var code := fields[k];
        ghost var t := Snapshot();
        var issues := IssueIds(Snapshot(), code);
        relations := map id | id in relations && relations[id].source !in issues :: relations[id];
        relations := map id | id in relations :: if relations[id].target in issues then relations[id].(status := Pending) else relations[id];
        var projects := ProjectIds(Snapshot(), code);
        issueLinks := map i | i in issueLinks && issueLinks[i].projectId !in projects :: issueLinks[i];
        projectLinks := map p | p in projectLinks && projectLinks[p].code != code :: projectLinks[p];
        assert Snapshot() == CleanupCode(t, code);
      }
      assert fields[..|fields|] == fields;
    }

    /** `update_relations` (lib/storage.rb:38-81), in the order the rows
        come, returned as `order`: a sub-task row sets the parent and stays
        pending, and a failed call ends the run; a row with a mapped type
        asks for the relation and is marked created when the call answers,
        a failed call being skipped; a row of any other type ends the run,
        since the message for it names a variable that does not exist
        there. `completed` is whether the run got through every row. */
    method UpdateRelations(api: Redmine.Connector) returns (completed: bool, ghost order: seq<string>)
      modifies this`relations, api`log
      ensures |api.log| >= |old(api.log)| && api.log[..|old(api.log)|] == old(api.log)
      ensures DrainedBy(old(Snapshot()), order, api.log[|old(api.log)|..], relations, completed)
    {
      var todo := Selected(Snapshot());
      ghost var t0 := Snapshot();
      ghost var log0 := api.log;
      ghost var sent: seq<Redmine.Exchange> := [];
      completed := true;
      order := [];
      while todo != {} && completed
        invariant issueLinks == t0.issueLinks
        invariant api.log == log0 + sent
        invariant Attempted(t0, order, sent, relations)
        invariant forall id :: id in todo <==> id in Selected(t0) && id !in order
        invariant completed == GoesOn(t0, order, sent)
        decreases |todo|
      {
        var id :| id in todo;
        todo := todo - {id};
        ghost var sent';
        completed, sent' := DrainNext(api, id, t0, log0, order, sent);
        order, sent := order + [id], sent';
      }
      assert api.log[|log0|..] == sent;
      DrainEnds(t0, order, sent, relations, todo, completed);
    }

    /** One turn of the drain loop: the row `id`, not reached yet, is
        drained and the drain so far extended by it. */
    method DrainNext(api: Redmine.Connector, id: string, ghost t0: Tables, ghost log0: seq<Redmine.Exchange>,
                     ghost order: seq<string>, ghost sent: seq<Redmine.Exchange>) returns (ok: bool, ghost sent': seq<Redmine.Exchange>)
      requires issueLinks == t0.issueLinks && api.log == log0 + sent
      requires Attempted(t0, order, sent, relations) && GoesOn(t0, order, sent)
      requires id in Selected(t0) && id !in order
      modifies this`relations, api`log
      ensures api.log == log0 + sent'
      ensures Attempted(t0, order + [id], sent', relations) && ok == GoesOn(t0, order + [id], sent')
    {
      ghost var t := Snapshot();
      Unreached(t0, order, sent, t, id);
      ghost var reply;
      ok, reply := DrainRow(api, id);
      sent' := sent;
      if RowCall(t, id).Some? {
        var e := Redmine.Exchange(RowCall(t, id).value, reply);
        sent' := sent + [e];
        assert log0 + sent' == (log0 + sent) + [e];
      }
      DrainStep(t0, order, sent, t, id, ok, reply, sent', relations);
    }

    /** One row of the drain: its call, if it has one, and the row settled
        by the reply; false when the run ends there. */
    method DrainRow(api: Redmine.Connector, id: string) returns (ok: bool, ghost reply: Redmine.Reply)
      requires id in Selected(Snapshot())
      modifies this`relations, api`log
      ensures RowCall(old(Snapshot()), id).None? ==> !ok && api.log == old(api.log) && relations == old(relations)
      ensures RowCall(old(Snapshot()), id).Some? ==>
                && api.log == old(api.log) + [Redmine.Exchange(RowCall(old(Snapshot()), id).value, reply)]
                && relations == old(relations)[id := Settled(old(Snapshot()), id, reply)]
                && ok == Continues(old(Snapshot()), id, reply)
    {
      var row := relations[id];
      if row.linktype == Int(10001) {
        ok := DrainSubtask(api, id);
        reply := if ok then Redmine.Done else Redmine.Raised;
        assert relations == relations[id := Settled(Snapshot(), id, reply)];
      } else if DrainType(row.linktype).Some? {
        reply := DrainRelation(api, id);
        ok := true;
      } else {
        ok, reply := false, Redmine.Raised;
      }
    }

    /** A sub-task row (lib/storage.rb:52-54): the target issue gets the
        source as its parent; false when the update raised, which nothing
        rescues. */
    method DrainSubtask(api: Redmine.Connector, id: string) returns (ok: bool)
      requires id in Selected(Snapshot())
      modifies api`log
      ensures api.log == old(api.log) + [Redmine.Exchange(
                Redmine.SetParent(issueLinks[relations[id].target].redmineId, issueLinks[relations[id].source].redmineId),
                if ok then Redmine.Done else Redmine.Raised)]
    {
      var row := relations[id];
      var source := issueLinks[row.source].redmineId;
      var target := issueLinks[row.target].redmineId;
      ok := api.Update(Redmine.SetParent(target, source));
    }

    /** A row of a mapped type (lib/storage.rb:56-78): the relation is asked
        for, and the row is marked created when Redmine created it; a
        raised call is rescued and leaves the row pending. */
    method DrainRelation(api: Redmine.Connector, id: string) returns (ghost reply: Redmine.Reply)
      requires id in Selected(Snapshot()) && DrainType(relations[id].linktype).Some?
      modifies this`relations, api`log
      ensures api.log == old(api.log) + [Redmine.Exchange(
                Redmine.CreateRelation(issueLinks[old(relations)[id].source].redmineId, issueLinks[old(relations)[id].target].redmineId,
                                       DrainType(old(relations)[id].linktype).value),
                reply)]
      ensures relations == old(relations)[id := if reply.Created? then old(relations)[id].(status := Resolved) else old(relations)[id]]
    {
      var row := relations[id];
      var source := issueLinks[row.source].redmineId;
      var target := issueLinks[row.target].redmineId;
      var created := api.Create(Redmine.CreateRelation(source, target, DrainType(row.linktype).value));
      reply := if created.Some? then Redmine.Created(created.value) else Redmine.Raised;
      if created.Some? {
        relations := relations[id := row.(status := Resolved)];
      }
    }
  }
}
