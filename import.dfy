/** The importer (lib/import.rb): its configuration, the bindings it builds
    phase by phase between Jira and Redmine ids, and the running modes that
    decide which phases run. Loading the XML export is not modelled: the
    object receives the loaded `Jira.Dataset`. */
module Migration {
  import opened Values
  import Text
  import Jira
  import Redmine
  import Taxonomy
  import Users
  import Issues
  import Patch
  import MysqlBuilder
  import Storage
  import Emit

  /** The settings the importer reads from its configuration file. */
  datatype Config = Config(
    mode: int, projectToImport: string, defaultUserRole: string,
    statusAliases: map<string, string>, trackerAliases: map<string, string>, priorityAliases: map<string, string>,
    customFields: seq<Taxonomy.FieldEntry>, mailPostfix: string, internalPostfix: string,
    anonymousUserId: Value, attachmentsRoot: string)

  /** The keys of a Hash. */
  function Ids<T>(t: Jira.Table<T>): set<Jira.JiraId>
  {
    set i | 0 <= i < |t| :: t[i].0
  }

  /** A Hash whose rows were rewritten in place. */
  function Rewrite<T>(t: Jira.Table<T>, r: seq<T>): Jira.Table<T>
    requires |r| == |t|
  {
    seq(|t|, i requires 0 <= i < |t| => (t[i].0, r[i]))
  }

  /** The exchanges made since the log had `n` entries. */
  function Since(log: seq<Redmine.Exchange>, n: nat): seq<Redmine.Exchange>
  {
    if n <= |log| then log[n..] else []
  }

  /** The last exchange raised: the run stops with that error. */
  predicate Aborted(sent: seq<Redmine.Exchange>)
  {
    |sent| > 0 && sent[|sent| - 1].reply == Redmine.Raised
  }

  /** The calls of a log, whatever their replies. */
  function Calls(log: seq<Redmine.Exchange>): set<Redmine.Call>
  {
    set e | e in log :: e.call
  }

  // ------------------------------------------------------------------ users

  /** One prepared user `p`, loaded under `id`, is migrated: an existing
      account with its login is reused (and, in modes 2 and 3, has its status
      updated); otherwise the account was created with the prepared values
      and the id Redmine gave it is bound (lib/import.rb:281-292). */
  predicate UserMigrated(sent: seq<Redmine.Exchange>, binding: map<Jira.JiraId, int>, redmineUsers: seq<Redmine.User>,
                         mode: int, id: Jira.JiraId, p: Jira.User)
  {
    && id in binding
    && match Users.ExistingUser(redmineUsers, p.login)
       case Some(existing) =>
         && binding[id] == existing.id
         && (2 <= mode <= 3 ==> Redmine.Exchange(Redmine.UpdateUserStatus(existing.id, p.status), Redmine.Done) in sent)
       case None =>
         Redmine.Exchange(Redmine.CreateUser(p.login, p.mail, p.firstname, p.lastname, p.status), Redmine.Created(binding[id])) in sent
  }

  /** The calls `migrate_users` makes. */
  predicate UserCalls(sent: seq<Redmine.Exchange>)
  {
    forall e :: e in sent ==> e.call.CreateUser? || e.call.UpdateUserStatus?
  }

  /** The first `n` loaded users are migrated, as `done` prepared them. */
  predicate UsersMigrated(sent: seq<Redmine.Exchange>, binding: map<Jira.JiraId, int>, redmineUsers: seq<Redmine.User>,
                          mode: int, loaded: Jira.Table<Jira.User>, done: seq<Jira.User>, n: nat)
    requires n <= |loaded| && |done| == n
  {
    && binding.Keys == Ids(loaded[..n])
    && forall j :: 0 <= j < n ==> UserMigrated(sent, binding, redmineUsers, mode, loaded[j].0, done[j])
  }

  /** A migrated user stays migrated when more calls are made and other ids
      are bound. */
  lemma UserMigratedKept(sent: seq<Redmine.Exchange>, more: seq<Redmine.Exchange>, binding: map<Jira.JiraId, int>,
                         binding': map<Jira.JiraId, int>, redmineUsers: seq<Redmine.User>, mode: int, id: Jira.JiraId, p: Jira.User)
    requires UserMigrated(sent, binding, redmineUsers, mode, id, p)
    requires id in binding' && binding'[id] == binding[id]
    ensures UserMigrated(sent + more, binding', redmineUsers, mode, id, p)
  {
  }

  /** One more user migrated under a fresh key keeps the earlier ones
      migrated. */
  lemma {:induction false} UsersMigratedStep(sent: seq<Redmine.Exchange>, more: seq<Redmine.Exchange>, binding: map<Jira.JiraId, int>,
                                             binding': map<Jira.JiraId, int>, redmineUsers: seq<Redmine.User>, mode: int,
                                             loaded: Jira.Table<Jira.User>, done: seq<Jira.User>, p: Jira.User)
    requires |done| < |loaded| && Jira.Keyed(loaded)
    requires UsersMigrated(sent, binding, redmineUsers, mode, loaded, done, |done|)
    requires UserMigrated(more, binding', redmineUsers, mode, loaded[|done|].0, p)
    requires binding'.Keys == binding.Keys + {loaded[|done|].0}
    requires forall k :: k in binding && k != loaded[|done|].0 ==> binding'[k] == binding[k]
    ensures UsersMigrated(sent + more, binding', redmineUsers, mode, loaded, done + [p], |done| + 1)
  {
    var n := |done|;
    var done' := done + [p];
    forall j | 0 <= j < n + 1
      ensures UserMigrated(sent + more, binding', redmineUsers, mode, loaded[j].0, done'[j])
    {
      if j < n {
        assert loaded[j].0 != loaded[n].0;
        UserMigratedKept(sent, more, binding, binding', redmineUsers, mode, loaded[j].0, done[j]);
      } else {
        UserMigratedMore(sent, more, binding', redmineUsers, mode, loaded[n].0, p);
      }
    }
    IdsSnoc(loaded, n);
  }

  lemma UserMigratedMore(sent: seq<Redmine.Exchange>, more: seq<Redmine.Exchange>, binding: map<Jira.JiraId, int>,
                         redmineUsers: seq<Redmine.User>, mode: int, id: Jira.JiraId, p: Jira.User)
    requires UserMigrated(more, binding, redmineUsers, mode, id, p)
    ensures UserMigrated(sent + more, binding, redmineUsers, mode, id, p)
  {
  }

  /** Migrated users stay migrated when more calls are made. */
  lemma UsersKept(sent: seq<Redmine.Exchange>, more: seq<Redmine.Exchange>, binding: map<Jira.JiraId, int>,
                  redmineUsers: seq<Redmine.User>, mode: int, users: Jira.Table<Jira.User>)
    requires forall i :: 0 <= i < |users| ==> UserMigrated(sent, binding, redmineUsers, mode, users[i].0, users[i].1)
    ensures forall i :: 0 <= i < |users| ==> UserMigrated(sent + more, binding, redmineUsers, mode, users[i].0, users[i].1)
  {
    forall i | 0 <= i < |users| ensures UserMigrated(sent + more, binding, redmineUsers, mode, users[i].0, users[i].1) {
      UserMigratedKept(sent, more, binding, binding, redmineUsers, mode, users[i].0, users[i].1);
    }
  }

  lemma IdsSnoc<T>(t: Jira.Table<T>, n: nat)
    requires n < |t|
    ensures Ids(t[..n + 1]) == Ids(t[..n]) + {t[n].0}
  {
    assert t[..n + 1][n] == t[n];
    forall id | id in Ids(t[..n + 1])
      ensures id in Ids(t[..n]) + {t[n].0}
    {
      var i :| 0 <= i < n + 1 && t[..n + 1][i].0 == id;
      if i < n {
        assert t[..n][i] == t[i];
      }
    }
    forall id | id in Ids(t[..n])
      ensures id in Ids(t[..n + 1])
    {
      var i :| 0 <= i < n && t[..n][i].0 == id;
      assert t[..n + 1][i] == t[i];
    }
  }

  /** Preparing one more user extends the prepared prefix. */
  lemma PrepareAllStep(rows: seq<Jira.User>, redmineUsers: seq<Redmine.User>, mode: int, postfix: string, tokens: seq<string>, i: nat)
    requires i < |rows| == |tokens|
    ensures Users.PrepareAll(rows[..i + 1], redmineUsers, mode, postfix, tokens[..i + 1])
         == Users.PrepareAll(rows[..i], redmineUsers, mode, postfix, tokens[..i])
            + [Users.Prepare(rows[i], redmineUsers, Users.Mails(Users.PrepareAll(rows[..i], redmineUsers, mode, postfix, tokens[..i])),
                             mode, postfix, tokens[i])]
  {
    assert rows[..i + 1][..i] == rows[..i] && tokens[..i + 1][..i] == tokens[..i];
  }

  /** A log that grew twice: what was sent since `log0` is what was sent up
      to `mid` followed by what was sent since. */
  lemma LogGrows(log0: seq<Redmine.Exchange>, mid: seq<Redmine.Exchange>, log: seq<Redmine.Exchange>)
    requires |log0| <= |mid| <= |log| && mid[..|log0|] == log0 && log[..|mid|] == mid
    ensures log[..|log0|] == log0
    ensures log[|log0|..] == mid[|log0|..] + log[|mid|..]
  {
    assert log[..|log0|] == log[..|mid|][..|log0|];
  }

  /** Appending to a log is associative. */
  lemma AppendAssoc(a: seq<Redmine.Exchange>, b: seq<Redmine.Exchange>, c: seq<Redmine.Exchange>)
    ensures a + b + c == a + (b + c)
    ensures |a + b + c| >= |a| && (a + b + c)[..|a|] == a && (a + b + c)[|a|..] == b + c
  {
  }

  /** The next user is prepared against the mails of those before it. */
  lemma PreparedNext(rows: seq<Jira.User>, redmineUsers: seq<Redmine.User>, mode: int, postfix: string, tokens: seq<string>,
                     expected: seq<Jira.User>, done: seq<Jira.User>, i: nat)
    requires i < |rows| == |tokens| && expected == Users.PrepareAll(rows, redmineUsers, mode, postfix, tokens)
    requires done == expected[..i]
    ensures Users.Prepare(rows[i], redmineUsers, Users.Mails(done), mode, postfix, tokens[i]) == expected[i]
  {
    Users.PrepareAllAt(rows, redmineUsers, mode, postfix, tokens, i);
    Users.PrepareAllPrefix(rows, redmineUsers, mode, postfix, tokens, i);
  }

  /** What was sent before stays sent; a raise at the end ends the run. */
  lemma SentAfter(sent: seq<Redmine.Exchange>, more: seq<Redmine.Exchange>)
    ensures UserCalls(sent) && UserCalls(more) ==> UserCalls(sent + more)
    ensures ProjectCalls(sent) && ProjectCalls(more) ==> ProjectCalls(sent + more)
    ensures IssueCalls(sent) && IssueCalls(more) ==> IssueCalls(sent + more)
    ensures Aborted(more) ==> Aborted(sent + more)
  {
  }

  lemma SnocSlice<T>(s: seq<T>, i: nat)
    requires i < |s|
    ensures s[..i + 1] == s[..i] + [s[i]]
  {
  }

  // --------------------------------------------------------------- projects

  /** `redmine_projects.select { |v| v[:identifier] == identifier }.first`. */
  function FindProject(projects: seq<Redmine.Project>, identifier: string): (r: Option<Redmine.Project>)
    ensures r.Some? ==> r.value in projects && r.value.identifier == identifier
    ensures r.None? <==> forall j :: 0 <= j < |projects| ==> projects[j].identifier != identifier
    ensures r.Some? ==> exists j :: 0 <= j < |projects| && projects[j] == r.value
                                  && forall i :: 0 <= i < j ==> projects[i].identifier != identifier
  {
    if projects == [] then None
    else if projects[0].identifier == identifier then Some(projects[0])
    else
      var r := FindProject(projects[1..], identifier);
      if r.Some? then
        ghost var j :| 0 <= j < |projects[1..]| && projects[1..][j] == r.value
                      && forall i :: 0 <= i < j ==> projects[1..][i].identifier != identifier;
        assert projects[j + 1] == r.value;
        r
      else r
  }

  /** A Jira project's Redmine project is `rid`: the existing project whose
      identifier is the lowered key, or else the one created with its name,
      lowered key and description (lib/import.rb:303-310). */
  predicate MainMigrated(sent: seq<Redmine.Exchange>, redmineProjects: seq<Redmine.Project>, info: Jira.Project, rid: int)
  {
    match FindProject(redmineProjects, Text.Lower(info.key))
    case Some(existing) => rid == existing.id
    case None =>
      Redmine.Exchange(Redmine.CreateProject(info.name, Text.Lower(info.key), info.description), Redmine.Created(rid)) in sent
  }

  /** With a postfix configured, its internal subproject is `rint`: the
      existing project whose identifier is the lowered key and postfix, or
      else the one created under `rid`, named with " (internal)"
      (lib/import.rb:311-323). */
  predicate InternalMigrated(sent: seq<Redmine.Exchange>, redmineProjects: seq<Redmine.Project>, info: Jira.Project,
                             postfix: string, rid: int, rint: int)
  {
    postfix != "" ==>
      match FindProject(redmineProjects, Text.Lower(info.key + postfix))
      case Some(existing) => rint == existing.id
      case None =>
        Redmine.Exchange(Redmine.CreateSubproject(info.name + " (internal)", Text.Lower(info.key + postfix), info.description, rid),
                         Redmine.Created(rint)) in sent
  }

  /** A version of the project `rid` was created and its id bound
      (lib/import.rb:331-338). */
  predicate VersionMigrated(sent: seq<Redmine.Exchange>, binding: map<Jira.JiraId, int>, key: Jira.JiraId, v: Jira.Version, rid: int)
  {
    key in binding && Redmine.Exchange(Redmine.CreateVersion(Some(rid), v.name, v.description), Redmine.Created(binding[key])) in sent
  }

  /** The calls `migrate_projects` makes. */
  predicate ProjectCalls(sent: seq<Redmine.Exchange>)
  {
    forall e :: e in sent ==> e.call.CreateProject? || e.call.CreateSubproject? || e.call.CreateVersion?
  }

  /** No project id is another's id followed by the postfix, so the keys
      `projects_binding` receives never collide. */
  predicate NoClash(projects: Jira.Table<Jira.Project>, postfix: string)
  {
    postfix != "" ==> forall i, j :: 0 <= i < |projects| && 0 <= j < |projects| ==> projects[i].0 != projects[j].0 + postfix
  }

  /** The first `n` projects have their link rows and Redmine projects. */
  predicate LinksMigrated(sent: seq<Redmine.Exchange>, links: map<string, Storage.ProjectLink>, redmineProjects: seq<Redmine.Project>,
                          postfix: string, projects: Jira.Table<Jira.Project>, internals: seq<int>, n: nat)
    requires n <= |projects| && |internals| == n
  {
    forall i :: 0 <= i < n ==>
      && projects[i].0 in links && links[projects[i].0].code == Text.Lower(projects[i].1.key)
      && MainMigrated(sent, redmineProjects, projects[i].1, links[projects[i].0].redmineId)
      && InternalMigrated(sent, redmineProjects, projects[i].1, postfix, links[projects[i].0].redmineId, internals[i])
  }

  /** Without clashing keys, `projects_binding` holds the first `n`
      projects and their internal subprojects. */
  predicate BindingMigrated(links: map<string, Storage.ProjectLink>, binding: map<string, int>, postfix: string,
                            projects: Jira.Table<Jira.Project>, internals: seq<int>, n: nat)
    requires n <= |projects| && |internals| == n
  {
    NoClash(projects, postfix) ==> forall i :: 0 <= i < n ==>
      && projects[i].0 in binding && projects[i].0 in links && binding[projects[i].0] == links[projects[i].0].redmineId
      && (postfix != "" ==> projects[i].0 + postfix in binding && binding[projects[i].0 + postfix] == internals[i])
  }

  /** The versions of the first `n` projects are migrated. */
  predicate VersionsMigrated(sent: seq<Redmine.Exchange>, links: map<string, Storage.ProjectLink>, versionsBinding: map<Jira.JiraId, int>,
                             projects: Jira.Table<Jira.Project>, versions: Jira.Table<Jira.Version>, n: nat)
    requires n <= |projects|
  {
    forall j :: 0 <= j < |versions| && versions[j].1.project in Ids(projects[..n]) ==>
      && versions[j].1.project in links
      && VersionMigrated(sent, versionsBinding, versions[j].0, versions[j].1, links[versions[j].1.project].redmineId)
  }

  /** The first `n` projects, with their internal subprojects and
      versions, are migrated; `internals` are the internal subprojects. */
  predicate ProjectsMigrated(sent: seq<Redmine.Exchange>, links: map<string, Storage.ProjectLink>, binding: map<string, int>,
                             versionsBinding: map<Jira.JiraId, int>, redmineProjects: seq<Redmine.Project>, postfix: string,
                             projects: Jira.Table<Jira.Project>, versions: Jira.Table<Jira.Version>, internals: seq<int>, n: nat)
    requires n <= |projects| && |internals| == n
  {
    && LinksMigrated(sent, links, redmineProjects, postfix, projects, internals, n)
    && BindingMigrated(links, binding, postfix, projects, internals, n)
    && VersionsMigrated(sent, links, versionsBinding, projects, versions, n)
    && versionsBinding.Keys == VersionKeysIn(versions, Ids(projects[..n]))
  }

  /** The keys of the versions of one project. */
  function VersionKeys(versions: Jira.Table<Jira.Version>, project: Jira.JiraId): set<Jira.JiraId>
  {
    set j | 0 <= j < |versions| && versions[j].1.project == project :: versions[j].0
  }

  /** The keys of the versions of the projects `ids`. */
  function VersionKeysIn(versions: Jira.Table<Jira.Version>, ids: set<Jira.JiraId>): set<Jira.JiraId>
  {
    set j | 0 <= j < |versions| && versions[j].1.project in ids :: versions[j].0
  }

  lemma VersionKeysInSnoc(versions: Jira.Table<Jira.Version>, projects: Jira.Table<Jira.Project>, n: nat)
    requires n < |projects|
    ensures VersionKeysIn(versions, Ids(projects[..n + 1])) == VersionKeysIn(versions, Ids(projects[..n])) + VersionKeys(versions, projects[n].0)
  {
    IdsSnoc(projects, n);
  }

  /** Scanning one more version extends the keys bound so far. */
  lemma VersionKeysSnoc(versions: Jira.Table<Jira.Version>, project: Jira.JiraId, i: nat)
    requires i < |versions|
    ensures VersionKeys(versions[..i + 1], project)
         == VersionKeys(versions[..i], project) + (if versions[i].1.project == project then {versions[i].0} else {})
  {
    assert versions[..i + 1][i] == versions[i];
    forall j | 0 <= j < i
      ensures versions[..i + 1][j] == versions[..i][j]
    {
    }
  }

  /** Migrated projects stay migrated when more calls are made. */
  lemma {:induction false} LinksMigratedKept(sent: seq<Redmine.Exchange>, more: seq<Redmine.Exchange>,
                                             links: map<string, Storage.ProjectLink>, redmineProjects: seq<Redmine.Project>,
                                             postfix: string, projects: Jira.Table<Jira.Project>, internals: seq<int>, n: nat)
    requires n <= |projects| && |internals| == n
    requires LinksMigrated(sent, links, redmineProjects, postfix, projects, internals, n)
    ensures LinksMigrated(sent + more, links, redmineProjects, postfix, projects, internals, n)
  {
    forall i | 0 <= i < n
      ensures && MainMigrated(sent + more, redmineProjects, projects[i].1, links[projects[i].0].redmineId)
              && InternalMigrated(sent + more, redmineProjects, projects[i].1, postfix, links[projects[i].0].redmineId, internals[i])
    {
    }
  }

  /** One more project, with its internal subproject and versions, keeps
      the earlier ones migrated: `more` holds the project calls and
      `more'` the version calls. */
  lemma {:induction false} ProjectsMigratedStep(sent: seq<Redmine.Exchange>, more: seq<Redmine.Exchange>, more': seq<Redmine.Exchange>,
                                                links: map<string, Storage.ProjectLink>, binding: map<string, int>,
                                                versionsBinding: map<Jira.JiraId, int>, versionsBinding': map<Jira.JiraId, int>,
                                                redmineProjects: seq<Redmine.Project>, postfix: string,
                                                projects: Jira.Table<Jira.Project>, versions: Jira.Table<Jira.Version>,
                                                internals: seq<int>, rid: int, rint: int)
    requires |internals| < |projects| && Jira.Keyed(projects) && Jira.Keyed(versions)
    requires ProjectsMigrated(sent, links, binding, versionsBinding, redmineProjects, postfix, projects, versions, internals, |internals|)
    requires MainMigrated(more, redmineProjects, projects[|internals|].1, rid)
    requires InternalMigrated(more, redmineProjects, projects[|internals|].1, postfix, rid, rint)
    requires versionsBinding'.Keys == versionsBinding.Keys + VersionKeys(versions, projects[|internals|].0)
    requires forall k :: k in versionsBinding && k !in VersionKeys(versions, projects[|internals|].0) ==> versionsBinding'[k] == versionsBinding[k]
    requires forall j :: 0 <= j < |versions| && versions[j].1.project == projects[|internals|].0 ==>
               VersionMigrated(more', versionsBinding', versions[j].0, versions[j].1, rid)
    ensures var (id, info) := projects[|internals|];
      ProjectsMigrated(sent + more + more', links[id := Storage.ProjectLink(Text.Lower(info.key), rid)],
                       if postfix == "" then binding[id := rid] else binding[id := rid][id + postfix := rint],
                       versionsBinding', redmineProjects, postfix, projects, versions, internals + [rint], |internals| + 1)
  {
    var n := |internals|;
    var (id, info) := projects[n];
    var links' := links[id := Storage.ProjectLink(Text.Lower(info.key), rid)];
    LinksMigratedStep(sent, more, links, redmineProjects, postfix, projects, internals, rid, rint);
    LinksMigratedKept(sent + more, more', links', redmineProjects, postfix, projects, internals + [rint], n + 1);
    BindingMigratedStep(links, binding, postfix, projects, internals, rid, rint);
    assert sent + more + more' == sent + (more + more');
    VersionsMigratedStep(sent, more + more', links, versionsBinding, versionsBinding', projects, versions, n, rid);
    VersionKeysInSnoc(versions, projects, n);
  }

  /** Migrated projects and versions stay migrated in any log that keeps
      every exchange showing them. */
  lemma {:induction false} ProjectsMigratedWithin(sent: seq<Redmine.Exchange>, log: seq<Redmine.Exchange>,
                                                  links: map<string, Storage.ProjectLink>, binding: map<string, int>,
                                                  versionsBinding: map<Jira.JiraId, int>, redmineProjects: seq<Redmine.Project>,
                                                  postfix: string, projects: Jira.Table<Jira.Project>, versions: Jira.Table<Jira.Version>,
                                                  internals: seq<int>)
    requires |internals| == |projects|
    requires ProjectsMigrated(sent, links, binding, versionsBinding, redmineProjects, postfix, projects, versions, internals, |projects|)
    requires forall e :: e in sent ==> e in log
    ensures ProjectsMigrated(log, links, binding, versionsBinding, redmineProjects, postfix, projects, versions, internals, |projects|)
  {
    forall i | 0 <= i < |projects|
      ensures && MainMigrated(log, redmineProjects, projects[i].1, links[projects[i].0].redmineId)
              && InternalMigrated(log, redmineProjects, projects[i].1, postfix, links[projects[i].0].redmineId, internals[i])
    {
      assert MainMigrated(sent, redmineProjects, projects[i].1, links[projects[i].0].redmineId);
      assert InternalMigrated(sent, redmineProjects, projects[i].1, postfix, links[projects[i].0].redmineId, internals[i]);
    }
    forall j | 0 <= j < |versions| && versions[j].1.project in Ids(projects[..|projects|])
      ensures VersionMigrated(log, versionsBinding, versions[j].0, versions[j].1, links[versions[j].1.project].redmineId)
    {
      assert VersionMigrated(sent, versionsBinding, versions[j].0, versions[j].1, links[versions[j].1.project].redmineId);
    }
  }

  lemma AppendInjective(a: string, b: string, p: string)
    requires a + p == b + p
    ensures a == b
  {
    assert |a| == |b|;
    assert (a + p)[..|a|] == a && (b + p)[..|b|] == b;
  }

  lemma {:induction false} LinksMigratedStep(sent: seq<Redmine.Exchange>, more: seq<Redmine.Exchange>,
                                             links: map<string, Storage.ProjectLink>, redmineProjects: seq<Redmine.Project>,
                                             postfix: string, projects: Jira.Table<Jira.Project>, internals: seq<int>, rid: int, rint: int)
    requires |internals| < |projects| && Jira.Keyed(projects)
    requires LinksMigrated(sent, links, redmineProjects, postfix, projects, internals, |internals|)
    requires MainMigrated(more, redmineProjects, projects[|internals|].1, rid)
    requires InternalMigrated(more, redmineProjects, projects[|internals|].1, postfix, rid, rint)
    ensures LinksMigrated(sent + more, links[projects[|internals|].0 := Storage.ProjectLink(Text.Lower(projects[|internals|].1.key), rid)],
                          redmineProjects, postfix, projects, internals + [rint], |internals| + 1)
  {
    var n := |internals|;
    var links' := links[projects[n].0 := Storage.ProjectLink(Text.Lower(projects[n].1.key), rid)];
    var internals' := internals + [rint];
    forall i | 0 <= i < n + 1
      ensures && projects[i].0 in links' && links'[projects[i].0].code == Text.Lower(projects[i].1.key)
              && MainMigrated(sent + more, redmineProjects, projects[i].1, links'[projects[i].0].redmineId)
              && InternalMigrated(sent + more, redmineProjects, projects[i].1, postfix, links'[projects[i].0].redmineId, internals'[i])
    {
      if i < n {
        assert projects[i].0 != projects[n].0;
      }
    }
  }

  lemma {:induction false} BindingMigratedStep(links: map<string, Storage.ProjectLink>, binding: map<string, int>, postfix: string,
                                               projects: Jira.Table<Jira.Project>, internals: seq<int>, rid: int, rint: int)
    requires |internals| < |projects| && Jira.Keyed(projects)
    requires BindingMigrated(links, binding, postfix, projects, internals, |internals|)
    ensures var (id, info) := projects[|internals|];
      BindingMigrated(links[id := Storage.ProjectLink(Text.Lower(info.key), rid)],
                      if postfix == "" then binding[id := rid] else binding[id := rid][id + postfix := rint],
                      postfix, projects, internals + [rint], |internals| + 1)
  {
    var n := |internals|;
    var (id, info) := projects[n];
    var links' := links[id := Storage.ProjectLink(Text.Lower(info.key), rid)];
    var binding' := if postfix == "" then binding[id := rid] else binding[id := rid][id + postfix := rint];
    var internals' := internals + [rint];
    if NoClash(projects, postfix) {
      forall i | 0 <= i < n + 1
        ensures && projects[i].0 in binding' && projects[i].0 in links' && binding'[projects[i].0] == links'[projects[i].0].redmineId
                && (postfix != "" ==> projects[i].0 + postfix in binding' && binding'[projects[i].0 + postfix] == internals'[i])
      {
        if i < n {
          assert projects[i].0 != id;
          if postfix != "" {
            assert projects[i].0 != id + postfix && id != projects[i].0 + postfix;
            if projects[i].0 + postfix == id + postfix {
              AppendInjective(projects[i].0, id, postfix);
            }
          }
        } else if postfix != "" {
          assert id != id + postfix;
        }
      }
    }
  }

  lemma {:induction false} VersionsMigratedStep(sent: seq<Redmine.Exchange>, more: seq<Redmine.Exchange>,
                                                links: map<string, Storage.ProjectLink>,
                                                versionsBinding: map<Jira.JiraId, int>, versionsBinding': map<Jira.JiraId, int>,
                                                projects: Jira.Table<Jira.Project>, versions: Jira.Table<Jira.Version>, n: nat, rid: int)
    requires n < |projects| && Jira.Keyed(projects) && Jira.Keyed(versions)
    requires VersionsMigrated(sent, links, versionsBinding, projects, versions, n)
    requires versionsBinding'.Keys == versionsBinding.Keys + VersionKeys(versions, projects[n].0)
    requires forall k :: k in versionsBinding && k !in VersionKeys(versions, projects[n].0) ==> versionsBinding'[k] == versionsBinding[k]
    requires forall j :: 0 <= j < |versions| && versions[j].1.project == projects[n].0 ==>
               VersionMigrated(more, versionsBinding', versions[j].0, versions[j].1, rid)
    ensures VersionsMigrated(sent + more, links[projects[n].0 := Storage.ProjectLink(Text.Lower(projects[n].1.key), rid)],
                             versionsBinding', projects, versions, n + 1)
  {
    var id := projects[n].0;
    var links' := links[id := Storage.ProjectLink(Text.Lower(projects[n].1.key), rid)];
    IdsSnoc(projects, n);
    forall j | 0 <= j < |versions| && versions[j].1.project in Ids(projects[..n + 1])
      ensures && versions[j].1.project in links'
              && VersionMigrated(sent + more, versionsBinding', versions[j].0, versions[j].1, links'[versions[j].1.project].redmineId)
    {
      if versions[j].1.project != id {
        assert versions[j].1.project in Ids(projects[..n]);
        forall k | 0 <= k < |versions| && versions[k].1.project == id
          ensures versions[k].0 != versions[j].0
        {
          assert k != j;
        }
        assert versions[j].0 !in VersionKeys(versions, id);
      }
    }
  }

  // ----------------------------------------------------------------- issues

  /** The issue `rid` was assigned to `member`, after the project's
      memberships were listed and, where they did not hold the member, the
      member was added to the project with `role` (lib/import.rb:497-510). */
  predicate Assigned(sent: seq<Redmine.Exchange>, project: Option<int>, member: Option<int>, role: int, rid: int)
  {
    && Redmine.Exchange(Redmine.AssignIssue(rid, member), Redmine.Done) in sent
    && exists e :: e in sent && e.call == Redmine.ListMemberships(project) && e.reply.Members?
                   && (!(member.Some? && member.value in e.reply.users) ==>
                         Redmine.Exchange(Redmine.CreateMembership(project, member, role), Redmine.Done) in sent)
  }

  /** The exchanges of one pass of the assignment loop that got through
      (lib/import.rb:501-509): the project's memberships are listed as
      `listed`, the member is added with `role` when `listed` does not hold
      it, and the issue is assigned to it. */
  function AssignPass(project: Option<int>, member: Option<int>, role: int, rid: int, listed: seq<int>): seq<Redmine.Exchange>
  {
    [Redmine.Exchange(Redmine.ListMemberships(project), Redmine.Members(listed))]
    + (if member.Some? && member.value in listed then []
       else [Redmine.Exchange(Redmine.CreateMembership(project, member, role), Redmine.Done)])
    + [Redmine.Exchange(Redmine.AssignIssue(rid, member), Redmine.Done)]
  }

  /** The first `k` exchanges of a pass, then its next call, which raised. */
  function Cut(pass: seq<Redmine.Exchange>, k: nat): seq<Redmine.Exchange>
    requires k < |pass|
  {
    pass[..k] + [Redmine.Exchange(pass[k].call, Redmine.Raised)]
  }

  /** A pass, or a pass cut short by a raising call, makes only
      assignment calls; cut short, it ends with the raise. */
  lemma AssignPassCalls(project: Option<int>, member: Option<int>, role: int, rid: int, listed: seq<int>, k: nat)
    requires k < |AssignPass(project, member, role, rid, listed)|
    ensures var pass := AssignPass(project, member, role, rid, listed);
      AssignCalls(pass) && AssignCalls(Cut(pass, k)) && Aborted(Cut(pass, k))
  {
    var pass := AssignPass(project, member, role, rid, listed);
    var cut := Cut(pass, k);
    forall e | e in cut ensures e.call in Calls(pass) {
      var j :| 0 <= j < |cut| && cut[j] == e;
      assert pass[j] in pass;
    }
  }

  /** The assignment calls of two logs are those of the joined log, and
      a raise at the end of the second ends the joined one. */
  lemma SentAfterAssign(sent: seq<Redmine.Exchange>, more: seq<Redmine.Exchange>)
    ensures AssignCalls(sent) && AssignCalls(more) ==> AssignCalls(sent + more)
    ensures Aborted(more) ==> Aborted(sent + more)
  {
  }

  /** A pass assigns the issue, and asks for a membership exactly when the
      listing does not hold the member. */
  lemma AssignPassCreatesIffMissing(project: Option<int>, member: Option<int>, role: int, rid: int, listed: seq<int>)
    ensures Assigned(AssignPass(project, member, role, rid, listed), project, member, role, rid)
    ensures Redmine.CreateMembership(project, member, role) in Calls(AssignPass(project, member, role, rid, listed))
            <==> !(member.Some? && member.value in listed)
    ensures |AssignPass(project, member, role, rid, listed)| == if member.Some? && member.value in listed then 2 else 3
  {
    var pass := AssignPass(project, member, role, rid, listed);
    assert pass[0] in pass;
    if member.Some? && member.value in listed {
      assert pass == [pass[0], pass[1]];
    }
  }

  /** The exchanges of the assignment loop over the first `|lists|`
      users when every call got through: a pass for each user with the
      login, made with the member `binding` gives it and the role `role`,
      the `k`-th one seeing the memberships `lists[k]`. */
  function AssignPasses(users: Jira.Table<Jira.User>, binding: map<Jira.JiraId, int>, role: int, login: string,
                        project: Option<int>, rid: int, lists: seq<seq<int>>): seq<Redmine.Exchange>
    requires |lists| <= |users|
  {
    if |lists| == 0 then []
    else
      var k := |lists| - 1;
      AssignPasses(users, binding, role, login, project, rid, lists[..k])
      + if users[k].1.login == login then AssignPass(project, Lookup(binding, users[k].0), role, rid, lists[k]) else []
  }

  /** One more user's pass follows the passes so far. */
  lemma AssignPassesSnoc(users: Jira.Table<Jira.User>, binding: map<Jira.JiraId, int>, role: int, login: string,
                         project: Option<int>, rid: int, lists: seq<seq<int>>, listed: seq<int>)
    requires |lists| < |users|
    ensures AssignPasses(users, binding, role, login, project, rid, lists + [listed])
         == AssignPasses(users, binding, role, login, project, rid, lists)
            + if users[|lists|].1.login == login then AssignPass(project, Lookup(binding, users[|lists|].0), role, rid, listed) else []
  {
    assert (lists + [listed])[..|lists|] == lists;
  }

  /** The calls of the assignment loop. */
  predicate AssignCalls(sent: seq<Redmine.Exchange>)
  {
    forall e :: e in sent ==> e.call.ListMemberships? || e.call.CreateMembership? || e.call.AssignIssue?
  }

  /** The calls `migrate_issues` makes. */
  predicate IssueCalls(sent: seq<Redmine.Exchange>)
  {
    forall e :: e in sent ==> e.call.CreateIssue? || e.call.ListMemberships? || e.call.CreateMembership? || e.call.AssignIssue?
                              || e.call.SetParent? || e.call.CreateRelation?
  }

  /** The key of an issue's project, under which its attachments are filed. */
  function ProjectKey(d: Jira.Dataset, info: Jira.Issue): string
  {
    match Jira.Find(d.projects, info.project)
    case Some(p) => p.key
    case None => ""
  }

  /** The call made for the issue `i`. Named apart from indexing so that
      facts about the calls are only drawn where they are asked for. */
  function CallFor(calls: seq<Redmine.Call>, i: nat): (c: Redmine.Call)
    requires i < |calls|
    ensures c in calls
  {
    calls[i]
  }

  /** The pieces of a script, one after the other. */
  function Flatten(parts: seq<seq<Patch.Statement>>): (r: seq<Patch.Statement>)
    ensures parts == [] ==> r == []
  {
    if parts == [] then [] else Flatten(parts[..|parts| - 1]) + parts[|parts| - 1]
  }

  lemma FlattenSnoc(parts: seq<seq<Patch.Statement>>, p: seq<Patch.Statement>)
    ensures Flatten(parts + [p]) == Flatten(parts) + p
  {
    assert (parts + [p])[..|parts|] == parts;
  }

  // ------------------------------------------------------------------ links

  /** The rows the link pass files in storage for a later run
      (lib/import.rb:526-528): one per link with an end not created in this
      run, under the link's id, still pending. */
  function Deferred(links: Jira.Table<Jira.IssueLink>, binding: map<Jira.JiraId, int>): map<string, Storage.Relation>
  {
    if links == [] then map[]
    else
      var (id, link) := links[|links| - 1];
      var before := Deferred(links[..|links| - 1], binding);
      if Issues.Route(link, binding).Defer? then before[id := DeferredRow(link)] else before
  }

  /** The storage row a deferred link is kept as, pending. */
  function DeferredRow(link: Jira.IssueLink): Storage.Relation
  {
    Storage.Relation(link.source, link.destination, Storage.Affinity(link.linktype), Storage.Pending)
  }

  /** Exactly the deferred links have rows. */
  lemma {:induction false} DeferredKeys(links: Jira.Table<Jira.IssueLink>, binding: map<Jira.JiraId, int>)
    ensures forall k :: k in Deferred(links, binding) <==>
                          exists i :: 0 <= i < |links| && links[i].0 == k && Issues.Route(links[i].1, binding).Defer?
  {
    if links != [] {
      var m := |links| - 1;
      var front := links[..m];
      DeferredKeys(front, binding);
      var d, d' := Deferred(links, binding), Deferred(front, binding);
      forall k ensures k in d <==> exists i :: 0 <= i < |links| && links[i].0 == k && Issues.Route(links[i].1, binding).Defer?
      {
        if exists i :: 0 <= i < |links| && links[i].0 == k && Issues.Route(links[i].1, binding).Defer? {
          var i :| 0 <= i < |links| && links[i].0 == k && Issues.Route(links[i].1, binding).Defer?;
          if i < m {
            assert front[i] == links[i];
          }
        }
        if k in d' {
          var i :| 0 <= i < |front| && front[i].0 == k && Issues.Route(front[i].1, binding).Defer?;
          assert links[i] == front[i];
        }
      }
    }
  }

  /** Each deferred link's row holds its ends and its type, as long as link
      ids are unique. */
  lemma {:induction false} DeferredAt(links: Jira.Table<Jira.IssueLink>, binding: map<Jira.JiraId, int>, i: nat)
    requires Jira.Keyed(links) && i < |links| && Issues.Route(links[i].1, binding).Defer?
    ensures links[i].0 in Deferred(links, binding) && Deferred(links, binding)[links[i].0] == DeferredRow(links[i].1)
    decreases |links|
  {
    var m := |links| - 1;
    var front := links[..m];
    if i < m {
      assert Jira.Keyed(front) by {
        forall j, k | 0 <= j < k < |front| ensures front[j].0 != front[k].0 {
          assert front[j] == links[j] && front[k] == links[k];
        }
      }
      assert front[i] == links[i] && links[i].0 != links[m].0;
      DeferredAt(front, binding, i);
    }
  }

  /** One more link: its row is added when it is deferred. */
  lemma DeferredSnoc(links: Jira.Table<Jira.IssueLink>, binding: map<Jira.JiraId, int>, r0: map<string, Storage.Relation>, n: nat)
    requires n < |links|
    ensures r0 + Deferred(links[..n + 1], binding)
            == if Issues.Route(links[n].1, binding).Defer? then (r0 + Deferred(links[..n], binding))[links[n].0 := DeferredRow(links[n].1)]
               else r0 + Deferred(links[..n], binding)
  {
    assert links[..n + 1][..n] == links[..n];
  }

  /** The link `link` was acted on: a sub-task link set the parent, any other
      link between two created issues was sent as a relation. */
  predicate LinkRouted(sent: seq<Redmine.Exchange>, link: Jira.IssueLink, binding: map<Jira.JiraId, int>)
  {
    match Issues.Route(link, binding)
    case Defer => true
    case MakeChild(child, parent) => Redmine.Exchange(Redmine.SetParent(child, parent), Redmine.Done) in sent
    case Relate(from, to, relationType) => Redmine.CreateRelation(from, to, relationType) in Calls(sent)
  }

  /** The first `n` links were acted on. */
  predicate LinksRouted(sent: seq<Redmine.Exchange>, links: Jira.Table<Jira.IssueLink>, binding: map<Jira.JiraId, int>, n: nat)
    requires n <= |links|
  {
    forall i :: 0 <= i < n ==> LinkRouted(sent, links[i].1, binding)
  }

  /** Acting on one more link keeps the earlier ones acted on, in any
      longer log. */
  lemma {:induction false} LinksRoutedStep(sent: seq<Redmine.Exchange>, more: seq<Redmine.Exchange>, links: Jira.Table<Jira.IssueLink>,
                                           binding: map<Jira.JiraId, int>, n: nat)
    requires n < |links| && LinksRouted(sent, links, binding, n) && LinkRouted(more, links[n].1, binding)
    ensures LinksRouted(sent + more, links, binding, n + 1)
  {
    forall i | 0 <= i < n + 1 ensures LinkRouted(sent + more, links[i].1, binding) {
      var s := if i < n then sent else more;
      assert LinkRouted(s, links[i].1, binding);
      forall e | e in s ensures e in sent + more && e.call in Calls(sent + more) { }
    }
  }

  /** Links acted on stay acted on in a log that keeps every exchange. */
  lemma {:induction false} LinksRoutedWithin(sent: seq<Redmine.Exchange>, log: seq<Redmine.Exchange>, links: Jira.Table<Jira.IssueLink>,
                                             binding: map<Jira.JiraId, int>, n: nat)
    requires n <= |links| && LinksRouted(sent, links, binding, n)
    requires forall e :: e in sent ==> e in log
    ensures LinksRouted(log, links, binding, n)
  {
    forall i | 0 <= i < n ensures LinkRouted(log, links[i].1, binding) {
      assert LinkRouted(sent, links[i].1, binding);
      forall e | e in sent ensures e.call in Calls(log) { }
    }
  }

  class Import {
    const config: Config
    /** The loaded export. */
    const data: Jira.Dataset
    /** The attachment files as the importer finds them on disk. */
    const files: Issues.Files
    /** Base64 encoding, emoji removal and the SHA-256 digest of a file. */
    const encode: string -> string
    const sanitize: string -> string
    const digest: seq<string> -> string
    const connector: Redmine.Connector
    const builder: MysqlBuilder.Builder
    const storage: Storage.Storage

    /** `@users`, rewritten in place by `migrate_users`. */
    var users: Jira.Table<Jira.User>
    var defaultRole: Option<Redmine.Named>
    var statusesBinding: map<Jira.JiraId, int>
    var trackersBinding: map<Jira.JiraId, int>
    var prioritiesBinding: map<Jira.JiraId, int>
    var customfieldsBinding: map<string, int>
    var userBinding: map<Jira.JiraId, int>
    var projectsBinding: map<string, int>
    var versionsBinding: map<Jira.JiraId, int>
    var issuesBinding: map<Jira.JiraId, int>

    constructor (config: Config, data: Jira.Dataset, files: Issues.Files, encode: string -> string, sanitize: string -> string,
                 digest: seq<string> -> string, connector: Redmine.Connector, builder: MysqlBuilder.Builder, storage: Storage.Storage)
      ensures this.config == config && this.data == data && this.files == files
      ensures this.encode == encode && this.sanitize == sanitize && this.digest == digest
      ensures this.connector == connector && this.builder == builder && this.storage == storage
      ensures users == [] && defaultRole.None?
      ensures statusesBinding == map[] && trackersBinding == map[] && prioritiesBinding == map[] && customfieldsBinding == map[]
      ensures userBinding == map[] && projectsBinding == map[] && versionsBinding == map[] && issuesBinding == map[]
    {
      this.config, this.data, this.files := config, data, files;
      this.encode, this.sanitize, this.digest := encode, sanitize, digest;
      this.connector, this.builder, this.storage := connector, builder, storage;
      users, defaultRole := [], None;
      statusesBinding, trackersBinding, prioritiesBinding, customfieldsBinding := map[], map[], map[], map[];
      userBinding, projectsBinding, versionsBinding, issuesBinding := map[], map[], map[], map[];
    }

    // ----------------------------------------------------------- taxonomy

    /** `prepare_roles` (lib/import.rb:150-155): false where it raises. */
    method PrepareRoles() returns (ok: bool)
      modifies this`defaultRole
      ensures defaultRole == Taxonomy.DefaultRole(connector.roles, config.defaultUserRole)
      ensures ok <==> defaultRole.Some?
    {
      defaultRole := Taxonomy.DefaultRole(connector.roles, config.defaultUserRole);
      ok := defaultRole.Some?;
    }

    /** `prepare_statuses` (lib/import.rb:157-175). */
    method PrepareStatuses() returns (count: nat)
      modifies this`statusesBinding
      ensures Taxonomy.IsEnumBinding(data.statuses, connector.statuses, config.statusAliases, statusesBinding)
      ensures count == |Taxonomy.Unbound(data.statuses, connector.statuses, config.statusAliases)|
    {
      statusesBinding, count := Taxonomy.BindEnum(data.statuses, connector.statuses, config.statusAliases);
    }

    /** `prepare_trackers` (lib/import.rb:177-195). */
    method PrepareTrackers() returns (count: nat)
      modifies this`trackersBinding
      ensures Taxonomy.IsEnumBinding(data.types, connector.trackers, config.trackerAliases, trackersBinding)
      ensures count == |Taxonomy.Unbound(data.types, connector.trackers, config.trackerAliases)|
    {
      trackersBinding, count := Taxonomy.BindEnum(data.types, connector.trackers, config.trackerAliases);
    }

    /** `prepare_priorities` (lib/import.rb:197-215). */
    method PreparePriorities() returns (count: nat)
      modifies this`prioritiesBinding
      ensures Taxonomy.IsEnumBinding(data.priorities, connector.priorities, config.priorityAliases, prioritiesBinding)
      ensures count == |Taxonomy.Unbound(data.priorities, connector.priorities, config.priorityAliases)|
    {
      prioritiesBinding, count := Taxonomy.BindEnum(data.priorities, connector.priorities, config.priorityAliases);
    }

    /** `prepare_customfields` (lib/import.rb:217-250). */
    method PrepareCustomFields() returns (count: nat)
      modifies this`customfieldsBinding
      ensures customfieldsBinding == Taxonomy.FieldBinding(config.customFields, data.customFields, connector.customFields)
      ensures count == Taxonomy.FieldMisses(config.customFields, data.customFields, connector.customFields)
    {
      customfieldsBinding, count := Taxonomy.BindCustomFields(config.customFields, data.customFields, connector.customFields);
    }

    // -------------------------------------------------------------- users

    /** One pass of `migrate_users`' loop for the prepared user `p`: reuse
        or create its account (lib/import.rb:281-292). False where a call
        raised. */
    method MigrateUser(id: Jira.JiraId, p: Jira.User) returns (ok: bool)
      modifies this`userBinding, connector`log
      ensures |connector.log| >= |old(connector.log)| && connector.log[..|old(connector.log)|] == old(connector.log)
      ensures UserCalls(Since(connector.log, |old(connector.log)|))
      ensures ok ==> UserMigrated(Since(connector.log, |old(connector.log)|), userBinding, connector.users, config.mode, id, p)
      ensures ok ==> userBinding.Keys == old(userBinding).Keys + {id}
                     && forall k :: k in old(userBinding) && k != id ==> userBinding[k] == old(userBinding)[k]
      ensures !ok ==> Aborted(Since(connector.log, |old(connector.log)|))
    {
      ghost var log0 := connector.log;
      var existing := Users.ExistingUser(connector.users, p.login);
      match existing {
        case Some(account) =>
          ok := true;
          if 2 <= config.mode <= 3 {
            ok := connector.Update(Redmine.UpdateUserStatus(account.id, p.status));
          }
          if ok {
            userBinding := userBinding[id := account.id];
          }
        case None =>
          var created := connector.Create(Redmine.CreateUser(p.login, p.mail, p.firstname, p.lastname, p.status));
          ok := created.Some?;
          if ok {
            userBinding := userBinding[id := created.value];
          }
      }
      assert Since(connector.log, |log0|) == connector.log[|log0|..];
    }

    /** One pass of `migrate_users`' loop: the next user is prepared and
        migrated, or a call raised. */
    method MigrateNextUser(ghost log0: seq<Redmine.Exchange>, loaded: Jira.Table<Jira.User>, rows: seq<Jira.User>, tokens: seq<string>,
                           ghost expected: seq<Jira.User>, done: seq<Jira.User>) returns (ok: bool, done': seq<Jira.User>)
      requires |done| < |loaded| == |tokens| == |rows| && Jira.Keyed(loaded)
      requires expected == Users.PrepareAll(rows, connector.users, config.mode, config.mailPostfix, tokens)
      requires done == expected[..|done|]
      requires |connector.log| >= |log0| && connector.log[..|log0|] == log0
      requires UserCalls(connector.log[|log0|..])
      requires UsersMigrated(connector.log[|log0|..], userBinding, connector.users, config.mode, loaded, done, |done|)
      modifies this`userBinding, connector`log
      ensures |connector.log| >= |log0| && connector.log[..|log0|] == log0
      ensures UserCalls(connector.log[|log0|..])
      ensures !ok ==> Aborted(connector.log[|log0|..])
      ensures ok ==> |done'| == |done| + 1 && done' == expected[..|done'|]
      ensures ok ==> UsersMigrated(connector.log[|log0|..], userBinding, connector.users, config.mode, loaded, done', |done'|)
    {
      var i := |done|;
      ghost var sent := connector.log[|log0|..];
      ghost var mid := connector.log;
      ghost var before := userBinding;
      var p := Users.Prepare(rows[i], connector.users, Users.Mails(done), config.mode, config.mailPostfix, tokens[i]);
      PreparedNext(rows, connector.users, config.mode, config.mailPostfix, tokens, expected, done, i);
      SnocSlice(expected, i);
      ok := MigrateUser(loaded[i].0, p);
      LogGrows(log0, mid, connector.log);
      SentAfter(sent, connector.log[|mid|..]);
      done' := done + [p];
      if ok {
        UsersMigratedStep(sent, connector.log[|mid|..], before, userBinding, connector.users, config.mode, loaded, done, p);
      }
    }

    /** `migrate_users` (lib/import.rb:252-294): every user is rewritten as
        `Users.PrepareAll` says, in order, each seeing the mails of the users
        before it, and then reused or created in Redmine. `tokens` are the
        random strings `SecureRandom.alphanumeric` would return, one per
        user. False where a call raised. */
    method MigrateUsers(tokens: seq<string>) returns (ok: bool)
      requires |tokens| == |users| && Jira.Keyed(users)
      modifies this`users, this`userBinding, connector`log
      ensures |connector.log| >= |old(connector.log)| && connector.log[..|old(connector.log)|] == old(connector.log)
      ensures UserCalls(Since(connector.log, |old(connector.log)|))
      ensures ok ==> users == Rewrite(old(users), Users.PrepareAll(Jira.Rows(old(users)), connector.users, config.mode, config.mailPostfix, tokens))
      ensures ok ==> userBinding.Keys == Ids(old(users))
      ensures ok ==> forall i :: 0 <= i < |users| ==>
                UserMigrated(Since(connector.log, |old(connector.log)|), userBinding, connector.users, config.mode, users[i].0, users[i].1)
      ensures !ok ==> Aborted(Since(connector.log, |old(connector.log)|))
    {
      ghost var log0 := connector.log;
      var loaded := users;
      var rows := Jira.Rows(loaded);
      var done: seq<Jira.User> := [];
      ghost var expected := Users.PrepareAll(rows, connector.users, config.mode, config.mailPostfix, tokens);
      userBinding := map[];
      ok := true;
      while |done| < |loaded| && ok
        invariant |done| <= |loaded| == |tokens| == |rows| && Jira.Keyed(loaded)
        invariant |connector.log| >= |log0| && connector.log[..|log0|] == log0
        invariant UserCalls(connector.log[|log0|..])
        invariant !ok ==> Aborted(connector.log[|log0|..])
        invariant ok ==> done == expected[..|done|]
        invariant ok ==> UsersMigrated(connector.log[|log0|..], userBinding, connector.users, config.mode, loaded, done, |done|)
        decreases |loaded| - |done|, if ok then 1 else 0
      {
        var next;
        ok, next := MigrateNextUser(log0, loaded, rows, tokens, expected, done);
        if ok {
          done := next;
        }
      }
      if ok {
        assert expected[..|loaded|] == expected;
        users := Rewrite(loaded, done);
      }
      assert Since(connector.log, |log0|) == connector.log[|log0|..];
    }

    // ----------------------------------------------------------- projects

    /** The project half of one pass of `migrate_projects`' loop
        (lib/import.rb:301-327): the Redmine project whose identifier is the
        lowered key is reused or created, then, with a postfix configured,
        the internal subproject likewise; both are bound and the link row is
        stored. False where a call raised. */
    method MigrateProject(id: Jira.JiraId, info: Jira.Project) returns (ok: bool, rid: int, rint: int)
      modifies this`projectsBinding, storage`projectLinks, connector`log
      ensures |connector.log| >= |old(connector.log)| && connector.log[..|old(connector.log)|] == old(connector.log)
      ensures ProjectCalls(connector.log[|old(connector.log)|..])
      ensures ok ==> MainMigrated(connector.log[|old(connector.log)|..], connector.projects, info, rid)
      ensures ok ==> InternalMigrated(connector.log[|old(connector.log)|..], connector.projects, info, config.internalPostfix, rid, rint)
      ensures ok ==> storage.projectLinks == old(storage.projectLinks)[id := Storage.ProjectLink(Text.Lower(info.key), rid)]
      ensures ok ==> projectsBinding == if config.internalPostfix == "" then old(projectsBinding)[id := rid]
                                        else old(projectsBinding)[id := rid][id + config.internalPostfix := rint]
      ensures !ok ==> Aborted(connector.log[|old(connector.log)|..])
    {
      ghost var log0 := connector.log;
      var postfix := config.internalPostfix;
      ok, rid, rint := true, 0, 0;
      var main := FindProject(connector.projects, Text.Lower(info.key));
      match main {
        case Some(existing) =>
          rid := existing.id;
        case None =>
          var created := connector.Create(Redmine.CreateProject(info.name, Text.Lower(info.key), info.description));
          assert connector.log[|log0|..] == [connector.log[|log0|]];
          ok := created.Some?;
          if ok {
            rid := created.value;
          }
      }
      if ok && postfix != "" {
        var internal := FindProject(connector.projects, Text.Lower(info.key + postfix));
        ghost var mid := connector.log;
        match internal {
          case Some(existing) =>
            rint := existing.id;
          case None =>
            var created := connector.Create(Redmine.CreateSubproject(info.name + " (internal)", Text.Lower(info.key + postfix), info.description, rid));
            LogGrows(log0, mid, connector.log);
            assert connector.log[|mid|..] == [connector.log[|mid|]];
            ok := created.Some?;
            if ok {
              rint := created.value;
            }
        }
      }
      if ok {
        projectsBinding := projectsBinding[id := rid];
        storage.UpdateProjectLink(id, Text.Lower(info.key), rid);
        if postfix != "" {
          projectsBinding := projectsBinding[id + postfix := rint];
        }
      }
    }

    /** The version half of one pass of `migrate_projects`' loop
        (lib/import.rb:328-336): every version of project `id` is created in
        the Redmine project `rid` and bound. False where a call raised. */
    method MigrateVersions(id: Jira.JiraId, rid: int) returns (ok: bool)
      requires Jira.Keyed(data.versions)
      modifies this`versionsBinding, connector`log
      ensures |connector.log| >= |old(connector.log)| && connector.log[..|old(connector.log)|] == old(connector.log)
      ensures ProjectCalls(connector.log[|old(connector.log)|..])
      ensures ok ==> versionsBinding.Keys == old(versionsBinding).Keys + VersionKeys(data.versions, id)
      ensures ok ==> forall k :: k in old(versionsBinding) && k !in VersionKeys(data.versions, id) ==> versionsBinding[k] == old(versionsBinding)[k]
      ensures ok ==> forall j :: 0 <= j < |data.versions| && data.versions[j].1.project == id ==>
                VersionMigrated(connector.log[|old(connector.log)|..], versionsBinding, data.versions[j].0, data.versions[j].1, rid)
      ensures !ok ==> Aborted(connector.log[|old(connector.log)|..])
    {
      ghost var log0 := connector.log;
      ghost var binding0 := versionsBinding;
      var versions := data.versions;
      var i := 0;
      ok := true;
      while i < |versions| && ok
        invariant i <= |versions|
        invariant |connector.log| >= |log0| && connector.log[..|log0|] == log0
        invariant ProjectCalls(connector.log[|log0|..])
        invariant !ok ==> Aborted(connector.log[|log0|..])
        invariant ok ==> versionsBinding.Keys == binding0.Keys + VersionKeys(versions[..i], id)
        invariant ok ==> forall k :: k in binding0 && k !in VersionKeys(versions[..i], id) ==> versionsBinding[k] == binding0[k]
        invariant ok ==> forall j :: 0 <= j < i && versions[j].1.project == id ==>
                    VersionMigrated(connector.log[|log0|..], versionsBinding, versions[j].0, versions[j].1, rid)
        decreases |versions| - i, if ok then 1 else 0
      {
        ok := MigrateVersion(log0, binding0, id, rid, i);
        if ok {
          i := i + 1;
        }
      }
      if ok {
        assert versions[..i] == versions;
      }
    }

    /** One pass of the version loop: the version at `i` is created in the
        Redmine project `rid` and bound when it belongs to project `id`. */
    method MigrateVersion(ghost log0: seq<Redmine.Exchange>, ghost binding0: map<Jira.JiraId, int>, id: Jira.JiraId, rid: int, i: nat)
      returns (ok: bool)
      requires Jira.Keyed(data.versions) && i < |data.versions|
      requires |connector.log| >= |log0| && connector.log[..|log0|] == log0
      requires ProjectCalls(connector.log[|log0|..])
      requires versionsBinding.Keys == binding0.Keys + VersionKeys(data.versions[..i], id)
      requires forall k :: k in binding0 && k !in VersionKeys(data.versions[..i], id) ==> versionsBinding[k] == binding0[k]
      requires forall j :: 0 <= j < i && data.versions[j].1.project == id ==>
                 VersionMigrated(connector.log[|log0|..], versionsBinding, data.versions[j].0, data.versions[j].1, rid)
      modifies this`versionsBinding, connector`log
      ensures |connector.log| >= |log0| && connector.log[..|log0|] == log0
      ensures ProjectCalls(connector.log[|log0|..])
      ensures !ok ==> Aborted(connector.log[|log0|..])
      ensures ok ==> versionsBinding.Keys == binding0.Keys + VersionKeys(data.versions[..i + 1], id)
      ensures ok ==> forall k :: k in binding0 && k !in VersionKeys(data.versions[..i + 1], id) ==> versionsBinding[k] == binding0[k]
      ensures ok ==> forall j :: 0 <= j < i + 1 && data.versions[j].1.project == id ==>
                 VersionMigrated(connector.log[|log0|..], versionsBinding, data.versions[j].0, data.versions[j].1, rid)
    {
      var versions := data.versions;
      var (key, v) := versions[i];
      ok := true;
      if v.project == id {
        ghost var mid := connector.log;
        var created := connector.Create(Redmine.CreateVersion(Some(rid), v.name, v.description));
        LogGrows(log0, mid, connector.log);
        assert connector.log[|mid|..] == [Redmine.Exchange(Redmine.CreateVersion(Some(rid), v.name, v.description),
                                                           if created.Some? then Redmine.Created(created.value) else Redmine.Raised)];
        ok := created.Some?;
        if ok {
          forall j | 0 <= j < i
            ensures versions[j].0 != key
          {
          }
          versionsBinding := versionsBinding[key := created.value];
        }
      }
      if ok {
        VersionKeysSnoc(versions, id, i);
      }
    }

    /** One pass of `migrate_projects`' loop: the next project, its
        internal subproject and its versions are migrated, or a call
        raised. `internals` are the internal subprojects bound so far. */
    method MigrateNextProject(ghost log0: seq<Redmine.Exchange>, n: nat, ghost internals: seq<int>) returns (ok: bool, ghost rint: int)
      requires n == |internals| < |data.projects| && Jira.Keyed(data.projects) && Jira.Keyed(data.versions)
      requires |connector.log| >= |log0| && connector.log[..|log0|] == log0
      requires ProjectCalls(connector.log[|log0|..])
      requires ProjectsMigrated(connector.log[|log0|..], storage.projectLinks, projectsBinding, versionsBinding, connector.projects,
                                config.internalPostfix, data.projects, data.versions, internals, n)
      modifies this`projectsBinding, this`versionsBinding, storage`projectLinks, connector`log
      ensures |connector.log| >= |log0| && connector.log[..|log0|] == log0
      ensures ProjectCalls(connector.log[|log0|..])
      ensures !ok ==> Aborted(connector.log[|log0|..])
      ensures ok ==> ProjectsMigrated(connector.log[|log0|..], storage.projectLinks, projectsBinding, versionsBinding, connector.projects,
                                      config.internalPostfix, data.projects, data.versions, internals + [rint], n + 1)
    {
      var (id, info) := data.projects[n];
      ghost var sent := connector.log[|log0|..];
      ghost var links := storage.projectLinks;
      ghost var binding := projectsBinding;
      ghost var versions := versionsBinding;
      ghost var mid := connector.log;
      var rid, r;
      ok, rid, r := MigrateProject(id, info);
      rint := r;
      LogGrows(log0, mid, connector.log);
      SentAfter(sent, connector.log[|mid|..]);
      if ok {
        ghost var more := connector.log[|mid|..];
        ghost var mid' := connector.log;
        ok := MigrateVersions(id, rid);
        LogGrows(log0, mid', connector.log);
        SentAfter(sent + more, connector.log[|mid'|..]);
        if ok {
          ProjectsMigratedStep(sent, more, connector.log[|mid'|..], links, binding, versions, versionsBinding, connector.projects,
                               config.internalPostfix, data.projects, data.versions, internals, rid, rint);
        }
      }
    }

    /** `migrate_projects` (lib/import.rb:296-338): every loaded project is
        bound to a reused or created Redmine project and has its link row;
        with a postfix configured, so is its internal subproject; every
        version of a loaded project is created and bound. `internals` are
        the internal subprojects, in the order of the projects. False where
        a call raised. */
    method MigrateProjects() returns (ok: bool, ghost internals: seq<int>)
      requires Jira.Keyed(data.projects) && Jira.Keyed(data.versions)
      modifies this`projectsBinding, this`versionsBinding, storage`projectLinks, connector`log
      ensures |connector.log| >= |old(connector.log)| && connector.log[..|old(connector.log)|] == old(connector.log)
      ensures ProjectCalls(Since(connector.log, |old(connector.log)|))
      ensures !ok ==> Aborted(Since(connector.log, |old(connector.log)|))
      ensures ok ==> |internals| == |data.projects|
                     && ProjectsMigrated(Since(connector.log, |old(connector.log)|), storage.projectLinks, projectsBinding, versionsBinding,
                                         connector.projects, config.internalPostfix, data.projects, data.versions, internals, |data.projects|)
    {
      ghost var log0 := connector.log;
      projectsBinding, versionsBinding := map[], map[];
      internals := [];
      var n := 0;
      ok := true;
      while n < |data.projects| && ok
        invariant n == |internals| <= |data.projects|
        invariant |connector.log| >= |log0| && connector.log[..|log0|] == log0
        invariant ProjectCalls(connector.log[|log0|..])
        invariant !ok ==> Aborted(connector.log[|log0|..])
        invariant ok ==> ProjectsMigrated(connector.log[|log0|..], storage.projectLinks, projectsBinding, versionsBinding, connector.projects,
                                          config.internalPostfix, data.projects, data.versions, internals, n)
        decreases |data.projects| - n, if ok then 1 else 0
      {
        ghost var rint;
        ok, rint := MigrateNextProject(log0, n, internals);
        if ok {
          internals := internals + [rint];
          n := n + 1;
        }
      }
      assert Since(connector.log, |log0|) == connector.log[|log0|..];
    }

    // ------------------------------------------------------------- issues

    /** What the per-issue writes depend on, as the earlier phases left it. */
    function Env(): Emit.Env
      reads this`users, this`userBinding, this`statusesBinding, this`projectsBinding
    {
      Emit.Env(users, data.userAliases, userBinding, statusesBinding, projectsBinding, config.anonymousUserId,
               config.internalPostfix, config.attachmentsRoot, files, encode, sanitize, digest)
    }

    /** The fields an issue is created with (lib/import.rb:343-366). */
    function Fields(id: Jira.JiraId, info: Jira.Issue): Redmine.IssueFields
      reads this`projectsBinding, this`trackersBinding, this`prioritiesBinding, this`customfieldsBinding, this`versionsBinding
    {
      Redmine.IssueFields(
        Lookup(projectsBinding, Issues.IssueProject(info, config.internalPostfix)),
        Lookup(trackersBinding, info.issueType), Lookup(prioritiesBinding, info.priority), info.summary,
        Issues.CustomFields(customfieldsBinding, info.key, Issues.Texts(Jira.LabelsOf(data, id)), Jira.Rows(Jira.CustomFieldValuesOf(data, id))),
        Issues.IsPrivate(info), Issues.Hours(info.timeOriginalEstimate), Issues.FixVersion(data.nodeAssociations, versionsBinding, id))
    }

    /** Every user with the assignee's login was assigned the issue `rid`. */
    predicate AssigneesDone(sent: seq<Redmine.Exchange>, login: string, project: Option<int>, rid: int, n: nat)
      requires defaultRole.Some? && n <= |users|
      reads this`users, this`userBinding, this`defaultRole
    {
      forall k :: 0 <= k < n && users[k].1.login == login ==>
        Assigned(sent, project, Lookup(userBinding, users[k].0), defaultRole.value.id, rid)
    }

    /** The assignments shown by some exchanges stay shown in any log
        holding them. */
    lemma {:induction false} AssigneesDoneWithin(sent: seq<Redmine.Exchange>, log: seq<Redmine.Exchange>, login: string,
                                                 project: Option<int>, rid: int)
      requires defaultRole.Some? && AssigneesDone(sent, login, project, rid, |users|)
      requires forall e :: e in sent ==> e in log
      ensures AssigneesDone(log, login, project, rid, |users|)
    {
      forall k | 0 <= k < |users| && users[k].1.login == login
        ensures Assigned(log, project, Lookup(userBinding, users[k].0), defaultRole.value.id, rid)
      {
        assert Assigned(sent, project, Lookup(userBinding, users[k].0), defaultRole.value.id, rid);
      }
    }

    /** One pass of the assignment loop: the project's memberships are
        listed (`listed`), the member is added to the project unless it is
        listed, then the issue is assigned to it. False where a call raised,
        the raising call being the last one made. */
    method AssignUser(project: Option<int>, member: Option<int>, rid: int) returns (ok: bool, ghost listed: seq<int>)
      requires defaultRole.Some?
      modifies connector`log
      ensures |connector.log| >= |old(connector.log)| && connector.log[..|old(connector.log)|] == old(connector.log)
      ensures AssignCalls(connector.log[|old(connector.log)|..])
      ensures ok ==> connector.log == old(connector.log) + AssignPass(project, member, defaultRole.value.id, rid, listed)
      ensures ok ==> Assigned(connector.log[|old(connector.log)|..], project, member, defaultRole.value.id, rid)
      ensures !ok ==> exists k :: 0 <= k < |AssignPass(project, member, defaultRole.value.id, rid, listed)|
                                  && connector.log == old(connector.log) + Cut(AssignPass(project, member, defaultRole.value.id, rid, listed), k)
      ensures !ok ==> Aborted(connector.log[|old(connector.log)|..])
    {
      ghost var log0 := connector.log;
      ghost var role := defaultRole.value.id;
      var members := connector.Memberships(project);
      var current := if members.Some? then members.value else [];
      listed := current;
      ghost var pass := AssignPass(project, member, role, rid, listed);
      var skip := member.Some? && member.value in current;
      ghost var list := Redmine.Exchange(Redmine.ListMemberships(project), Redmine.Members(listed));
      ghost var create := Redmine.Exchange(Redmine.CreateMembership(project, member, role), Redmine.Done);
      ghost var assign := Redmine.Exchange(Redmine.AssignIssue(rid, member), Redmine.Done);
      ghost var sent: seq<Redmine.Exchange>;
      ghost var k: nat;
      assert pass == if skip then [list, assign] else [list, create, assign];
      if members.None? {
        ok, sent, k := false, Cut(pass, 0), 0;
        assert sent == [Redmine.Exchange(list.call, Redmine.Raised)];
      } else {
        ok := true;
        if !skip {
          ok := connector.Post(Redmine.CreateMembership(project, member, defaultRole.value.id));
          if !ok {
            sent, k := Cut(pass, 1), 1;
            assert sent == [list, Redmine.Exchange(create.call, Redmine.Raised)];
          }
        }
        if ok {
          k := |pass| - 1;
          ok := connector.Update(Redmine.AssignIssue(rid, member));
          sent := if ok then pass else Cut(pass, k);
          assert Cut(pass, k) == pass[..k] + [Redmine.Exchange(assign.call, Redmine.Raised)];
        }
      }
      assert connector.log == log0 + sent;
      assert connector.log[|log0|..] == sent;
      AssignPassCreatesIffMissing(project, member, role, rid, listed);
      AssignPassCalls(project, member, role, rid, listed, k);
    }

    /** One more pass of the assignment loop keeps the earlier users
        assigned and, for a user with the login, assigns that one too. */
    lemma {:induction false} AssigneesDoneStep(sent: seq<Redmine.Exchange>, more: seq<Redmine.Exchange>, login: string,
                                               project: Option<int>, rid: int, i: nat)
      requires defaultRole.Some? && i < |users| && AssigneesDone(sent, login, project, rid, i)
      requires users[i].1.login == login ==> Assigned(more, project, Lookup(userBinding, users[i].0), defaultRole.value.id, rid)
      ensures AssigneesDone(sent + more, login, project, rid, i + 1)
    {
      forall k | 0 <= k < i + 1 && users[k].1.login == login
        ensures Assigned(sent + more, project, Lookup(userBinding, users[k].0), defaultRole.value.id, rid)
      {
        var s := if k < i then sent else more;
        assert Assigned(s, project, Lookup(userBinding, users[k].0), defaultRole.value.id, rid);
        forall e | e in s ensures e in sent + more { }
      }
    }

    /** The passes of the assignment loop make only assignment calls and
        assign the issue to every user with the login. */
    lemma {:induction false} AssignPassesDone(login: string, project: Option<int>, rid: int, lists: seq<seq<int>>)
      requires defaultRole.Some? && |lists| <= |users|
      ensures AssignCalls(AssignPasses(users, userBinding, defaultRole.value.id, login, project, rid, lists))
      ensures AssigneesDone(AssignPasses(users, userBinding, defaultRole.value.id, login, project, rid, lists), login, project, rid, |lists|)
      decreases |lists|
    {
      if |lists| > 0 {
        var n := |lists| - 1;
        var init := lists[..n];
        assert lists == init + [lists[n]];
        AssignPassesDone(login, project, rid, init);
        AssignPassesSnoc(users, userBinding, defaultRole.value.id, login, project, rid, init, lists[n]);
        var more := if users[n].1.login == login
                    then AssignPass(project, Lookup(userBinding, users[n].0), defaultRole.value.id, rid, lists[n]) else [];
        AssignPassCreatesIffMissing(project, Lookup(userBinding, users[n].0), defaultRole.value.id, rid, lists[n]);
        assert AssignCalls(more) by {
          if users[n].1.login == login {
            AssignPassCalls(project, Lookup(userBinding, users[n].0), defaultRole.value.id, rid, lists[n], 0);
          }
        }
        SentAfterAssign(AssignPasses(users, userBinding, defaultRole.value.id, login, project, rid, init), more);
        AssigneesDoneStep(AssignPasses(users, userBinding, defaultRole.value.id, login, project, rid, init), more, login, project, rid, n);
      }
    }

    /** One pass of the assignment loop, for the user `i`: the passes so
        far are extended by its pass, or the run stops. */
    method AssignNext(ghost log0: seq<Redmine.Exchange>, login: string, project: Option<int>, rid: int, i: nat, ghost lists: seq<seq<int>>)
      returns (ok: bool, ghost listed: seq<int>)
      requires defaultRole.Some? && i == |lists| < |users|
      requires connector.log == log0 + AssignPasses(users, userBinding, defaultRole.value.id, login, project, rid, lists)
      modifies connector`log
      ensures |connector.log| >= |log0| && connector.log[..|log0|] == log0
      ensures ok ==> connector.log == log0 + AssignPasses(users, userBinding, defaultRole.value.id, login, project, rid, lists + [listed])
      ensures !ok ==> AssignCalls(connector.log[|log0|..]) && Aborted(connector.log[|log0|..])
    {
      ghost var role := defaultRole.value.id;
      ghost var sent := AssignPasses(users, userBinding, role, login, project, rid, lists);
      ok, listed := true, [];
      AssignPassesSnoc(users, userBinding, role, login, project, rid, lists, listed);
      if users[i].1.login != login {
        AppendAssoc(log0, sent, []);
        return;
      }
      var member := Lookup(userBinding, users[i].0);
      ok, listed := AssignUser(project, member, rid);
      AssignPassesSnoc(users, userBinding, role, login, project, rid, lists, listed);
      ghost var more := if ok then AssignPass(project, member, role, rid, listed) else connector.log[|log0 + sent|..];
      assert connector.log == log0 + sent + more;
      AppendAssoc(log0, sent, more);
      if !ok {
        AssignPassesDone(login, project, rid, lists);
        SentAfterAssign(sent, more);
      }
    }

    /** The assignment loop of `migrate_issues` (lib/import.rb:497-510):
        the passes for every user whose login is the assignee's, in the
        order of the users, each adding the user to the project only when
        the listing does not hold it; so every such user is assigned the
        issue. False where a call raised. */
    method AssignUsers(login: string, project: Option<int>, rid: int) returns (ok: bool, ghost lists: seq<seq<int>>)
      requires defaultRole.Some?
      modifies connector`log
      ensures |connector.log| >= |old(connector.log)| && connector.log[..|old(connector.log)|] == old(connector.log)
      ensures AssignCalls(connector.log[|old(connector.log)|..])
      ensures ok ==> |lists| == |users| && connector.log == old(connector.log) + AssignPasses(users, userBinding, defaultRole.value.id, login, project, rid, lists)
      ensures ok ==> AssigneesDone(connector.log[|old(connector.log)|..], login, project, rid, |users|)
      ensures !ok ==> Aborted(connector.log[|old(connector.log)|..])
    {
      ghost var log0 := connector.log;
      var i := 0;
      ok := true;
      lists := [];
      while i < |users| && ok
        invariant i <= |users|
        invariant |connector.log| >= |log0| && connector.log[..|log0|] == log0
        invariant !ok ==> AssignCalls(connector.log[|log0|..]) && Aborted(connector.log[|log0|..])
        invariant ok ==> |lists| == i && connector.log == log0 + AssignPasses(users, userBinding, defaultRole.value.id, login, project, rid, lists)
        decreases |users| - i, if ok then 1 else 0
      {
        ghost var listed;
        ok, listed := AssignNext(log0, login, project, rid, i, lists);
        if ok {
          lists := lists + [listed];
          i := i + 1;
        }
      }
      if ok {
        assert connector.log[|log0|..] == AssignPasses(users, userBinding, defaultRole.value.id, login, project, rid, lists);
        AssignPassesDone(login, project, rid, lists);
      }
    }

    /** An issue was created by `call` as Redmine issue `rid` and, when it
        has an assignee, assigned. */
    predicate IssueMigrated(sent: seq<Redmine.Exchange>, call: Redmine.Call, info: Jira.Issue, rid: int)
      requires defaultRole.Some?
      reads this`users, this`userBinding, this`defaultRole, this`projectsBinding
    {
      && Redmine.Exchange(call, Redmine.Created(rid)) in sent
      && (info.assignee.Some? ==>
            AssigneesDone(sent, info.assignee.value, Lookup(projectsBinding, Issues.IssueProject(info, config.internalPostfix)), rid, |users|))
    }

    /** The first `n` issues are migrated by the calls `calls` as the
        Redmine issues `rids`, bound in `binding`, and have their rows in
        `issueLinks`. */
    predicate IssuesMigrated(sent: seq<Redmine.Exchange>, binding: map<Jira.JiraId, int>, issueLinks: map<string, Storage.IssueLink>,
                             calls: seq<Redmine.Call>, rids: seq<int>, n: nat)
      requires defaultRole.Some? && n <= |data.issues| && |calls| == |rids| == n
      reads this`users, this`userBinding, this`defaultRole, this`projectsBinding
    {
      && binding.Keys == Ids(data.issues[..n])
      && forall i {:trigger rids[i]} :: 0 <= i < n ==>
           && IssueMigrated(sent, calls[i], data.issues[i].1, rids[i])
           && binding[data.issues[i].0] == rids[i]
           && data.issues[i].0 in issueLinks
           && issueLinks[data.issues[i].0] == Storage.IssueLink(data.issues[i].1.project, data.issues[i].1.key, rids[i])
    }

    /** The first `n` issues were asked for with their own fields. */
    predicate IssuesRequested(calls: seq<Redmine.Call>, n: nat)
      requires n <= |data.issues| && |calls| == n
      reads this`projectsBinding, this`trackersBinding, this`prioritiesBinding, this`customfieldsBinding, this`versionsBinding
    {
      forall i {:trigger CallFor(calls, i)} :: 0 <= i < n ==> CallFor(calls, i) == Redmine.CreateIssue(Fields(data.issues[i].0, data.issues[i].1))
    }

    /** The first `n` pieces of the patch script are those of the first
        `n` issues, created as `rids`. */
    predicate IssueScripts(env: Emit.Env, parts: seq<seq<Patch.Statement>>, rids: seq<int>, n: nat)
      requires n <= |data.issues| && |parts| == |rids| == n
    {
      forall i {:trigger parts[i], rids[i]} :: 0 <= i < n ==>
        parts[i] == Emit.IssueScript(env, data, data.issues[i].0, data.issues[i].1, ProjectKey(data, data.issues[i].1), rids[i])
    }

    /** A migrated issue stays migrated in any log holding the exchanges
        that showed it. */
    lemma {:induction false} IssueMigratedWithin(sent: seq<Redmine.Exchange>, log: seq<Redmine.Exchange>, call: Redmine.Call,
                                                 info: Jira.Issue, rid: int)
      requires defaultRole.Some? && IssueMigrated(sent, call, info, rid)
      requires forall e :: e in sent ==> e in log
      ensures IssueMigrated(log, call, info, rid)
    {
      if info.assignee.Some? {
        var project := Lookup(projectsBinding, Issues.IssueProject(info, config.internalPostfix));
        forall k | 0 <= k < |users| && users[k].1.login == info.assignee.value
          ensures Assigned(log, project, Lookup(userBinding, users[k].0), defaultRole.value.id, rid)
        {
          assert Assigned(sent, project, Lookup(userBinding, users[k].0), defaultRole.value.id, rid);
        }
      }
    }

    /** One more issue migrated under a fresh id keeps the earlier ones
        migrated. */
    lemma {:induction false} IssuesMigratedStep(sent: seq<Redmine.Exchange>, more: seq<Redmine.Exchange>, binding: map<Jira.JiraId, int>,
                                                issueLinks: map<string, Storage.IssueLink>, calls: seq<Redmine.Call>, rids: seq<int>,
                                                call: Redmine.Call, rid: int)
      requires defaultRole.Some? && |rids| < |data.issues| && |calls| == |rids| && Jira.Keyed(data.issues)
      requires IssuesMigrated(sent, binding, issueLinks, calls, rids, |rids|)
      requires IssueMigrated(more, call, data.issues[|rids|].1, rid)
      ensures var (id, info) := data.issues[|rids|];
        IssuesMigrated(sent + more, binding[id := rid], issueLinks[id := Storage.IssueLink(info.project, info.key, rid)],
                       calls + [call], rids + [rid], |rids| + 1)
    {
      var n := |rids|;
      var (id, info) := data.issues[n];
      var calls', rids' := calls + [call], rids + [rid];
      forall i | 0 <= i < n + 1
        ensures IssueMigrated(sent + more, calls'[i], data.issues[i].1, rids'[i])
      {
        if i < n {
          IssueMigratedWithin(sent, sent + more, calls[i], data.issues[i].1, rids[i]);
        } else {
          IssueMigratedWithin(more, sent + more, call, info, rid);
        }
      }
      var binding' := binding[id := rid];
      var issueLinks' := issueLinks[id := Storage.IssueLink(info.project, info.key, rid)];
      forall i | 0 <= i < n + 1
        ensures binding'[data.issues[i].0] == rids'[i] && data.issues[i].0 in issueLinks'
        ensures issueLinks'[data.issues[i].0] == Storage.IssueLink(data.issues[i].1.project, data.issues[i].1.key, rids'[i])
      {
        if i < n {
          assert data.issues[i].0 != id;
          assert rids'[i] == rids[i];
        }
      }
      IdsSnoc(data.issues, n);
    }

    /** Migrated issues stay migrated in a log that keeps every exchange. */
    lemma {:induction false} IssuesMigratedWithin(sent: seq<Redmine.Exchange>, log: seq<Redmine.Exchange>, binding: map<Jira.JiraId, int>,
                                                  issueLinks: map<string, Storage.IssueLink>, calls: seq<Redmine.Call>, rids: seq<int>, n: nat)
      requires defaultRole.Some? && n <= |data.issues| && |calls| == |rids| == n
      requires IssuesMigrated(sent, binding, issueLinks, calls, rids, n)
      requires forall e :: e in sent ==> e in log
      ensures IssuesMigrated(log, binding, issueLinks, calls, rids, n)
    {
      forall i | 0 <= i < n ensures IssueMigrated(log, calls[i], data.issues[i].1, rids[i]) {
        IssueMigratedWithin(sent, log, calls[i], data.issues[i].1, rids[i]);
      }
    }

    /** `create_issue` for the issue `n` with its fields
        (lib/import.rb:343-369): the new issue's id, or None when the call
        raised. `calls` are the calls made for the issues before it. */
    method RequestIssue(n: nat, ghost calls: seq<Redmine.Call>) returns (created: Option<int>, ghost call: Redmine.Call)
      requires n == |calls| < |data.issues| && IssuesRequested(calls, n)
      modifies connector`log
      ensures call.CreateIssue? && IssuesRequested(calls + [call], n + 1)
      ensures connector.log == old(connector.log) + [Redmine.Exchange(call, if created.Some? then Redmine.Created(created.value) else Redmine.Raised)]
    {
      var (id, info) := data.issues[n];
      var custom := Issues.ProcessCustomFields(customfieldsBinding, info.key, Jira.LabelsOf(data, id), Jira.CustomFieldValuesOf(data, id));
      var fields := Redmine.IssueFields(
        Lookup(projectsBinding, Issues.IssueProject(info, config.internalPostfix)), Lookup(trackersBinding, info.issueType),
        Lookup(prioritiesBinding, info.priority), info.summary, custom, Issues.IsPrivate(info), Issues.Hours(info.timeOriginalEstimate),
        Issues.FixVersion(data.nodeAssociations, versionsBinding, id));
      assert fields == Fields(id, info);
      call := Redmine.CreateIssue(fields);
      created := connector.Create(Redmine.CreateIssue(fields));
      forall i | 0 <= i < n + 1
        ensures CallFor(calls + [call], i) == Redmine.CreateIssue(Fields(data.issues[i].0, data.issues[i].1))
      {
        if i < n {
          assert CallFor(calls, i) == CallFor(calls + [call], i);
        }
      }
    }

    /** The patch lines of the issue `n`, created as `rid`
        (lib/import.rb:370-494): its journals, attachments, time entries
        and watchers, as `script`. */
    method WriteIssue(env: Emit.Env, n: nat, ghost parts: seq<seq<Patch.Statement>>, ghost rids: seq<int>, rid: int)
      returns (ghost script: seq<Patch.Statement>)
      requires n == |parts| == |rids| < |data.issues| && IssueScripts(env, parts, rids, n)
      requires builder.Valid()
      modifies builder
      ensures IssueScripts(env, parts + [script], rids + [rid], n + 1)
      ensures builder.Valid() && builder.statements == old(builder.statements) + script
    {
      var (id, info) := data.issues[n];
      script := Emit.IssueScript(env, data, id, info, ProjectKey(data, info), rid);
      forall i | 0 <= i < n + 1
        ensures (parts + [script])[i]
             == Emit.IssueScript(env, data, data.issues[i].0, data.issues[i].1, ProjectKey(data, data.issues[i].1), (rids + [rid])[i])
      {
        if i < n {
          assert parts[i] == Emit.IssueScript(env, data, data.issues[i].0, data.issues[i].1, ProjectKey(data, data.issues[i].1), rids[i]);
        }
      }
      Emit.EmitIssue(builder, env, data, id, info, ProjectKey(data, info), rid);
    }

    /** The rest of one pass of `migrate_issues`' loop once the issue `n`
        exists as `rid` (lib/import.rb:370-517): its patch lines `script`
        are written, it is assigned, bound and linked. False where a call
        raised. */
    method CompleteIssue(env: Emit.Env, n: nat, ghost parts: seq<seq<Patch.Statement>>, ghost rids: seq<int>, rid: int)
      returns (ok: bool, ghost script: seq<Patch.Statement>)
      requires n == |parts| == |rids| < |data.issues| && IssueScripts(env, parts, rids, n)
      requires builder.Valid() && defaultRole.Some?
      modifies builder, connector`log, this`issuesBinding, storage`issueLinks
      ensures IssueScripts(env, parts + [script], rids + [rid], n + 1)
      ensures builder.Valid() && builder.statements == old(builder.statements) + script
      ensures |connector.log| >= |old(connector.log)| && connector.log[..|old(connector.log)|] == old(connector.log)
      ensures AssignCalls(connector.log[|old(connector.log)|..])
      ensures ok && data.issues[n].1.assignee.Some? ==>
                AssigneesDone(connector.log[|old(connector.log)|..], data.issues[n].1.assignee.value,
                              Lookup(projectsBinding, Issues.IssueProject(data.issues[n].1, config.internalPostfix)), rid, |users|)
      ensures ok ==> issuesBinding == old(issuesBinding)[data.issues[n].0 := rid]
      ensures ok ==> storage.issueLinks == old(storage.issueLinks)[data.issues[n].0 := Storage.IssueLink(data.issues[n].1.project, data.issues[n].1.key, rid)]
      ensures !ok ==> Aborted(connector.log[|old(connector.log)|..])
    {
      var (id, info) := data.issues[n];
      script := WriteIssue(env, n, parts, rids, rid);
      ok := true;
      if info.assignee.Some? {
        ghost var lists;
        ok, lists := AssignUsers(info.assignee.value, Lookup(projectsBinding, Issues.IssueProject(info, config.internalPostfix)), rid);
      }
      if ok {
        issuesBinding := issuesBinding[id := rid];
        storage.UpdateIssueLink(id, info.project, info.key, rid);
      }
    }

    /** The rest of one pass of `migrate_issues`' loop once the issue `n`
        exists as `rid`, created by `call`, the last exchange of the log: the
        issue is completed, and with it the first `n + 1` issues are
        migrated. */
    method CompleteNextIssue(ghost log0: seq<Redmine.Exchange>, ghost s0: seq<Patch.Statement>, env: Emit.Env, n: nat,
                            ghost calls: seq<Redmine.Call>, ghost rids: seq<int>, ghost parts: seq<seq<Patch.Statement>>,
                            ghost call: Redmine.Call, rid: int)
      returns (ok: bool, ghost script: seq<Patch.Statement>)
      requires n == |calls| == |rids| == |parts| < |data.issues| && Jira.Keyed(data.issues)
      requires builder.Valid() && defaultRole.Some?
      requires |connector.log| > |log0| && connector.log[..|log0|] == log0
      requires connector.log[|connector.log| - 1] == Redmine.Exchange(call, Redmine.Created(rid))
      requires IssueCalls(connector.log[|log0|..])
      requires IssuesMigrated(connector.log[|log0|..|connector.log| - 1], issuesBinding, storage.issueLinks, calls, rids, n)
      requires IssueScripts(env, parts, rids, n)
      requires builder.statements == s0 + Flatten(parts)
      modifies builder, connector`log, this`issuesBinding, storage`issueLinks
      ensures builder.Valid()
      ensures |connector.log| >= |log0| && connector.log[..|log0|] == log0
      ensures IssueCalls(connector.log[|log0|..])
      ensures !ok ==> Aborted(connector.log[|log0|..])
      ensures ok ==> IssuesMigrated(connector.log[|log0|..], issuesBinding, storage.issueLinks, calls + [call], rids + [rid], n + 1)
      ensures ok ==> IssueScripts(env, parts + [script], rids + [rid], n + 1)
      ensures ok ==> builder.statements == s0 + Flatten(parts + [script])
    {
      ghost var sent := connector.log[|log0|..|connector.log| - 1];
      ghost var mid := connector.log;
      ghost var binding := issuesBinding;
      ghost var links := storage.issueLinks;
      assert mid[|log0|..] == sent + [mid[|mid| - 1]];
      ok, script := CompleteIssue(env, n, parts, rids, rid);
      LogGrows(log0, mid, connector.log);
      ghost var more := [mid[|mid| - 1]] + connector.log[|mid|..];
      assert connector.log[|log0|..] == sent + more;
      if ok {
        var info := data.issues[n].1;
        if info.assignee.Some? {
          AssigneesDoneWithin(connector.log[|mid|..], more, info.assignee.value,
                              Lookup(projectsBinding, Issues.IssueProject(info, config.internalPostfix)), rid);
        }
        assert more[0] == Redmine.Exchange(call, Redmine.Created(rid));
        assert IssueMigrated(more, call, info, rid);
        IssuesMigratedStep(sent, more, binding, links, calls, rids, call, rid);
        FlattenSnoc(parts, script);
        assert s0 + Flatten(parts) + script == s0 + Flatten(parts + [script]);
      }
    }

    /** One pass of `migrate_issues`' loop: the issue `n` is asked for by
        `call`, created as `rid`, written as `script` and completed, or a
        call raised. */
    method MigrateNextIssue(ghost log0: seq<Redmine.Exchange>, ghost s0: seq<Patch.Statement>, env: Emit.Env, n: nat,
                            ghost calls: seq<Redmine.Call>, ghost rids: seq<int>, ghost parts: seq<seq<Patch.Statement>>)
      returns (ok: bool, ghost call: Redmine.Call, ghost rid: int, ghost script: seq<Patch.Statement>)
      requires n == |calls| == |rids| == |parts| < |data.issues| && Jira.Keyed(data.issues)
      requires builder.Valid() && defaultRole.Some?
      requires |connector.log| >= |log0| && connector.log[..|log0|] == log0
      requires IssueCalls(connector.log[|log0|..])
      requires IssuesRequested(calls, n)
      requires IssuesMigrated(connector.log[|log0|..], issuesBinding, storage.issueLinks, calls, rids, n)
      requires IssueScripts(env, parts, rids, n)
      requires builder.statements == s0 + Flatten(parts)
      modifies builder, connector`log, this`issuesBinding, storage`issueLinks
      ensures builder.Valid()
      ensures |connector.log| >= |log0| && connector.log[..|log0|] == log0
      ensures IssueCalls(connector.log[|log0|..])
      ensures !ok ==> Aborted(connector.log[|log0|..])
      ensures ok ==> IssuesRequested(calls + [call], n + 1)
      ensures ok ==> IssuesMigrated(connector.log[|log0|..], issuesBinding, storage.issueLinks, calls + [call], rids + [rid], n + 1)
      ensures ok ==> IssueScripts(env, parts + [script], rids + [rid], n + 1)
      ensures ok ==> builder.statements == s0 + Flatten(parts + [script])
    {
      ghost var mid := connector.log;
      var created;
      created, call := RequestIssue(n, calls);
      assert connector.log[..|mid|] == mid;
      LogGrows(log0, mid, connector.log);
      assert connector.log[|log0|..] == mid[|log0|..] + [connector.log[|mid|]];
      SentAfter(mid[|log0|..], [connector.log[|mid|]]);
      if created.None? {
        ok, rid, script := false, 0, [];
      } else {
        assert connector.log[|log0|..|connector.log| - 1] == mid[|log0|..];
        rid := created.value;
        ok, script := CompleteNextIssue(log0, s0, env, n, calls, rids, parts, call, created.value);
      }
    }

    /** The issue loop of `migrate_issues` (lib/import.rb:341-517): the
        binding starts empty; every loaded issue is asked for with its own
        fields (`calls`), created as `rids`, has its patch lines (`parts`,
        in order) written, is assigned, bound and has its link row. False
        where a call raised. */
    method CreateIssues() returns (ok: bool, ghost calls: seq<Redmine.Call>, ghost rids: seq<int>, ghost parts: seq<seq<Patch.Statement>>)
      requires builder.Valid() && defaultRole.Some? && Jira.Keyed(data.issues)
      modifies builder, connector`log, this`issuesBinding, storage`issueLinks
      ensures builder.Valid()
      ensures |connector.log| >= |old(connector.log)| && connector.log[..|old(connector.log)|] == old(connector.log)
      ensures IssueCalls(Since(connector.log, |old(connector.log)|))
      ensures !ok ==> Aborted(Since(connector.log, |old(connector.log)|))
      ensures ok ==> |calls| == |rids| == |parts| == |data.issues|
      ensures ok ==> IssuesRequested(calls, |data.issues|)
      ensures ok ==> IssuesMigrated(Since(connector.log, |old(connector.log)|), issuesBinding, storage.issueLinks, calls, rids, |data.issues|)
      ensures ok ==> IssueScripts(Env(), parts, rids, |data.issues|)
      ensures ok ==> builder.statements == old(builder.statements) + Flatten(parts)
    {
      ghost var log0 := connector.log;
      ghost var s0 := builder.statements;
      var env := Env();
      issuesBinding := map[];
      calls, rids, parts := [], [], [];
      var n := 0;
      ok := true;
      while n < |data.issues| && ok
        invariant n == |calls| == |rids| == |parts| <= |data.issues|
        invariant builder.Valid()
        invariant |connector.log| >= |log0| && connector.log[..|log0|] == log0
        invariant IssueCalls(connector.log[|log0|..])
        invariant !ok ==> Aborted(connector.log[|log0|..])
        invariant ok ==> IssuesRequested(calls, n)
        invariant ok ==> IssuesMigrated(connector.log[|log0|..], issuesBinding, storage.issueLinks, calls, rids, n)
        invariant ok ==> IssueScripts(env, parts, rids, n)
        invariant ok ==> builder.statements == s0 + Flatten(parts)
        decreases |data.issues| - n, if ok then 1 else 0
      {
        ghost var call, rid, script;
        ok, call, rid, script := MigrateNextIssue(log0, s0, env, n, calls, rids, parts);
        if ok {
          calls, rids, parts := calls + [call], rids + [rid], parts + [script];
          n := n + 1;
        }
      }
      if ok {
        assert data.issues[..n] == data.issues;
      }
      assert Env() == env;
      assert Since(connector.log, |log0|) == connector.log[|log0|..];
    }

    // -------------------------------------------------------------- links

    /** One pass of the link loop of `migrate_issues` (lib/import.rb:522-558):
        a link with an end not created in this run is kept in storage for
        later; a sub-task link sets the parent, and a raise there is
        fatal; any other link is sent as a relation, whose failure is
        ignored. */
    method RouteLink(id: string, link: Jira.IssueLink) returns (ok: bool)
      modifies connector`log, storage`relations
      ensures Issues.Route(link, issuesBinding).Defer? ==>
                ok && connector.log == old(connector.log) && storage.relations == old(storage.relations)[id := DeferredRow(link)]
      ensures !Issues.Route(link, issuesBinding).Defer? ==> storage.relations == old(storage.relations)
      ensures Issues.Route(link, issuesBinding).MakeChild? ==>
                var a := Issues.Route(link, issuesBinding);
                connector.log == old(connector.log) + [Redmine.Exchange(Redmine.SetParent(a.child, a.parent), if ok then Redmine.Done else Redmine.Raised)]
      ensures Issues.Route(link, issuesBinding).Relate? ==>
                var a := Issues.Route(link, issuesBinding);
                ok && |connector.log| == |old(connector.log)| + 1 && connector.log[..|old(connector.log)|] == old(connector.log)
                && connector.log[|old(connector.log)|].call == Redmine.CreateRelation(a.from, a.to, a.relationType)
    {
      match Issues.Route(link, issuesBinding)
      case Defer =>
        storage.UpdateIssueRelation(id, link.source, link.destination, link.linktype, Storage.Pending);
        ok := true;
      case MakeChild(child, parent) =>
        ok := connector.Update(Redmine.SetParent(child, parent));
      case Relate(from, to, relationType) =>
        var _ := connector.Post(Redmine.CreateRelation(from, to, relationType));
        ok := true;
    }

    /** One pass of the link loop: the link `n` is acted on, or setting
        a parent raised. */
    method RouteNextLink(ghost log0: seq<Redmine.Exchange>, ghost r0: map<string, Storage.Relation>, n: nat) returns (ok: bool)
      requires n < |data.issueLinks|
      requires |connector.log| >= |log0| && connector.log[..|log0|] == log0
      requires IssueCalls(connector.log[|log0|..])
      requires LinksRouted(connector.log[|log0|..], data.issueLinks, issuesBinding, n)
      requires storage.relations == r0 + Deferred(data.issueLinks[..n], issuesBinding)
      modifies connector`log, storage`relations
      ensures |connector.log| >= |log0| && connector.log[..|log0|] == log0
      ensures IssueCalls(connector.log[|log0|..])
      ensures !ok ==> Aborted(connector.log[|log0|..])
      ensures !ok ==> storage.relations == r0 + Deferred(data.issueLinks[..n], issuesBinding)
      ensures ok ==> LinksRouted(connector.log[|log0|..], data.issueLinks, issuesBinding, n + 1)
      ensures ok ==> storage.relations == r0 + Deferred(data.issueLinks[..n + 1], issuesBinding)
    {
      ghost var mid := connector.log;
      var (id, link) := data.issueLinks[n];
      ok := RouteLink(id, link);
      LogGrows(log0, mid, connector.log);
      ghost var more := connector.log[|mid|..];
      assert forall e :: e in more ==> e.call.SetParent? || e.call.CreateRelation?;
      SentAfter(mid[|log0|..], more);
      DeferredSnoc(data.issueLinks, issuesBinding, r0, n);
      if ok {
        match Issues.Route(link, issuesBinding)
        case Defer =>
        case MakeChild(_, _) =>
          assert more[0] in more;
        case Relate(_, _, _) =>
          assert more[0] in more;
        LinksRoutedStep(mid[|log0|..], more, data.issueLinks, issuesBinding, n);
      }
    }

    /** The link loop of `migrate_issues` (lib/import.rb:519-559): every
        link is acted on after the issues it joins; the rows kept for later
        are exactly those of the links with an end not created in this
        run. False where setting a parent raised. */
    method RouteLinks() returns (ok: bool)
      modifies connector`log, storage`relations
      ensures |connector.log| >= |old(connector.log)| && connector.log[..|old(connector.log)|] == old(connector.log)
      ensures IssueCalls(Since(connector.log, |old(connector.log)|))
      ensures !ok ==> Aborted(Since(connector.log, |old(connector.log)|))
      ensures ok ==> LinksRouted(Since(connector.log, |old(connector.log)|), data.issueLinks, issuesBinding, |data.issueLinks|)
      ensures ok ==> storage.relations == old(storage.relations) + Deferred(data.issueLinks, issuesBinding)
    {
      ghost var log0 := connector.log;
      ghost var r0 := storage.relations;
      var n := 0;
      ok := true;
      while n < |data.issueLinks| && ok
        invariant n <= |data.issueLinks|
        invariant |connector.log| >= |log0| && connector.log[..|log0|] == log0
        invariant IssueCalls(connector.log[|log0|..])
        invariant !ok ==> Aborted(connector.log[|log0|..])
        invariant ok ==> LinksRouted(connector.log[|log0|..], data.issueLinks, issuesBinding, n)
        invariant storage.relations == r0 + Deferred(data.issueLinks[..n], issuesBinding)
        decreases |data.issueLinks| - n, if ok then 1 else 0
      {
        ok := RouteNextLink(log0, r0, n);
        if ok {
          n := n + 1;
        }
      }
      if ok {
        assert data.issueLinks[..n] == data.issueLinks;
      }
      assert Since(connector.log, |log0|) == connector.log[|log0|..];
    }

    /** `migrate_issues` (lib/import.rb:341-560): the issues are created,
        written, assigned and bound, then their links are acted on. False
        where a call raised. */
    method MigrateIssues() returns (ok: bool, ghost calls: seq<Redmine.Call>, ghost rids: seq<int>, ghost parts: seq<seq<Patch.Statement>>)
      requires builder.Valid() && defaultRole.Some? && Jira.Keyed(data.issues)
      modifies builder, connector`log, this`issuesBinding, storage`issueLinks, storage`relations
      ensures builder.Valid()
      ensures |connector.log| >= |old(connector.log)| && connector.log[..|old(connector.log)|] == old(connector.log)
      ensures IssueCalls(Since(connector.log, |old(connector.log)|))
      ensures !ok ==> Aborted(Since(connector.log, |old(connector.log)|))
      ensures ok ==> |calls| == |rids| == |parts| == |data.issues|
      ensures ok ==> IssuesRequested(calls, |data.issues|)
      ensures ok ==> IssuesMigrated(Since(connector.log, |old(connector.log)|), issuesBinding, storage.issueLinks, calls, rids, |data.issues|)
      ensures ok ==> IssueScripts(Env(), parts, rids, |data.issues|)
      ensures ok ==> builder.statements == old(builder.statements) + Flatten(parts)
      ensures ok ==> LinksRouted(Since(connector.log, |old(connector.log)|), data.issueLinks, issuesBinding, |data.issueLinks|)
      ensures ok ==> storage.relations == old(storage.relations) + Deferred(data.issueLinks, issuesBinding)
    {
      ghost var log0 := connector.log;
      ok, calls, rids, parts := CreateIssues();
      if ok {
        ghost var mid := connector.log;
        ok := RouteLinks();
        LogGrows(log0, mid, connector.log);
        assert Since(connector.log, |log0|) == mid[|log0|..] + connector.log[|mid|..];
        SentAfter(mid[|log0|..], connector.log[|mid|..]);
        if ok {
          IssuesMigratedWithin(mid[|log0|..], Since(connector.log, |log0|), issuesBinding, storage.issueLinks, calls, rids, |data.issues|);
          LinksRoutedWithin(connector.log[|mid|..], Since(connector.log, |log0|), data.issueLinks, issuesBinding, |data.issueLinks|);
        }
      }
    }

    // ---------------------------------------------------------------- run

    /** Some status, type, priority or configured custom field of the
        export has no Redmine counterpart: the run refuses to go on
        (lib/import.rb:90-100). */
    predicate Undefined()
    {
      || |Taxonomy.Unbound(data.statuses, connector.statuses, config.statusAliases)| > 0
      || |Taxonomy.Unbound(data.types, connector.trackers, config.trackerAliases)| > 0
      || |Taxonomy.Unbound(data.priorities, connector.priorities, config.priorityAliases)| > 0
      || Taxonomy.FieldMisses(config.customFields, data.customFields, connector.customFields) > 0
    }

    /** The taxonomy part of `migrate` (lib/import.rb:87-100): the default
        role, then the statuses, types, priorities and custom fields, in
        that order, each bound to its Redmine counterpart; the first that
        fails stops the run. */
    method Prepare() returns (ok: bool)
      modifies this`defaultRole, this`statusesBinding, this`trackersBinding, this`prioritiesBinding, this`customfieldsBinding
      ensures defaultRole == Taxonomy.DefaultRole(connector.roles, config.defaultUserRole)
      ensures ok <==> defaultRole.Some? && !Undefined()
      ensures ok ==> Taxonomy.IsEnumBinding(data.statuses, connector.statuses, config.statusAliases, statusesBinding)
      ensures ok ==> Taxonomy.IsEnumBinding(data.types, connector.trackers, config.trackerAliases, trackersBinding)
      ensures ok ==> Taxonomy.IsEnumBinding(data.priorities, connector.priorities, config.priorityAliases, prioritiesBinding)
      ensures ok ==> customfieldsBinding == Taxonomy.FieldBinding(config.customFields, data.customFields, connector.customFields)
    {
      ok := PrepareRoles();
      if !ok {
        return;
      }
      var count := PrepareStatuses();
      if count > 0 {
        return false;
      }
      count := PrepareTrackers();
      if count > 0 {
        return false;
      }
      count := PreparePriorities();
      if count > 0 {
        return false;
      }
      count := PrepareCustomFields();
      ok := count == 0;
    }

    /** Mode 4 got through, as the exchanges `sent` show
        (lib/import.rb:133-136, 296-560): every loaded project has its link
        row and its reused or created Redmine project and, with a postfix
        configured, internal subproject (`internals`), and without clashing
        keys its bindings; every version of a loaded project is created and
        bound; every issue was asked for with its own fields (`calls`),
        created as `rids`, assigned, bound, has its link row and its patch
        lines `parts`; every link between two created issues was acted on. */
    predicate WorkMigrated(sent: seq<Redmine.Exchange>, internals: seq<int>, calls: seq<Redmine.Call>, rids: seq<int>,
                           parts: seq<seq<Patch.Statement>>)
      requires defaultRole.Some?
      reads this`users, this`userBinding, this`defaultRole, this`statusesBinding, this`trackersBinding, this`prioritiesBinding
      reads this`customfieldsBinding, this`projectsBinding, this`versionsBinding, this`issuesBinding, storage`projectLinks, storage`issueLinks
    {
      && |internals| == |data.projects| && |calls| == |rids| == |parts| == |data.issues|
      && ProjectsMigrated(sent, storage.projectLinks, projectsBinding, versionsBinding, connector.projects, config.internalPostfix,
                          data.projects, data.versions, internals, |data.projects|)
      && IssuesRequested(calls, |data.issues|)
      && IssuesMigrated(sent, issuesBinding, storage.issueLinks, calls, rids, |data.issues|)
      && IssueScripts(Env(), parts, rids, |data.issues|)
      && LinksRouted(sent, data.issueLinks, issuesBinding, |data.issueLinks|)
    }

    /** A migration shown by some exchanges stays shown in any log that
        keeps them. */
    lemma {:induction false} WorkMigratedWithin(sent: seq<Redmine.Exchange>, log: seq<Redmine.Exchange>, internals: seq<int>,
                                                calls: seq<Redmine.Call>, rids: seq<int>, parts: seq<seq<Patch.Statement>>)
      requires defaultRole.Some? && WorkMigrated(sent, internals, calls, rids, parts)
      requires forall e :: e in sent ==> e in log
      ensures WorkMigrated(log, internals, calls, rids, parts)
    {
      ProjectsMigratedWithin(sent, log, storage.projectLinks, projectsBinding, versionsBinding, connector.projects, config.internalPostfix,
                             data.projects, data.versions, internals);
      IssuesMigratedWithin(sent, log, issuesBinding, storage.issueLinks, calls, rids, |data.issues|);
      LinksRoutedWithin(sent, log, data.issueLinks, issuesBinding, |data.issueLinks|);
    }

    /** The issue part of mode 4, once the projects are migrated as the
        calls since `log0` show: the issues and their links are migrated,
        and with the projects they make up the whole migration. */
    method MigrateWorkIssues(ghost log0: seq<Redmine.Exchange>, ghost internals: seq<int>)
      returns (ok: bool, ghost calls: seq<Redmine.Call>, ghost rids: seq<int>, ghost parts: seq<seq<Patch.Statement>>)
      requires Jira.Keyed(data.issues) && builder.Valid() && defaultRole.Some?
      requires |connector.log| >= |log0| && connector.log[..|log0|] == log0
      requires |internals| == |data.projects|
      requires ProjectsMigrated(Since(connector.log, |log0|), storage.projectLinks, projectsBinding, versionsBinding, connector.projects,
                                config.internalPostfix, data.projects, data.versions, internals, |data.projects|)
      modifies this`issuesBinding, connector`log, builder, storage`issueLinks, storage`relations
      ensures builder.Valid()
      ensures |connector.log| >= |log0| && connector.log[..|log0|] == log0
      ensures !ok ==> Aborted(Since(connector.log, |log0|))
      ensures ok ==> WorkMigrated(Since(connector.log, |log0|), internals, calls, rids, parts)
      ensures ok ==> builder.statements == old(builder.statements) + Flatten(parts)
      ensures ok ==> issuesBinding.Keys == Ids(data.issues)
      ensures ok ==> storage.relations == old(storage.relations) + Deferred(data.issueLinks, issuesBinding)
    {
      ghost var mid := connector.log;
      ghost var before := Since(mid, |log0|);
      assert before == mid[|log0|..];
      ok, calls, rids, parts := MigrateIssues();
      LogGrows(log0, mid, connector.log);
      ghost var more := connector.log[|mid|..];
      assert Since(connector.log, |mid|) == more;
      SentAfter(before, more);
      ghost var sent := connector.log[|log0|..];
      assert sent == before + more;
      if ok {
        assert data.issues[..|data.issues|] == data.issues;
        ProjectsMigratedWithin(before, sent, storage.projectLinks, projectsBinding, versionsBinding, connector.projects,
                               config.internalPostfix, data.projects, data.versions, internals);
        IssuesMigratedWithin(more, sent, issuesBinding, storage.issueLinks, calls, rids, |data.issues|);
        LinksRoutedWithin(more, sent, data.issueLinks, issuesBinding, |data.issueLinks|);
      }
      assert Since(connector.log, |log0|) == sent;
    }

    /** The mode 4 part of `migrate` (lib/import.rb:133-136): the projects,
        then the issues and their links; the patch script grows by the
        issues' lines, in order, and the links with an end not created are
        kept for later. False where a call raised. */
    method MigrateWork() returns (ok: bool, ghost internals: seq<int>, ghost calls: seq<Redmine.Call>, ghost rids: seq<int>,
                                  ghost parts: seq<seq<Patch.Statement>>)
      requires Jira.Keyed(data.projects) && Jira.Keyed(data.versions) && Jira.Keyed(data.issues) && builder.Valid() && defaultRole.Some?
      modifies this`projectsBinding, this`versionsBinding, this`issuesBinding
      modifies connector`log, builder, storage`projectLinks, storage`issueLinks, storage`relations
      ensures builder.Valid()
      ensures |connector.log| >= |old(connector.log)| && connector.log[..|old(connector.log)|] == old(connector.log)
      ensures !ok ==> Aborted(Since(connector.log, |old(connector.log)|))
      ensures ok ==> WorkMigrated(Since(connector.log, |old(connector.log)|), internals, calls, rids, parts)
      ensures ok ==> builder.statements == old(builder.statements) + Flatten(parts)
      ensures ok ==> issuesBinding.Keys == Ids(data.issues)
      ensures ok ==> storage.relations == old(storage.relations) + Deferred(data.issueLinks, issuesBinding)
    {
      ghost var log0 := connector.log;
      calls, rids, parts := [], [], [];
      ok, internals := MigrateProjects();
      if ok {
        ok, calls, rids, parts := MigrateWorkIssues(log0, internals);
      }
    }

    /** The users part of `migrate` (lib/import.rb:102-108): the loaded
        users are migrated. False where a call raised. */
    method MigrateLoadedUsers(tokens: seq<string>) returns (ok: bool)
      requires Jira.Keyed(data.users) && |tokens| == |data.users|
      modifies this`users, this`userBinding, connector`log
      ensures |connector.log| >= |old(connector.log)| && connector.log[..|old(connector.log)|] == old(connector.log)
      ensures !ok ==> Aborted(Since(connector.log, |old(connector.log)|))
      ensures ok ==> userBinding.Keys == Ids(data.users)
                     && forall i :: 0 <= i < |users| ==>
                          UserMigrated(Since(connector.log, |old(connector.log)|), userBinding, connector.users, config.mode, users[i].0, users[i].1)
    {
      users := data.users;
      ok := MigrateUsers(tokens);
    }

    /** The migrating part of `migrate` in modes 1 to 4
        (lib/import.rb:102-136): the loaded users, then in mode 4 the
        projects and the issues. Below mode 4 no project, issue, script
        line or storage row is touched. False where a call raised. */
    method MigrateAll(tokens: seq<string>) returns (ok: bool, ghost internals: seq<int>, ghost calls: seq<Redmine.Call>,
                                                    ghost rids: seq<int>, ghost parts: seq<seq<Patch.Statement>>)
      requires 1 <= config.mode <= 4 && Jira.Loaded(data) && |tokens| == |data.users| && builder.Valid() && defaultRole.Some?
      modifies this`users, this`userBinding, this`projectsBinding, this`versionsBinding, this`issuesBinding
      modifies connector`log, builder, storage`projectLinks, storage`issueLinks, storage`relations
      ensures builder.Valid()
      ensures |connector.log| >= |old(connector.log)| && connector.log[..|old(connector.log)|] == old(connector.log)
      ensures !ok ==> Aborted(Since(connector.log, |old(connector.log)|))
      ensures config.mode != 4 ==>
                && builder.statements == old(builder.statements) && storage.Snapshot() == old(storage.Snapshot())
                && projectsBinding == old(projectsBinding) && versionsBinding == old(versionsBinding) && issuesBinding == old(issuesBinding)
      ensures ok ==> userBinding.Keys == Ids(data.users)
                     && forall i :: 0 <= i < |users| ==>
                          UserMigrated(Since(connector.log, |old(connector.log)|), userBinding, connector.users, config.mode, users[i].0, users[i].1)
      ensures config.mode == 4 && ok ==>
                && WorkMigrated(Since(connector.log, |old(connector.log)|), internals, calls, rids, parts)
                && builder.statements == old(builder.statements) + Flatten(parts)
                && issuesBinding.Keys == Ids(data.issues)
                && storage.relations == old(storage.relations) + Deferred(data.issueLinks, issuesBinding)
    {
      ghost var log0 := connector.log;
      internals, calls, rids, parts := [], [], [], [];
      ok := MigrateLoadedUsers(tokens);
      ghost var mid := connector.log;
      ghost var migrated, binding := users, userBinding;
      assert Since(mid, |log0|) == mid[|log0|..];
      if ok && config.mode == 4 {
        ok, internals, calls, rids, parts := MigrateWork();
        LogGrows(log0, mid, connector.log);
        ghost var more := connector.log[|mid|..];
        assert Since(connector.log, |mid|) == more;
        SentAfter(mid[|log0|..], more);
        if ok {
          UsersKept(mid[|log0|..], more, binding, connector.users, config.mode, migrated);
          WorkMigratedWithin(more, mid[|log0|..] + more, internals, calls, rids, parts);
        }
      }
      assert Since(connector.log, |log0|) == connector.log[|log0|..];
    }

    /** Modes 0 to 4 of `migrate` (lib/import.rb:87-136): the taxonomy is
        bound and the first gap stops the run before any call; modes 1 to
        4 then migrate the users and mode 4 the projects and issues. False
        where the run stops. */
    method MigrateBound(tokens: seq<string>) returns (ok: bool)
      requires 0 <= config.mode <= 4 && Jira.Loaded(data) && |tokens| == |data.users| && builder.Valid()
      modifies this`defaultRole, this`statusesBinding, this`trackersBinding, this`prioritiesBinding, this`customfieldsBinding
      modifies this`users, this`userBinding, this`projectsBinding, this`versionsBinding, this`issuesBinding
      modifies connector`log, builder, storage`projectLinks, storage`issueLinks, storage`relations
      ensures builder.Valid()
      ensures |connector.log| >= |old(connector.log)| && connector.log[..|old(connector.log)|] == old(connector.log)
      ensures ok ==> defaultRole == Taxonomy.DefaultRole(connector.roles, config.defaultUserRole) && defaultRole.Some? && !Undefined()
      ensures !ok ==> defaultRole.None? || Undefined() || Aborted(Since(connector.log, |old(connector.log)|))
      ensures defaultRole.None? || Undefined() ==>
                && !ok && connector.log == old(connector.log) && builder.statements == old(builder.statements)
                && storage.Snapshot() == old(storage.Snapshot()) && users == old(users) && userBinding == old(userBinding)
                && projectsBinding == old(projectsBinding) && versionsBinding == old(versionsBinding)
                && issuesBinding == old(issuesBinding)
      ensures 1 <= config.mode && ok ==>
                userBinding.Keys == Ids(data.users)
                && forall i :: 0 <= i < |users| ==>
                     UserMigrated(Since(connector.log, |old(connector.log)|), userBinding, connector.users, config.mode, users[i].0, users[i].1)
      ensures config.mode == 0 ==> connector.log == old(connector.log) && users == old(users) && userBinding == old(userBinding)
      ensures config.mode <= 3 ==>
                && builder.statements == old(builder.statements) && storage.Snapshot() == old(storage.Snapshot())
                && projectsBinding == old(projectsBinding) && versionsBinding == old(versionsBinding) && issuesBinding == old(issuesBinding)
      ensures config.mode == 4 && ok ==>
                && (exists internals, calls, rids, parts ::
                      && WorkMigrated(Since(connector.log, |old(connector.log)|), internals, calls, rids, parts)
                      && builder.statements == old(builder.statements) + Flatten(parts))
                && issuesBinding.Keys == Ids(data.issues)
                && storage.relations == old(storage.relations) + Deferred(data.issueLinks, issuesBinding)
    {
      ok := Prepare();
      if ok && 1 <= config.mode {
        ghost var internals, calls, rids, parts;
        ok, internals, calls, rids, parts := MigrateAll(tokens);
      }
    }

    /** `migrate` (lib/import.rb:77-148): modes 0 to 4 bind the taxonomy
        and stop on the first gap; modes 1 to 4 then migrate the users and
        mode 4 the projects and issues; mode 5 cleans the storage rows of
        the configured projects and mode 6 settles the relations kept for
        later. `tokens` are the passwords drawn for new accounts. False
        where the run raises. */
    method Migrate(tokens: seq<string>) returns (ok: bool)
      requires Jira.Loaded(data) && |tokens| == |data.users| && builder.Valid()
      modifies this, connector`log, builder, storage
      ensures builder.Valid()
      ensures |connector.log| >= |old(connector.log)| && connector.log[..|old(connector.log)|] == old(connector.log)
      ensures !(0 <= config.mode <= 6) ==>
                ok && connector.log == old(connector.log) && builder.statements == old(builder.statements)
                && storage.Snapshot() == old(storage.Snapshot())
      ensures 0 <= config.mode <= 4 && ok ==>
                defaultRole == Taxonomy.DefaultRole(connector.roles, config.defaultUserRole) && defaultRole.Some? && !Undefined()
      ensures 0 <= config.mode <= 4 && !ok ==>
                defaultRole.None? || Undefined() || Aborted(Since(connector.log, |old(connector.log)|))
      ensures 0 <= config.mode <= 4 && (defaultRole.None? || Undefined()) ==>
                && !ok && connector.log == old(connector.log) && builder.statements == old(builder.statements)
                && storage.Snapshot() == old(storage.Snapshot()) && users == old(users) && userBinding == old(userBinding)
                && projectsBinding == old(projectsBinding) && versionsBinding == old(versionsBinding)
                && issuesBinding == old(issuesBinding)
      ensures 1 <= config.mode <= 4 && ok ==>
                userBinding.Keys == Ids(data.users)
                && forall i :: 0 <= i < |users| ==>
                     UserMigrated(Since(connector.log, |old(connector.log)|), userBinding, connector.users, config.mode, users[i].0, users[i].1)
      ensures config.mode == 0 ==> connector.log == old(connector.log) && users == old(users) && userBinding == old(userBinding)
      ensures 0 <= config.mode <= 3 ==>
                && builder.statements == old(builder.statements) && storage.Snapshot() == old(storage.Snapshot())
                && projectsBinding == old(projectsBinding) && versionsBinding == old(versionsBinding) && issuesBinding == old(issuesBinding)
      ensures config.mode == 4 && ok ==>
                && (exists internals, calls, rids, parts ::
                      && WorkMigrated(Since(connector.log, |old(connector.log)|), internals, calls, rids, parts)
                      && builder.statements == old(builder.statements) + Flatten(parts))
                && issuesBinding.Keys == Ids(data.issues)
                && storage.relations == old(storage.relations) + Deferred(data.issueLinks, issuesBinding)
      ensures config.mode == 5 ==>
                ok && connector.log == old(connector.log)
                && storage.Snapshot() == Storage.CleanupAll(old(storage.Snapshot()), Text.SplitComma(Text.Lower(config.projectToImport)))
      ensures config.mode == 6 ==>
                exists order :: Storage.DrainedBy(old(storage.Snapshot()), order, connector.log[|old(connector.log)|..], storage.relations, ok)
    {
      ok := true;
      if 0 <= config.mode <= 4 {
        ok := MigrateBound(tokens);
      } else if config.mode == 5 {
        storage.CleanupProject(Text.Lower(config.projectToImport));
      } else if config.mode == 6 {
        ghost var order;
        ok, order := storage.UpdateRelations(connector);
      }
    }
  }
}
