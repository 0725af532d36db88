/** The Redmine REST API as the importer sees it through its connector
    (lib/connector.rb): lists fetched once, and create, update and list calls
    that either answer or raise. The transport is not modelled; every call is
    recorded with its answer, and the answer is left open. */
module Redmine {
  import opened Values

  /** An issue status, tracker, priority, role or custom field. */
  datatype Named = Named(id: int, name: string)

  datatype User = User(id: int, login: string, mail: string)

  datatype Project = Project(id: int, identifier: string)

  datatype CustomField = CustomField(id: int, value: string)

  /** The fields `migrate_issues` sends when it creates an issue. */
  datatype IssueFields = IssueFields(
    project: Option<int>, tracker: Option<int>, priority: Option<int>, subject: string,
    customFields: seq<CustomField>, isPrivate: int, estimatedHours: Value, fixedVersion: Value)

  datatype Call =
    | CreateUser(login: string, mail: string, firstname: string, lastname: string, status: string)
    | UpdateUserStatus(user: int, status: string)
    | CreateProject(name: string, identifier: string, description: string)
    | CreateSubproject(name: string, identifier: string, description: string, parent: int)
    | CreateVersion(project: Option<int>, name: string, description: string)
    | CreateIssue(fields: IssueFields)
    | ListMemberships(project: Option<int>)
    | CreateMembership(project: Option<int>, member: Option<int>, role: int)
    | AssignIssue(issue: int, assignee: Option<int>)
    | SetParent(issue: int, parent: int)
    | CreateRelation(from: int, to: int, relationType: string)

  /** How a call ended: it raised (a non-2xx status or an unusable body), or
      it answered. */
  datatype Reply = Raised | Done | Created(id: int) | Members(users: seq<int>)

  datatype Exchange = Exchange(call: Call, reply: Reply)

  /** The calls of a log that created something. */
  function Succeeded(log: seq<Exchange>): set<Call>
  {
    set e | e in log && e.reply.Created? :: e.call
  }

  class Connector {
    const roles: seq<Named>
    const statuses: seq<Named>
    const trackers: seq<Named>
    const priorities: seq<Named>
    const customFields: seq<Named>
    const users: seq<User>
    const projects: seq<Project>
    /** Every call made so far, in order, with its answer. */
    var log: seq<Exchange>

    constructor (roles: seq<Named>, statuses: seq<Named>, trackers: seq<Named>, priorities: seq<Named>,
                 customFields: seq<Named>, users: seq<User>, projects: seq<Project>)
      ensures this.roles == roles && this.statuses == statuses && this.trackers == trackers
      ensures this.priorities == priorities && this.customFields == customFields
      ensures this.users == users && this.projects == projects
      ensures log == []
    {
      this.roles, this.statuses, this.trackers, this.priorities := roles, statuses, trackers, priorities;
      this.customFields, this.users, this.projects := customFields, users, projects;
      log := [];
    }

    /** A POST: the new record's id, or None when the call raised. */
    method Create(call: Call) returns (id: Option<int>)
      modifies this`log
      ensures log == old(log) + [Exchange(call, if id.Some? then Created(id.value) else Raised)]
    {
      var ok: bool := *;
      var n: int := *;
      id := if ok then Some(n) else None;
      log := log + [Exchange(call, if id.Some? then Created(id.value) else Raised)];
    }

    /** A PUT: whether it answered rather than raised. */
    method Update(call: Call) returns (ok: bool)
      modifies this`log
      ensures log == old(log) + [Exchange(call, if ok then Done else Raised)]
    {
      ok := *;
      log := log + [Exchange(call, if ok then Done else Raised)];
    }

    /** A POST whose answer is not used: whether it answered rather than
        raised. */
    method Post(call: Call) returns (ok: bool)
      modifies this`log
      ensures log == old(log) + [Exchange(call, if ok then Done else Raised)]
    {
      ok := *;
      log := log + [Exchange(call, if ok then Done else Raised)];
    }

    /** The ids of a project's members, or None when the call raised. */
    method Memberships(project: Option<int>) returns (members: Option<seq<int>>)
      modifies this`log
      ensures log == old(log) + [Exchange(ListMemberships(project), if members.Some? then Members(members.value) else Raised)]
    {
      var ok: bool := *;
      var ids: seq<int> := *;
      members := if ok then Some(ids) else None;
      log := log + [Exchange(ListMemberships(project), if members.Some? then Members(members.value) else Raised)];
    }
  }
}
