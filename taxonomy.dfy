/** Binding Jira's statuses, issue types, priorities and custom fields to the
    Redmine entries of the same name (lib/import.rb:150-250). A Jira name is
    lowered, replaced by its configured alias when there is one, and matched
    against the lowered Redmine names; the first match wins. Every binding
    step counts the names it could not place, and the import stops when a
    count is positive. */
module Taxonomy {
  import opened Values
  import opened Text
  import Redmine
  import Jira

  /** The special configuration keys that bind a Redmine custom field to the
      issue key and to the labels, with no Jira custom field behind them. */
  const IssueKeyField: string := "%issue key%"
  const LabelField: string := "%label%"

  /** What a Jira name is looked up as: the alias of its lowered form when
      the alias table has one (the alias itself is not lowered), else its
      lowered form. */
  function SearchName(aliases: map<string, string>, name: string): string
  {
    var search := Lower(name);
    if search in aliases then aliases[search] else search
  }

  predicate NameMatches(entry: Redmine.Named, search: string)
  {
    Lower(entry.name) == search
  }

  /** `list.select { |v| v[:name].downcase == search }.first`, as an index. */
  function FirstNamed(list: seq<Redmine.Named>, search: string): (r: Option<nat>)
    ensures r.Some? ==> r.value < |list| && NameMatches(list[r.value], search)
    ensures r.Some? ==> forall j :: 0 <= j < r.value ==> !NameMatches(list[j], search)
    ensures r.None? <==> forall j :: 0 <= j < |list| ==> !NameMatches(list[j], search)
  {
    if list == [] then None
    else if NameMatches(list[0], search) then Some(0)
    else match FirstNamed(list[1..], search)
      case None => None
      case Some(j) => Some(j + 1)
  }

  /** The Redmine id a Jira name binds to, if any. */
  function Target(list: seq<Redmine.Named>, aliases: map<string, string>, name: string): Option<int>
  {
    match FirstNamed(list, SearchName(aliases, name))
    case Some(j) => Some(list[j].id)
    case None => None
  }

  /** The Jira ids whose names match no Redmine entry. */
  function Unbound(source: map<Jira.JiraId, string>, list: seq<Redmine.Named>, aliases: map<string, string>): set<Jira.JiraId>
  {
    set id | id in source && Target(list, aliases, source[id]).None?
  }

  /** `binding` holds exactly the Jira ids that match, each bound to the first
      matching Redmine entry. */
  predicate IsEnumBinding(source: map<Jira.JiraId, string>, list: seq<Redmine.Named>, aliases: map<string, string>,
                          binding: map<Jira.JiraId, int>)
  {
    && binding.Keys <= source.Keys
    && forall id :: id in source ==>
         (id in binding <==> Target(list, aliases, source[id]).Some?)
         && (id in binding ==> binding[id] == Target(list, aliases, source[id]).value)
  }

  /** `prepare_statuses`, `prepare_trackers` and `prepare_priorities`: the
      three differ only in the tables they read. Ruby walks the Jira hash in
      insertion order; each id is bound independently of the others, so the
      order is left open here. */
  method BindEnum(source: map<Jira.JiraId, string>, list: seq<Redmine.Named>, aliases: map<string, string>)
    returns (binding: map<Jira.JiraId, int>, count: nat)
    ensures IsEnumBinding(source, list, aliases, binding)
    ensures count == |Unbound(source, list, aliases)|
    ensures binding.Keys == source.Keys - Unbound(source, list, aliases)
    ensures count == 0 <==> binding.Keys == source.Keys
  {
    binding := map[];
    count := 0;
    ghost var missed: set<Jira.JiraId> := {};
    var todo := source.Keys;
    while todo != {}
      invariant todo <= source.Keys
      invariant forall id :: id in binding <==> id in source && id !in todo && Target(list, aliases, source[id]).Some?
      invariant forall id :: id in missed <==> id in source && id !in todo && Target(list, aliases, source[id]).None?
      invariant forall id :: id in binding ==> Target(list, aliases, source[id]) == Some(binding[id])
      invariant count == |missed|
      decreases |todo|
    {
      var id :| id in todo;
      var found := Target(list, aliases, source[id]);
      if found.Some? {
        binding := binding[id := found.value];
      } else {
        missed := missed + {id};
        count := count + 1;
      }
      todo := todo - {id};
    }
    EnumBound(source, list, aliases, binding, missed);
  }

  /** What the loop of `BindEnum` leaves once every id is visited. */
  lemma EnumBound(source: map<Jira.JiraId, string>, list: seq<Redmine.Named>, aliases: map<string, string>,
                  binding: map<Jira.JiraId, int>, missed: set<Jira.JiraId>)
    requires forall id :: id in binding <==> id in source && Target(list, aliases, source[id]).Some?
    requires forall id :: id in missed <==> id in source && Target(list, aliases, source[id]).None?
    requires forall id :: id in binding ==> Target(list, aliases, source[id]) == Some(binding[id])
    ensures IsEnumBinding(source, list, aliases, binding)
    ensures missed == Unbound(source, list, aliases)
    ensures binding.Keys == source.Keys - missed
    ensures |missed| == 0 <==> binding.Keys == source.Keys
  {
    EnumMissed(source, list, aliases, binding, missed);
  }

  lemma EnumMissed(source: map<Jira.JiraId, string>, list: seq<Redmine.Named>, aliases: map<string, string>,
                   binding: map<Jira.JiraId, int>, missed: set<Jira.JiraId>)
    requires forall id :: id in binding <==> id in source && Target(list, aliases, source[id]).Some?
    requires forall id :: id in missed <==> id in source && Target(list, aliases, source[id]).None?
    ensures missed == Unbound(source, list, aliases)
    ensures binding.Keys == source.Keys - missed
    ensures |missed| == 0 <==> binding.Keys == source.Keys
  {
    assert missed == Unbound(source, list, aliases);
    if binding.Keys == source.Keys {
      forall id | id in source ensures Target(list, aliases, source[id]).Some? {
        assert id in binding;
      }
      assert missed == {};
    }
  }


  /** `prepare_roles`: the first Redmine role whose lowered name equals the
      configured default role name (which is not lowered). */
  function DefaultRole(roles: seq<Redmine.Named>, defaultUserRole: string): (r: Option<Redmine.Named>)
    ensures r.Some? <==> exists j :: 0 <= j < |roles| && NameMatches(roles[j], defaultUserRole)
    ensures r.Some? ==> r.value in roles && Lower(r.value.name) == defaultUserRole
    ensures r.Some? ==> exists j :: 0 <= j < |roles| && roles[j] == r.value
                                  && forall i :: 0 <= i < j ==> !NameMatches(roles[i], defaultUserRole)
  {
    match FirstNamed(roles, defaultUserRole)
    case Some(j) => Some(roles[j])
    case None => None
  }

  // ---- custom fields (lib/import.rb:217-250) ----

  /** One `CUSTOM_FIELDS` configuration entry: Jira field name to Redmine
      field name. */
  datatype FieldEntry = FieldEntry(jiraField: string, redmineField: string)

  /** The Redmine custom field an entry names, looked up without case. */
  function EntryTarget(e: FieldEntry, redmine: seq<Redmine.Named>): Option<int>
  {
    match FirstNamed(redmine, Lower(e.redmineField))
    case Some(j) => Some(redmine[j].id)
    case None => None
  }

  /** The keys an entry binds once its Redmine field is found: a special key
      itself, or every Jira custom field whose name matches without case. */
  function EntryKeys(e: FieldEntry, jira: map<Jira.JiraId, string>): set<string>
  {
    if Lower(e.jiraField) == IssueKeyField then {IssueKeyField}
    else if Lower(e.jiraField) == LabelField then {LabelField}
    else set k | k in jira && Lower(jira[k]) == Lower(e.jiraField)
  }

  /** Whether an entry counts as a miss: its Redmine field is missing, or it
      names an ordinary Jira field that does not exist. */
  predicate EntryMisses(e: FieldEntry, jira: map<Jira.JiraId, string>, redmine: seq<Redmine.Named>)
  {
    EntryTarget(e, redmine).None? || EntryKeys(e, jira) == {}
  }

  /** The binding after the given entries, each later write overriding. */
  function FieldBinding(entries: seq<FieldEntry>, jira: map<Jira.JiraId, string>, redmine: seq<Redmine.Named>): map<string, int>
  {
    if entries == [] then map[]
    else Extend(FieldBinding(entries[..|entries| - 1], jira, redmine), entries[|entries| - 1], jira, redmine)
  }

  /** The binding after one more entry. */
  function Extend(before: map<string, int>, e: FieldEntry, jira: map<Jira.JiraId, string>, redmine: seq<Redmine.Named>): map<string, int>
  {
    match EntryTarget(e, redmine)
    case None => before
    case Some(id) =>
      if Lower(e.jiraField) == IssueKeyField then before[IssueKeyField := id]
      else if Lower(e.jiraField) == LabelField then before[LabelField := id]
      else before + map k | k in EntryKeys(e, jira) :: id
  }

  lemma FieldPrefixStep(entries: seq<FieldEntry>, jira: map<Jira.JiraId, string>, redmine: seq<Redmine.Named>, i: nat)
    requires i < |entries|
    ensures FieldBinding(entries[..i + 1], jira, redmine) == Extend(FieldBinding(entries[..i], jira, redmine), entries[i], jira, redmine)
    ensures FieldMisses(entries[..i + 1], jira, redmine) == FieldMisses(entries[..i], jira, redmine) + if EntryMisses(entries[i], jira, redmine) then 1 else 0
  {
    assert entries[..i + 1][..i] == entries[..i];
  }

  /** The number of entries that miss. */
  function FieldMisses(entries: seq<FieldEntry>, jira: map<Jira.JiraId, string>, redmine: seq<Redmine.Named>): (n: nat)
    ensures n <= |entries|
  {
    if entries == [] then 0
    else FieldMisses(entries[..|entries| - 1], jira, redmine) + (if EntryMisses(entries[|entries| - 1], jira, redmine) then 1 else 0)
  }

  /** An entry that binds `k`. */
  predicate Binds(e: FieldEntry, k: string, jira: map<Jira.JiraId, string>, redmine: seq<Redmine.Named>)
  {
    EntryTarget(e, redmine).Some? && k in EntryKeys(e, jira)
  }

  /** One entry's step: it binds its own keys to its Redmine field and leaves
      every other key as it was. */
  lemma FieldBindingStep(entries: seq<FieldEntry>, jira: map<Jira.JiraId, string>, redmine: seq<Redmine.Named>, k: string)
    requires entries != []
    ensures var e := entries[|entries| - 1];
      var before := FieldBinding(entries[..|entries| - 1], jira, redmine);
      var after := FieldBinding(entries, jira, redmine);
      if Binds(e, k, jira, redmine) then k in after && after[k] == EntryTarget(e, redmine).value
      else (k in after <==> k in before) && (k in before ==> after[k] == before[k])
  {
  }

  /** A key is bound exactly when some entry binds it. */
  lemma {:induction false} FieldBindingKeys(entries: seq<FieldEntry>, jira: map<Jira.JiraId, string>, redmine: seq<Redmine.Named>, k: string)
    ensures k in FieldBinding(entries, jira, redmine) <==> exists i :: 0 <= i < |entries| && Binds(entries[i], k, jira, redmine)
  {
    if entries != [] {
      var init := entries[..|entries| - 1];
      FieldBindingKeys(init, jira, redmine, k);
      FieldBindingStep(entries, jira, redmine, k);
      assert forall i :: 0 <= i < |init| ==> entries[i] == init[i];
    }
  }

  /** A bound key holds the Redmine field of the last entry that binds it. */
  lemma {:induction false} FieldBindingLastWins(entries: seq<FieldEntry>, jira: map<Jira.JiraId, string>, redmine: seq<Redmine.Named>, k: string, i: nat)
    requires i < |entries| && Binds(entries[i], k, jira, redmine)
    requires forall j :: i < j < |entries| ==> !Binds(entries[j], k, jira, redmine)
    ensures k in FieldBinding(entries, jira, redmine)
    ensures FieldBinding(entries, jira, redmine)[k] == EntryTarget(entries[i], redmine).value
  {
    FieldBindingStep(entries, jira, redmine, k);
    if i < |entries| - 1 {
      var init := entries[..|entries| - 1];
      assert init[i] == entries[i];
      FieldBindingLastWins(init, jira, redmine, k, i);
    }
  }

  /** The special keys bind whenever their Redmine field exists, with no
      Jira custom field needed, and such an entry never counts as a miss. */
  lemma SpecialKeysNeedNoJiraField(entries: seq<FieldEntry>, jira: map<Jira.JiraId, string>, redmine: seq<Redmine.Named>, i: nat)
    requires i < |entries| && EntryTarget(entries[i], redmine).Some?
    requires Lower(entries[i].jiraField) == IssueKeyField || Lower(entries[i].jiraField) == LabelField
    ensures Lower(entries[i].jiraField) in FieldBinding(entries, jira, redmine)
    ensures !EntryMisses(entries[i], jira, redmine)
  {
    FieldBindingKeys(entries, jira, redmine, Lower(entries[i].jiraField));
  }

  /** `prepare_customfields`, walking the configuration entries in order. */
  method BindCustomFields(entries: seq<FieldEntry>, jira: map<Jira.JiraId, string>, redmine: seq<Redmine.Named>)
    returns (binding: map<string, int>, count: nat)
    ensures binding == FieldBinding(entries, jira, redmine)
    ensures count == FieldMisses(entries, jira, redmine)
  {
    binding := map[];
    count := 0;
    for i := 0 to |entries|
      invariant binding == FieldBinding(entries[..i], jira, redmine)
      invariant count == FieldMisses(entries[..i], jira, redmine)
    {
      var e := entries[i];
      FieldPrefixStep(entries, jira, redmine, i);
      var target := EntryTarget(e, redmine);
      if target.Some? {
        var id := target.value;
        if Lower(e.jiraField) == IssueKeyField {
          binding := binding[IssueKeyField := id];
        } else if Lower(e.jiraField) == LabelField {
          binding := binding[LabelField := id];
        } else {
          var matching := set k | k in jira && Lower(jira[k]) == Lower(e.jiraField);
          assert matching == EntryKeys(e, jira);
          if matching != {} {
            binding := BindAll(binding, matching, id);
          } else {
            assert binding + (map k | k in matching :: id) == binding;
            count := count + 1;
          }
        }
      } else {
        count := count + 1;
      }
    }
    assert entries[..|entries|] == entries;
  }

  /** `jirafields.each { |k, _v| binding[k] = id }`. */
  method BindAll(before: map<string, int>, keys: set<string>, id: int) returns (binding: map<string, int>)
    ensures binding == before + map k | k in keys :: id
  {
    binding := before;
    var todo := keys;
    while todo != {}
      invariant todo <= keys
      invariant binding.Keys == before.Keys + (keys - todo)
      invariant forall k :: k in binding ==> binding[k] == if k in keys - todo then id else before[k]
      decreases |todo|
    {
      var k :| k in todo;
      binding := binding[k := id];
      todo := todo - {k};
    }
  }
}
