/** How `migrate_users` rewrites each Jira user before creating or updating
    its Redmine account (lib/import.rb:252-294), and how `get_user_id` finds
    a Jira user from a login (lib/import.rb:616-622). The loop itself, which
    calls Redmine, is `Migration.Import.MigrateUsers`. */
module Users {
  import opened Values
  import opened Text
  import Redmine
  import Jira

  /** The mail a user gets before any decoration: stripped, lowered, and
      followed by the configured mail domain postfix. */
  function NormalMail(mail: string, postfix: string): string
  {
    Lower(Strip(mail)) + postfix
  }

  function NormalLogin(login: string): string
  {
    Lower(Strip(login))
  }

  /** Lines 258-261. The stripped last name is written under a misspelt key,
      so the last name itself keeps its surrounding whitespace. */
  function Normalize(u: Jira.User, postfix: string): (r: Jira.User)
    ensures r.login == NormalLogin(u.login) && r.mail == NormalMail(u.mail, postfix)
    ensures r.firstname == Strip(u.firstname) && r.lastname == u.lastname
    ensures r.status == u.status && r.displayName == u.displayName
  {
    u.(login := NormalLogin(u.login), mail := NormalMail(u.mail, postfix), firstname := Strip(u.firstname))
  }

  /** Lines 264-274: a user without a first name takes the display name,
      split at its first whitespace into first and last name when it has
      two parts; a name still empty becomes "Unknown". */
  function FillNames(u: Jira.User): (r: Jira.User)
    ensures u.firstname != [] ==> r == u
    ensures u.firstname == [] ==> r.firstname != [] && r.lastname != []
    ensures u.firstname == [] && |SplitFirstWord(u.displayName)| == 2 ==>
              && r.firstname == SplitFirstWord(u.displayName)[0]
              && r.lastname == (if SplitFirstWord(u.displayName)[1] == [] then "Unknown" else SplitFirstWord(u.displayName)[1])
    ensures u.firstname == [] && |SplitFirstWord(u.displayName)| != 2 ==>
              && r.firstname == (if u.displayName == [] then "Unknown" else u.displayName)
              && r.lastname == (if u.lastname == [] then "Unknown" else u.lastname)
    ensures r.login == u.login && r.mail == u.mail && r.status == u.status && r.displayName == u.displayName
  {
    if u.firstname != [] then u
    else
      var names := SplitFirstWord(u.displayName);
      var v := if |names| == 2 then u.(firstname := names[0], lastname := names[1]) else u.(firstname := u.displayName);
      var first := if v.firstname == [] then "Unknown" else v.firstname;
      var last := if v.lastname == [] then "Unknown" else v.lastname;
      v.(firstname := first, lastname := last)
  }

  /** A display name made of a word, one space and more words is split
      into exactly those parts. */
  lemma FillNamesSplitsDisplayName(u: Jira.User, first: string, last: string)
    requires u.firstname == [] && u.displayName == first + " " + last
    requires first != [] && forall k :: 0 <= k < |first| ==> !IsSpace(first[k])
    requires last != [] && !IsSpace(last[0])
    ensures FillNames(u).firstname == first && FillNames(u).lastname == last
  {
    SplitFirstWordJoin(first, last);
  }

  /** `redmine_users.find { |v| v[:login].downcase == login }`. */
  function ExistingUser(redmineUsers: seq<Redmine.User>, login: string): (r: Option<Redmine.User>)
    ensures r.None? <==> forall j :: 0 <= j < |redmineUsers| ==> Lower(redmineUsers[j].login) != login
    ensures r.Some? ==> exists j :: 0 <= j < |redmineUsers| && redmineUsers[j] == r.value
                                  && Lower(r.value.login) == login
                                  && forall i :: 0 <= i < j ==> Lower(redmineUsers[i].login) != login
  {
    if redmineUsers == [] then None
    else if Lower(redmineUsers[0].login) == login then Some(redmineUsers[0])
    else
      var r := ExistingUser(redmineUsers[1..], login);
      if r.Some? then
        ghost var j :| 0 <= j < |redmineUsers[1..]| && redmineUsers[1..][j] == r.value
                      && Lower(r.value.login) == login
                      && forall i :: 0 <= i < j ==> Lower(redmineUsers[1..][i].login) != login;
        assert redmineUsers[j + 1] == r.value;
        r
      else r
  }

  /** Whether the user goes through the create-or-patch branch (line 263):
      no Redmine account yet, or running mode 2 or 3. */
  predicate InBranch(existing: Option<Redmine.User>, mode: int)
  {
    existing.None? || 2 <= mode <= 3
  }

  /** Line 275: the mail is already used in this run, or it belongs to a
      Redmine account other than the user's own. */
  predicate Taken(mail: string, used: set<string>, existing: Option<Redmine.User>, redmineUsers: seq<Redmine.User>)
  {
    mail in used
    || (existing.Some? && exists j :: 0 <= j < |redmineUsers| && redmineUsers[j].mail == mail && redmineUsers[j].id != existing.value.id)
  }

  /** The random token drawn for a taken mail does not produce a mail that is
      in use already. */
  predicate FreshToken(token: string, mail: string, used: set<string>)
  {
    token + "_" + mail !in used
  }

  /** Lines 258-279: one user as `migrate_users` leaves it. `used` is the set
      of mails recorded for the users before it. */
  function Prepare(u: Jira.User, redmineUsers: seq<Redmine.User>, used: set<string>, mode: int, postfix: string, token: string): Jira.User
  {
    var n := Normalize(u, postfix);
    var existing := ExistingUser(redmineUsers, n.login);
    if InBranch(existing, mode) then
      var f := FillNames(n);
      var mail := if Taken(f.mail, used, existing, redmineUsers) then token + "_" + f.mail else f.mail;
      var status := if mode == 2 then "1" else f.status;
      f.(mail := mail, status := status)
    else n
  }

  /** What `Prepare` does to a user: the login is normalised; the mail is
      normalised and, in the create-or-patch branch, prefixed with the token
      when taken; mode 2 activates the account; outside the branch nothing
      but the normalisation happens. */
  lemma PrepareEffect(u: Jira.User, redmineUsers: seq<Redmine.User>, used: set<string>, mode: int, postfix: string, token: string)
    ensures var r := Prepare(u, redmineUsers, used, mode, postfix, token);
      var existing := ExistingUser(redmineUsers, NormalLogin(u.login));
      var mail := NormalMail(u.mail, postfix);
      && r.login == NormalLogin(u.login)
      && (if InBranch(existing, mode) && Taken(mail, used, existing, redmineUsers) then r.mail == token + "_" + mail else r.mail == mail)
      && (InBranch(existing, mode) ==> r.firstname != [] || Strip(u.firstname) != [])
      && (InBranch(existing, mode) && mode == 2 ==> r.status == "1")
      && (!InBranch(existing, mode) ==> r == Normalize(u, postfix))
  {
  }

  /** In the create-or-patch branch, a fresh token leaves the user with a
      mail that is not used yet. */
  lemma PrepareFreshMail(u: Jira.User, redmineUsers: seq<Redmine.User>, used: set<string>, mode: int, postfix: string, token: string)
    requires InBranch(ExistingUser(redmineUsers, NormalLogin(u.login)), mode)
    requires FreshToken(token, NormalMail(u.mail, postfix), used)
    ensures Prepare(u, redmineUsers, used, mode, postfix, token).mail !in used
  {
    PrepareEffect(u, redmineUsers, used, mode, postfix, token);
  }

  /** The mails of the users processed so far: the keys of `used_email`. */
  function Mails(done: seq<Jira.User>): set<string>
  {
    if done == [] then {} else Mails(done[..|done| - 1]) + {done[|done| - 1].mail}
  }

  lemma {:induction false} MailsHas(done: seq<Jira.User>, i: nat)
    requires i < |done|
    ensures done[i].mail in Mails(done)
  {
    if i < |done| - 1 {
      MailsHas(done[..|done| - 1], i);
    }
  }

  /** `Prepare` with the Redmine users, the mode and the mail postfix of one
      run fixed. */
  function Preparer(redmineUsers: seq<Redmine.User>, mode: int, postfix: string): (Jira.User, set<string>, string) -> Jira.User
  {
    (u: Jira.User, used: set<string>, token: string) => Prepare(u, redmineUsers, used, mode, postfix, token)
  }

  /** `step` applied to every user in order, each seeing the mails of the
      results before it. */
  function InOrder(step: (Jira.User, set<string>, string) -> Jira.User, users: seq<Jira.User>, tokens: seq<string>): (r: seq<Jira.User>)
    requires |tokens| == |users|
    ensures |r| == |users|
  {
    if users == [] then []
    else
      var n := |users| - 1;
      var init := InOrder(step, users[..n], tokens[..n]);
      init + [step(users[n], Mails(init), tokens[n])]
  }

  lemma {:induction false} InOrderPrefix(step: (Jira.User, set<string>, string) -> Jira.User, users: seq<Jira.User>, tokens: seq<string>, k: nat)
    requires |tokens| == |users| && k <= |users|
    ensures InOrder(step, users, tokens)[..k] == InOrder(step, users[..k], tokens[..k])
  {
    if k < |users| {
      var n := |users| - 1;
      InOrderPrefix(step, users[..n], tokens[..n], k);
      assert users[..n][..k] == users[..k];
      assert tokens[..n][..k] == tokens[..k];
    } else {
      assert users[..k] == users && tokens[..k] == tokens;
    }
  }

  lemma InOrderAt(step: (Jira.User, set<string>, string) -> Jira.User, users: seq<Jira.User>, tokens: seq<string>, j: nat)
    requires |tokens| == |users| && j < |users|
    ensures InOrder(step, users, tokens)[j] == step(users[j], Mails(InOrder(step, users[..j], tokens[..j])), tokens[j])
  {
    InOrderPrefix(step, users, tokens, j + 1);
    var us := users[..j + 1];
    var ts := tokens[..j + 1];
    assert us[..j] == users[..j] && ts[..j] == tokens[..j];
    assert InOrder(step, users, tokens)[..j + 1][j] == InOrder(step, us, ts)[j];
  }

  /** Every user in order, each seeing the mails of those before it. */
  function PrepareAll(users: seq<Jira.User>, redmineUsers: seq<Redmine.User>, mode: int, postfix: string, tokens: seq<string>): (r: seq<Jira.User>)
    requires |tokens| == |users|
    ensures |r| == |users|
  {
    InOrder(Preparer(redmineUsers, mode, postfix), users, tokens)
  }

  /** Processing a prefix of the users gives a prefix of the result. */
  lemma PrepareAllPrefix(users: seq<Jira.User>, redmineUsers: seq<Redmine.User>, mode: int, postfix: string, tokens: seq<string>, k: nat)
    requires |tokens| == |users| && k <= |users|
    ensures PrepareAll(users, redmineUsers, mode, postfix, tokens)[..k] == PrepareAll(users[..k], redmineUsers, mode, postfix, tokens[..k])
  {
    InOrderPrefix(Preparer(redmineUsers, mode, postfix), users, tokens, k);
  }

  /** The user at position j is prepared against the mails of the users
      before it. */
  lemma PrepareAllAt(users: seq<Jira.User>, redmineUsers: seq<Redmine.User>, mode: int, postfix: string, tokens: seq<string>, j: nat)
    requires |tokens| == |users| && j < |users|
    ensures PrepareAll(users, redmineUsers, mode, postfix, tokens)[j]
         == Prepare(users[j], redmineUsers, Mails(PrepareAll(users[..j], redmineUsers, mode, postfix, tokens[..j])), mode, postfix, tokens[j])
  {
    InOrderAt(Preparer(redmineUsers, mode, postfix), users, tokens, j);
  }

  /** A user in the create-or-patch branch whose random token is fresh ends
      with a mail no earlier user has: `used_email` keeps the mails of one
      run apart. */
  lemma BranchMailsDistinct(users: seq<Jira.User>, redmineUsers: seq<Redmine.User>, mode: int, postfix: string, tokens: seq<string>, i: nat, j: nat)
    requires |tokens| == |users| && i < j < |users|
    requires InBranch(ExistingUser(redmineUsers, NormalLogin(users[j].login)), mode)
    requires FreshToken(tokens[j], NormalMail(users[j].mail, postfix), Mails(PrepareAll(users[..j], redmineUsers, mode, postfix, tokens[..j])))
    ensures PrepareAll(users, redmineUsers, mode, postfix, tokens)[i].mail != PrepareAll(users, redmineUsers, mode, postfix, tokens)[j].mail
  {
    var out := PrepareAll(users, redmineUsers, mode, postfix, tokens);
    var before := PrepareAll(users[..j], redmineUsers, mode, postfix, tokens[..j]);
    PrepareAllAt(users, redmineUsers, mode, postfix, tokens, j);
    PrepareFreshMail(users[j], redmineUsers, Mails(before), mode, postfix, tokens[j]);
    PrepareAllPrefix(users, redmineUsers, mode, postfix, tokens, j);
    assert out[i] == out[..j][i] == before[i];
    MailsHas(before, i);
  }

  /** The index of the first user whose login is exactly `login`. */
  function FirstLogin(users: Jira.Table<Jira.User>, login: string): (r: Option<nat>)
    ensures r.Some? ==> r.value < |users| && users[r.value].1.login == login
    ensures r.Some? ==> forall j :: 0 <= j < r.value ==> users[j].1.login != login
    ensures r.None? <==> forall j :: 0 <= j < |users| ==> users[j].1.login != login
  {
    if users == [] then None
    else if users[0].1.login == login then Some(0)
    else match FirstLogin(users[1..], login)
      case None => None
      case Some(j) => Some(j + 1)
  }

  /** The index of the first alias whose user key is exactly `login`. */
  function FirstAlias(aliases: Jira.Table<Jira.UserAlias>, login: string): (r: Option<nat>)
    ensures r.Some? ==> r.value < |aliases| && aliases[r.value].1.userKey == login
    ensures r.Some? ==> forall j :: 0 <= j < r.value ==> aliases[j].1.userKey != login
    ensures r.None? <==> forall j :: 0 <= j < |aliases| ==> aliases[j].1.userKey != login
  {
    if aliases == [] then None
    else if aliases[0].1.userKey == login then Some(0)
    else match FirstAlias(aliases[1..], login)
      case None => None
      case Some(j) => Some(j + 1)
  }

  /** `get_user_id`: the id of the first user with this login; failing that,
      of the first user whose login is the lower user name of the first
      alias with this user key. */
  function GetUserId(users: Jira.Table<Jira.User>, aliases: Jira.Table<Jira.UserAlias>, login: string): (r: Option<Jira.JiraId>)
    ensures forall i :: 0 <= i < |users| && users[i].1.login == login && (forall j :: 0 <= j < i ==> users[j].1.login != login)
              ==> r == Some(users[i].0)
    ensures r.Some? ==> exists i :: 0 <= i < |users| && users[i].0 == r.value
    ensures ((forall i :: 0 <= i < |users| ==> users[i].1.login != login)
             && (forall a :: 0 <= a < |aliases| ==> aliases[a].1.userKey != login)) ==> r.None?
    ensures (forall i :: 0 <= i < |users| ==> users[i].1.login != login) && FirstAlias(aliases, login).Some? ==>
              var name := aliases[FirstAlias(aliases, login).value].1.lowerUserName;
              && (r.None? <==> forall i :: 0 <= i < |users| ==> users[i].1.login != name)
              && forall i :: 0 <= i < |users| && users[i].1.login == name && (forall j :: 0 <= j < i ==> users[j].1.login != name)
                   ==> r == Some(users[i].0)
  {
    match FirstLogin(users, login)
    case Some(i) => Some(users[i].0)
    case None =>
      match FirstAlias(aliases, login)
      case None => None
      case Some(a) =>
        match FirstLogin(users, aliases[a].1.lowerUserName)
        case Some(i) => Some(users[i].0)
        case None => None
  }

  /** The Redmine user a Jira login stands for in journals, worklogs and
      attachments: its bound account, or the configured anonymous user
      (lib/import.rb:375-376 and the same pattern at 390-391, 404-405,
      458-459, 482-483). */
  function Actor(users: Jira.Table<Jira.User>, aliases: Jira.Table<Jira.UserAlias>, binding: map<Jira.JiraId, int>,
                 anonymous: Value, login: string): (v: Value)
    ensures v == anonymous || exists id :: id in binding && v == Int(binding[id])
    ensures forall i :: (0 <= i < |users| && users[i].1.login == login && (forall j :: 0 <= j < i ==> users[j].1.login != login)
                         && users[i].0 in binding) ==> v == Int(binding[users[i].0])
    ensures GetUserId(users, aliases, login).None? ==> v == anonymous
  {
    match GetUserId(users, aliases, login)
    case Some(id) => if id in binding then Int(binding[id]) else anonymous
    case None => anonymous
  }
}
