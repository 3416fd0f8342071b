/** The LLDAP screen: the menu loop, the user record built by `Create User`, the group
    fallback of `fetch_groups`, and the users table. */
module LldapScreen {
  import opened Wrappers
  import opened Strings
  import opened Tables

  // ================================================================ the menu

  datatype Choice = CreateUser | ListUsers | DeleteUser | ReturnToMainMenu

  /** The choices the `while True` menu acts on before `Return to Main Menu` breaks it. */
  function ActedOn(choices: seq<Choice>): seq<Choice> {
    if choices == [] || choices[0] == ReturnToMainMenu then [] else [choices[0]] + ActedOn(choices[1..])
  }

  /** The menu acts on a prefix of the choices, none of which is `Return to Main Menu`, and stops
      exactly at the first `Return to Main Menu`. */
  lemma {:induction false} ActedOnSpec(choices: seq<Choice>)
    ensures |ActedOn(choices)| <= |choices| && ActedOn(choices) == choices[..|ActedOn(choices)|]
    ensures forall i :: 0 <= i < |ActedOn(choices)| ==> ActedOn(choices)[i] != ReturnToMainMenu
    ensures |ActedOn(choices)| < |choices| ==> choices[|ActedOn(choices)|] == ReturnToMainMenu
  {
    if choices != [] && choices[0] != ReturnToMainMenu {
      ActedOnSpec(choices[1..]);
    }
  }

  /** The menu loop of `pywebio_lldap.py:9-21`; `choices` are the buttons pressed, in order. */
  method Menu(choices: seq<Choice>) returns (acted: seq<Choice>)
    ensures acted == ActedOn(choices)
  {
    acted := [];
    var i := 0;
    while i < |choices|
      invariant 0 <= i <= |choices|
      invariant acted + ActedOn(choices[i..]) == ActedOn(choices)
      invariant forall k :: 0 <= k < i ==> choices[k] != ReturnToMainMenu
    {
      if choices[i] == ReturnToMainMenu {
        break;
      }
      assert choices[i..][1..] == choices[i + 1..];
      acted := acted + [choices[i]];
      i := i + 1;
    }
  }

  // ================================================================ creating a user

  /** One entry of the fetched `groups`. */
  datatype Group = Group(id: int, displayName: string)

  /** `fetch_groups`: the fetched groups, or the empty list when the request fails. */
  function FetchGroups(fetched: Option<seq<Group>>): (r: seq<Group>)
    ensures fetched.None? ==> r == []
    ensures fetched.Some? ==> r == fetched.value
  {
    fetched.GetOr([])
  }

  /** The map from each group's display name to its id in decimal (`pywebio_lldap.py:31`); a later
      group overwrites an earlier one with the same display name. */
  function GroupChoices(groups: seq<Group>): map<string, string> {
    if groups == [] then map[]
    else
      var n := |groups| - 1;
      GroupChoices(groups[..n])[groups[n].displayName := IntToDecimal(groups[n].id)]
  }

  /** Group `i` is the last one with this display name. */
  predicate IsLastNamed(groups: seq<Group>, name: string, i: int) {
    0 <= i < |groups| && groups[i].displayName == name &&
    forall j :: i < j < |groups| ==> groups[j].displayName != name
  }

  /** Some group carries this display name. */
  predicate HasNamed(groups: seq<Group>, name: string) {
    exists i :: 0 <= i < |groups| && groups[i].displayName == name
  }

  /** The choices offer every display name and no other. */
  lemma {:induction false} GroupChoicesKeys(groups: seq<Group>, name: string)
    ensures name in GroupChoices(groups) <==> HasNamed(groups, name)
  {
    if groups != [] {
      var n := |groups| - 1;
      var front := groups[..n];
      GroupChoicesKeys(front, name);
      if HasNamed(front, name) {
        var i :| 0 <= i < n && front[i].displayName == name;
        assert groups[i] == front[i];
      }
      if HasNamed(groups, name) && groups[n].displayName != name {
        var i :| 0 <= i < |groups| && groups[i].displayName == name;
        assert front[i] == groups[i];
      }
    }
  }

  /** With duplicate display names the last group wins. */
  lemma {:induction false} GroupChoicesLastWins(groups: seq<Group>, name: string)
    requires name in GroupChoices(groups)
    ensures exists i :: IsLastNamed(groups, name, i) && GroupChoices(groups)[name] == IntToDecimal(groups[i].id)
  {
    var n := |groups| - 1;
    var front := groups[..n];
    var g := groups[n];
    assert GroupChoices(groups) == GroupChoices(front)[g.displayName := IntToDecimal(g.id)];
    if g.displayName == name {
      assert GroupChoices(groups)[name] == IntToDecimal(g.id);
      assert IsLastNamed(groups, name, n);
    } else {
      assert GroupChoices(groups)[name] == GroupChoices(front)[name];
      GroupChoicesLastWins(front, name);
      var i :| IsLastNamed(front, name, i) && GroupChoices(front)[name] == IntToDecimal(front[i].id);
      assert groups[i] == front[i];
      assert IsLastNamed(groups, name, i);
    }
  }

  /** The JSON body posted to `/v1/lldap/users`. */
  datatype UserData = UserData(id: string, email: string, displayName: string,
                               firstName: string, lastName: string, groupId: int)

  const EmailDomain := "@infinigate-labs.com"

  /** The user id (`pywebio_lldap.py:37`): both names lower-cased, joined by a dot. */
  function UserId(firstName: string, lastName: string): string {
    Lower(firstName) + "." + Lower(lastName)
  }

  /** `create_lldap_user` for the selected group name: `None` where the lookup raises
      `KeyError` or `int` raises `ValueError`. */
  function CreateUserData(firstName: string, lastName: string, groups: seq<Group>, selected: string): Option<UserData> {
    var choices := GroupChoices(groups);
    if selected !in choices then None
    else match ParseInt(choices[selected])
      case None => None
      case Some(gid) =>
        Some(UserData(UserId(firstName, lastName), UserId(firstName, lastName) + EmailDomain,
                      firstName + " " + lastName, firstName, lastName, gid))
  }

  /** A user record is built exactly when the selected name is a group's display name. Its id is
      the two names lower-cased around a dot, the email is that id at the lab domain, the
      display name joins the names with a space, the names are kept as typed, and the group id
      is the id of the last group with the selected name. */
  lemma CreateUserDataSpec(firstName: string, lastName: string, groups: seq<Group>, selected: string)
    ensures CreateUserData(firstName, lastName, groups, selected).Some? <==>
            exists i :: 0 <= i < |groups| && groups[i].displayName == selected
    ensures var u := CreateUserData(firstName, lastName, groups, selected);
      u.Some? ==>
        && u.value.id == Lower(firstName) + "." + Lower(lastName)
        && u.value.email == u.value.id + EmailDomain
        && u.value.displayName == firstName + " " + lastName
        && u.value.firstName == firstName && u.value.lastName == lastName
        && exists i :: IsLastNamed(groups, selected, i) && u.value.groupId == groups[i].id
  {
    GroupChoicesKeys(groups, selected);
    if selected in GroupChoices(groups) {
      GroupChoicesLastWins(groups, selected);
      var i :| IsLastNamed(groups, selected, i) && GroupChoices(groups)[selected] == IntToDecimal(groups[i].id);
      ParseIntOfDecimal(groups[i].id);
    }
  }

  /** When the group fetch fails there is nothing to select, so no user is created. */
  lemma NoGroupsNoUser(firstName: string, lastName: string, selected: string)
    ensures CreateUserData(firstName, lastName, FetchGroups(None), selected) == None
  {
    CreateUserDataSpec(firstName, lastName, [], selected);
  }

  /** The user id holds no upper-case ASCII letter. */
  lemma UserIdLowerCase(firstName: string, lastName: string)
    ensures forall i :: 0 <= i < |UserId(firstName, lastName)| ==> !('A' <= UserId(firstName, lastName)[i] <= 'Z')
    ensures |UserId(firstName, lastName)| == |firstName| + |lastName| + 1
  {
    var u := UserId(firstName, lastName);
    forall i | 0 <= i < |u| ensures !('A' <= u[i] <= 'Z') {
      if i < |firstName| {
        assert u[i] == LowerChar(firstName[i]);
      } else if i > |firstName| {
        assert u[i] == LowerChar(lastName[i - |firstName| - 1]);
      }
    }
  }

  // ================================================================ listing users

  /** One entry of the fetched `users`; a key may be absent. */
  datatype User = User(id: Option<string>, email: Option<string>, displayName: Option<string>,
                       firstName: Option<string>, lastName: Option<string>)

  const UserHeader: Row := Header(["ID", "Email", "Display Name", "First Name", "Last Name"])

  /** A user's row (`pywebio_lldap.py:78-84`): id, email, display name, first and last name, each
      `N/A` when absent. */
  function UserRow(u: User): Row {
    [Text(u.id.GetOr("N/A")), Text(u.email.GetOr("N/A")), Text(u.displayName.GetOr("N/A")),
     Text(u.firstName.GetOr("N/A")), Text(u.lastName.GetOr("N/A"))]
  }

  /** Every cell of a user row is the field when present and `N/A` when absent. */
  lemma UserRowSpec(u: User)
    ensures |UserRow(u)| == 5
    ensures var fields := [u.id, u.email, u.displayName, u.firstName, u.lastName];
      forall k :: 0 <= k < 5 ==>
        (fields[k].Some? ==> UserRow(u)[k] == Text(fields[k].value)) &&
        (fields[k].None? ==> UserRow(u)[k] == Text("N/A"))
  {
  }

  /** The `List Users` branch; `None` stands for a failed request. */
  method ListUsers(fetched: Option<seq<User>>) returns (screen: Screen)
    ensures fetched.None? ==> screen == ShowError("Failed to retrieve users")
    ensures fetched == Some([]) ==> screen == ShowText("No users found")
    ensures fetched.Some? && fetched.value != [] ==> (
      && screen.ShowTable?
      && |screen.table| == |fetched.value| + 1 && screen.table[0] == UserHeader
      && forall i :: 0 <= i < |fetched.value| ==> screen.table[i + 1] == UserRow(fetched.value[i]))
  {
    if fetched.None? {
      return ShowError("Failed to retrieve users");
    }
    var users := fetched.value;
    if users == [] {
      return ShowText("No users found");
    }
    var table: Table := [UserHeader];
    for i := 0 to |users|
      invariant |table| == i + 1 && table[0] == UserHeader
      invariant forall k :: 0 <= k < i ==> table[k + 1] == UserRow(users[k])
    {
      table := table + [UserRow(users[i])];
    }
    return ShowTable(table);
  }
}
