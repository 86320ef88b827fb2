/**
 * The user directory panel (src/components/chat/user-list.tsx): the search filter over the
 * listed users and the status line shown under each name.
 */
module UserList {
  import opened Wrappers
  import opened UserTypes
  import Text
  import Sequences

  /** A listed user as the panel knows it. */
  datatype User = User(
    id: string,
    name: string,
    email: string,
    status: Status,
    avatar: Option<string>,
    lastSeen: Option<string>)

  /** The users the panel lists (see `MockDirectory` for what the panel shows of them). */
  const MockUsers: seq<User> := [
    User("1", "Ana Silva", "ana@email.com", Online, Some(""), None),
    User("2", "Carlos Santos", "carlos@email.com", Away, Some(""), None),
    User("3", "Maria Oliveira", "maria@email.com", Online, Some(""), None),
    User("4", "João Costa", "joao@email.com", Busy, Some(""), None),
    User("5", "Lucia Ferreira", "lucia@email.com", Offline, None, Some("há 2 horas"))
  ]

  /**
   * The search predicate: the lower-cased term occurs in the lower-cased name or e-mail. The empty
   * term matches everyone, and a term that occurs as typed matches too.
   */
  predicate Matches(searchTerm: string, u: User)
    ensures searchTerm == [] ==> Matches(searchTerm, u)
    ensures Text.Contains(u.name, searchTerm) || Text.Contains(u.email, searchTerm) ==>
      Matches(searchTerm, u)
  {
    Text.ContainsToLower(u.name, searchTerm);
    Text.ContainsToLower(u.email, searchTerm);
    var term := Text.ToLower(searchTerm);
    Text.Contains(Text.ToLower(u.name), term) || Text.Contains(Text.ToLower(u.email), term)
  }

  /**
   * `filteredUsers`: the users that match, in the listed order; an empty term keeps everyone.
   */
  function FilteredUsers(users: seq<User>, searchTerm: string): (shown: seq<User>)
    ensures Sequences.IsSubsequence(shown, users)
    ensures forall u :: u in shown <==> u in users && Matches(searchTerm, u)
    ensures searchTerm == [] ==> shown == users
  {
    var keep := (u: User) => Matches(searchTerm, u);
    Sequences.FilterIsSubsequence(keep, users);
    Sequences.FilterKeepsExactly(keep, users);
    if searchTerm == [] then
      Sequences.FilterAll(keep, users);
      Sequences.Filter(keep, users)
    else
      Sequences.Filter(keep, users)
  }

  /** A term that occurs in a name as typed, in any letter case, finds that user. */
  lemma ExactOccurrenceFound(users: seq<User>, searchTerm: string, u: User)
    requires u in users
    requires Text.Contains(u.name, searchTerm) || Text.Contains(u.email, searchTerm)
    ensures u in FilteredUsers(users, searchTerm)
  {
  }

  /** "Nenhum usuário encontrado" is shown exactly when no listed user matches the term. */
  lemma NoUsersFoundIffNoneMatch(users: seq<User>, searchTerm: string)
    ensures FilteredUsers(users, searchTerm) == [] <==>
      forall i :: 0 <= i < |users| ==> !Matches(searchTerm, users[i])
  {
    Sequences.FilterEmpty((u: User) => Matches(searchTerm, u), users);
  }

  /**
   * `getStatusText(user)`: a fixed text per presence state; an offline user shows when they were
   * last seen, falling back to "Offline" when that is missing or empty. Never empty.
   */
  function StatusText(u: User): (text: string)
    ensures text != []
    ensures u.status == Online ==> text == "Online"
    ensures u.status == Away ==> text == "Ausente"
    ensures u.status == Busy ==> text == "Ocupado"
    ensures u.status == Offline ==>
      text == (if u.lastSeen.Some? && u.lastSeen.value != [] then u.lastSeen.value else "Offline")
  {
    match u.status
    case Online => "Online"
    case Away => "Ausente"
    case Busy => "Ocupado"
    case Offline => if u.lastSeen.Some? && u.lastSeen.value != [] then u.lastSeen.value else "Offline"
  }

  /**
   * What the panel shows of its own list: with no search all five users are listed, and the
   * offline user's line is her last-seen text.
   */
  lemma MockDirectory()
    ensures FilteredUsers(MockUsers, "") == MockUsers && |MockUsers| == 5
    ensures StatusText(MockUsers[4]) == "há 2 horas"
    ensures StatusText(MockUsers[1]) == "Ausente"
  {
  }

  /** Searching the panel's list for "ana" finds Ana Silva through her e-mail. */
  lemma MockSearchFindsAna()
    ensures MockUsers[0] in FilteredUsers(MockUsers, "ana")
  {
    var users := MockUsers;
    var ana := users[0];
    assert ana.email == "ana@email.com";
    assert "ana" <= ana.email by {
      assert ana.email[..3] == "ana";
    }
    FindsByEmailPrefix(users, 0, "ana");
  }

  /** A term the user's e-mail starts with finds that user. */
  lemma FindsByEmailPrefix(users: seq<User>, i: nat, term: string)
    requires i < |users| && term <= users[i].email
    ensures users[i] in FilteredUsers(users, term)
  {
    ExactOccurrenceFound(users, term, users[i]);
  }
}
