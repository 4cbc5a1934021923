/** The login screen (main.py:74-82): a fixed table maps each user name to
    its password and the role the session is given. */
module Login {
  import opened Optional

  /** The two interface languages of the sidebar selector (main.py:65). */
  datatype Language = Francais | Arabic

  /** The director's role is the translated label `role_dir` (main.py:52, 58). */
  function DirectorRole(lang: Language): string
  {
    match lang
    case Francais => "Directeur"
    case Arabic => "المدير العام"
  }

  datatype Credential = Credential(password: string, role: string)

  /** The `access` table (main.py:79). */
  function AccessTable(lang: Language): map<string, Credential>
  {
    map[
      "admin" := Credential("egms2025", DirectorRole(lang)),
      "magaza" := Credential("store2025", "Store"),
      "safety" := Credential("safe2025", "Safety"),
      "equip" := Credential("equip2025", "Equip"),
      "work" := Credential("work2025", "Work")]
  }

  /** The role a user name and password log in with, or None when the user
      name is unknown or the password is not the stored one (main.py:80). */
  function CheckLogin(lang: Language, user: string, pwd: string): (role: Option<string>)
    ensures role.Some? <==> user in AccessTable(lang) && pwd == AccessTable(lang)[user].password
    ensures role.Some? ==> role.value == AccessTable(lang)[user].role
  {
    var table := AccessTable(lang);
    if user in table && pwd == table[user].password then Some(table[user].role) else None
  }

  /** The pairs of user name and password that open a session, listed outright. */
  function AcceptedPairs(): set<(string, string)>
  {
    {("admin", "egms2025"), ("magaza", "store2025"), ("safety", "safe2025"),
     ("equip", "equip2025"), ("work", "work2025")}
  }

  /** Exactly the five listed pairs log in, whatever the language. */
  lemma LoginAcceptsExactlyListedPairs(lang: Language, user: string, pwd: string)
    ensures CheckLogin(lang, user, pwd).Some? <==> (user, pwd) in AcceptedPairs()
  {
    var table := AccessTable(lang);
    if (user, pwd) in AcceptedPairs() {
      assert user in table;
    }
  }

  /** A password opens only its own user's session. */
  lemma PasswordsAreNotShared(lang: Language, u1: string, u2: string, pwd: string)
    requires CheckLogin(lang, u1, pwd).Some? && CheckLogin(lang, u2, pwd).Some?
    ensures u1 == u2
  {
    LoginAcceptsExactlyListedPairs(lang, u1, pwd);
    LoginAcceptsExactlyListedPairs(lang, u2, pwd);
  }

  /** Each user gets a role of their own, so the role tells which account logged in. */
  lemma RoleIdentifiesUser(lang: Language, u1: string, p1: string, u2: string, p2: string)
    requires CheckLogin(lang, u1, p1).Some? && CheckLogin(lang, u2, p2).Some?
    requires CheckLogin(lang, u1, p1) == CheckLogin(lang, u2, p2)
    ensures u1 == u2
  {
    LoginAcceptsExactlyListedPairs(lang, u1, p1);
    LoginAcceptsExactlyListedPairs(lang, u2, p2);
  }

  /** Only the "magaza" account can reach the store form. */
  lemma StoreRoleIsMagaza(lang: Language, user: string, pwd: string)
    ensures CheckLogin(lang, user, pwd) == Some("Store") <==> user == "magaza" && pwd == "store2025"
  {
    LoginAcceptsExactlyListedPairs(lang, user, pwd);
  }

  /** The director's role is stored as the label of the language chosen at
      login, so the two languages give the same account different roles. */
  lemma DirectorRoleDependsOnLanguage()
    ensures CheckLogin(Francais, "admin", "egms2025") == Some(DirectorRole(Francais))
    ensures CheckLogin(Arabic, "admin", "egms2025") == Some(DirectorRole(Arabic))
    ensures DirectorRole(Francais) != DirectorRole(Arabic)
  {
    assert DirectorRole(Francais)[0] != DirectorRole(Arabic)[0];
  }

  /** The part of the Streamlit session state the login writes. */
  class SessionState {
    var loggedIn: bool
    var role: Option<string>

    constructor ()
      ensures !loggedIn && role == None
    {
      loggedIn, role := false, None;
    }

    /** Pressing "Enter" on the login form: on a match the session becomes
        logged in with the entry's role, otherwise nothing changes (main.py:78-81). */
    method Enter(lang: Language, user: string, pwd: string) returns (ok: bool)
      requires !loggedIn
      modifies this
      ensures ok <==> CheckLogin(lang, user, pwd).Some?
      ensures ok ==> loggedIn && role == CheckLogin(lang, user, pwd)
      ensures !ok ==> loggedIn == old(loggedIn) && role == old(role)
    {
      var table := AccessTable(lang);
      if user in table && pwd == table[user].password {
        loggedIn, role := true, Some(table[user].role);
        ok := true;
      } else {
        ok := false;
      }
    }
  }
}
