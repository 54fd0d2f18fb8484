/** The fixed user table of server.js and the lookups over it. */
module Accounts {
  import opened Common

  datatype User = User(id: string, username: string, password: string, score: int, isAdmin: bool, isBlocked: bool)

  function PlayerAccount(n: string): User {
    User(n, "jugador" + n, "clave" + n, 0, false, false)
  }

  /** The accounts the server starts with: ten players and one administrator. */
  const Roster: seq<User> := [
    PlayerAccount("1"), PlayerAccount("2"), PlayerAccount("3"), PlayerAccount("4"), PlayerAccount("5"),
    PlayerAccount("6"), PlayerAccount("7"), PlayerAccount("8"), PlayerAccount("9"), PlayerAccount("10"),
    User("admin", "admin", "admin123", 0, true, false)
  ]

  function UserIds(users: seq<User>): seq<string> {
    seq(|users|, k requires 0 <= k < |users| => users[k].id)
  }

  /** No two users share an id. */
  ghost predicate DistinctUserIds(users: seq<User>) {
    forall i, j :: 0 <= i < j < |users| ==> users[i].id != users[j].id
  }

  /** getUserById: the position of the first user with this id. */
  function FindUser(users: seq<User>, id: string): (r: Option<nat>)
    ensures r.Some? ==> r.value < |users| && users[r.value].id == id &&
                        forall j :: 0 <= j < r.value ==> users[j].id != id
    ensures r.None? <==> forall j :: 0 <= j < |users| ==> users[j].id != id
  {
    if |users| == 0 then None
    else if users[0].id == id then Some(0)
    else
      var rest := FindUser(users[1..], id);
      assert forall j :: 0 < j < |users| ==> users[j] == users[1..][j - 1];
      if rest.None? then None else Some(rest.value + 1)
  }

  /** The login lookup: the first user whose username and password both match. */
  function FindByCredentials(users: seq<User>, username: string, password: string): (r: Option<nat>)
    ensures r.Some? ==> r.value < |users| && users[r.value].username == username && users[r.value].password == password
    ensures r.Some? ==> forall j :: 0 <= j < r.value ==> users[j].username != username || users[j].password != password
    ensures r.None? <==> forall j :: 0 <= j < |users| ==> users[j].username != username || users[j].password != password
  {
    if |users| == 0 then None
    else if users[0].username == username && users[0].password == password then Some(0)
    else
      var rest := FindByCredentials(users[1..], username, password);
      assert forall j :: 0 < j < |users| ==> users[j] == users[1..][j - 1];
      if rest.None? then None else Some(rest.value + 1)
  }

  /** Two tables hold the same accounts: only scores and block flags may differ. */
  ghost predicate SameAccounts(a: seq<User>, b: seq<User>) {
    |a| == |b| &&
    forall k :: 0 <= k < |a| ==>
      a[k].id == b[k].id && a[k].username == b[k].username &&
      a[k].password == b[k].password && a[k].isAdmin == b[k].isAdmin
  }

  lemma {:induction false} SameAccountsFindUser(a: seq<User>, b: seq<User>, id: string)
    requires SameAccounts(a, b)
    ensures FindUser(a, id) == FindUser(b, id)
  {
    if |a| > 0 {
      SameAccountsFindUser(a[1..], b[1..], id);
    }
  }

  lemma {:induction false} SameAccountsFindByCredentials(a: seq<User>, b: seq<User>, name: string, pw: string)
    requires SameAccounts(a, b)
    ensures FindByCredentials(a, name, pw) == FindByCredentials(b, name, pw)
  {
    if |a| > 0 {
      SameAccountsFindByCredentials(a[1..], b[1..], name, pw);
    }
  }

  /** Lookups by id and by credentials only see what SameAccounts keeps. */
  lemma SameAccountsSameLookups(a: seq<User>, b: seq<User>)
    requires SameAccounts(a, b)
    ensures UserIds(a) == UserIds(b)
    ensures forall id :: FindUser(a, id) == FindUser(b, id)
    ensures forall name, pw :: FindByCredentials(a, name, pw) == FindByCredentials(b, name, pw)
  {
    assert UserIds(a) == UserIds(b);
    forall id ensures FindUser(a, id) == FindUser(b, id) {
      SameAccountsFindUser(a, b, id);
    }
    forall name, pw ensures FindByCredentials(a, name, pw) == FindByCredentials(b, name, pw) {
      SameAccountsFindByCredentials(a, b, name, pw);
    }
  }

  /** updateUserScore on the table: the score of user k rises by `points`. */
  function AddScore(users: seq<User>, k: nat, points: int): (r: seq<User>)
    requires k < |users|
    ensures SameAccounts(r, users)
    ensures r[k].score == users[k].score + points
    ensures forall j :: 0 <= j < |users| && j != k ==> r[j] == users[j]
    ensures r[k].isBlocked == users[k].isBlocked
  {
    users[k := users[k].(score := users[k].score + points)]
  }

  /** toggleBlockUser on the table: the block flag of user k flips. */
  function ToggleBlocked(users: seq<User>, k: nat): (r: seq<User>)
    requires k < |users|
    ensures SameAccounts(r, users)
    ensures r[k].isBlocked == !users[k].isBlocked && r[k].score == users[k].score
    ensures forall j :: 0 <= j < |users| && j != k ==> r[j] == users[j]
  {
    users[k := users[k].(isBlocked := !users[k].isBlocked)]
  }

  /** Toggling the same user twice restores the table. */
  lemma ToggleTwiceRestores(users: seq<User>, k: nat)
    requires k < |users|
    ensures ToggleBlocked(ToggleBlocked(users, k), k) == users
  {
    assert ToggleBlocked(ToggleBlocked(users, k), k)[k] == users[k];
  }

  /** The roster has exactly one administrator, `admin`, and ids that are all different. */
  lemma RosterShape()
    ensures forall k :: 0 <= k < |Roster| ==> (Roster[k].isAdmin <==> Roster[k].id == "admin")
    ensures DistinctUserIds(Roster)
  {
  }
}
