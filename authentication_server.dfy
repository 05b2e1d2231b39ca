/** The user table of the authentication server: a module-level list of
    users that signup appends to, and the credential checks that login and
    the protected data route perform on it. Passwords are stored and compared
    as plain strings. */
module AuthenticationServer {

  import opened Wrappers

  /** One user as stored in the table. */
  datatype User = User(id: int, email: string, password: string, firstName: string, lastName: string)

  /** What the server reveals about a user: everything except the id and the
      password. */
  datatype PublicUser = PublicUser(email: string, firstName: string, lastName: string)

  /** The signup status: 201 or 400. */
  datatype SignupStatus = Created | BadRequest

  /** The answer of a credential-checked route: 200 with a body, or 401. */
  datatype Authorized<T> = Granted(body: T) | Unauthorized

  /** The public fields of a user, as the `/login` and `/data` replies
      build them. */
  function Public(u: User): PublicUser
  {
    PublicUser(u.email, u.firstName, u.lastName)
  }

  /** The test `loginUser` applies to each user: both email and password
      are equal to the supplied ones. */
  predicate Matches(u: User, email: string, password: string)
  {
    u.email == email && u.password == password
  }

  /** No two users in the table share an email. */
  ghost predicate EmailsUnique(users: seq<User>)
  {
    forall i, j :: 0 <= i < j < |users| ==> users[i].email != users[j].email
  }

  /** `checkUserExists`: whether some user has `email`. */
  function CheckUserExists(users: seq<User>, email: string): (b: bool)
    ensures b <==> exists j :: 0 <= j < |users| && users[j].email == email
  {
    if |users| == 0 then false
    else users[0].email == email || CheckUserExists(users[1..], email)
  }

  /** `loginUser`: the first user whose email and password both match, or
      nothing when no user matches both. */
  function LoginUser(users: seq<User>, email: string, password: string): (r: Option<User>)
    ensures r.None? <==> forall j :: 0 <= j < |users| ==> !Matches(users[j], email, password)
    ensures r.Some? ==>
      exists k :: 0 <= k < |users| && users[k] == r.value && Matches(users[k], email, password) &&
        forall j :: 0 <= j < k ==> !Matches(users[j], email, password)
  {
    if |users| == 0 then None
    else if Matches(users[0], email, password) then Some(users[0])
    else
      var r := LoginUser(users[1..], email, password);
      assert r.Some? ==> exists k :: (0 <= k < |users| && users[k] == r.value && Matches(users[k], email, password) &&
                                      forall j :: 0 <= j < k ==> !Matches(users[j], email, password)) by {
        if r.Some? {
          var k :| 0 <= k < |users| - 1 && users[1..][k] == r.value && Matches(users[1..][k], email, password) &&
            forall j :: 0 <= j < k ==> !Matches(users[1..][j], email, password);
          assert users[k + 1] == r.value;
          assert forall j :: 0 <= j < k + 1 ==> !Matches(users[j], email, password) by {
            forall j | 0 <= j < k + 1 ensures !Matches(users[j], email, password) {
              if j > 0 { assert users[j] == users[1..][j - 1]; }
            }
          }
        }
      }
      r
  }

  /** The projection of the `/data` route: every user in table order, with
      the password dropped. */
  function PublicList(users: seq<User>): (r: seq<PublicUser>)
    ensures |r| == |users|
    ensures forall i :: 0 <= i < |users| ==> r[i] == Public(users[i])
  {
    if |users| == 0 then [] else [Public(users[0])] + PublicList(users[1..])
  }

  /** On a table with unique emails, logging in with a registered email
      succeeds exactly when the password is that user's, and yields that
      user. */
  lemma LoginOnUniqueTable(users: seq<User>, k: int, password: string)
    requires EmailsUnique(users)
    requires 0 <= k < |users|
    ensures LoginUser(users, users[k].email, password) ==
      (if users[k].password == password then Some(users[k]) else None)
  {
  }

  /** Appending a user whose email is not yet taken keeps emails unique. */
  lemma AppendKeepsEmailsUnique(users: seq<User>, u: User)
    requires EmailsUnique(users)
    requires !CheckUserExists(users, u.email)
    ensures EmailsUnique(users + [u])
  {
  }

  /** After a successful signup the new email is taken, so a second signup
      with it is refused, and the new credentials log in as the new user. */
  lemma {:induction false} SignupThenLogin(users: seq<User>, u: User)
    requires !CheckUserExists(users, u.email)
    ensures CheckUserExists(users + [u], u.email)
    ensures LoginUser(users + [u], u.email, u.password) == Some(u)
  {
    var s := users + [u];
    assert s[|users|] == u;
    assert forall j :: 0 <= j < |users| ==> s[j] == users[j];
    var r := LoginUser(s, u.email, u.password);
    assert r.Some? by { assert Matches(s[|users|], u.email, u.password); }
    var m :| 0 <= m < |s| && s[m] == r.value && Matches(s[m], u.email, u.password);
    assert m == |users|;
  }

  /** The user table, the module-level `userList`. Its invariant is that
      emails are unique, which signup maintains by checking before it
      appends. */
  class UserTable {
    var userList: seq<User>

    ghost predicate Valid()
      reads this
    {
      EmailsUnique(userList)
    }

    constructor ()
      ensures Valid() && userList == []
    {
      userList := [];
    }

    /** POST /signup: appends a user with the supplied fields when the email
        is not yet taken (201), and changes nothing otherwise (400). */
    method Signup(id: int, email: string, password: string, firstName: string, lastName: string)
      returns (status: SignupStatus)
      requires Valid()
      modifies this
      ensures Valid()
      ensures status == Created <==> forall j :: 0 <= j < |old(userList)| ==> old(userList)[j].email != email
      ensures status == Created ==> userList == old(userList) + [User(id, email, password, firstName, lastName)]
      ensures status == BadRequest ==> userList == old(userList)
    {
      if !CheckUserExists(userList, email) {
        var newUser := User(id, email, password, firstName, lastName);
        AppendKeepsEmailsUnique(userList, newUser);
        userList := userList + [newUser];
        status := Created;
      } else {
        status := BadRequest;
      }
    }

    /** POST /login: the matched user's email and names, or 401. */
    method Login(email: string, password: string) returns (reply: Authorized<PublicUser>)
      ensures reply.Unauthorized? <==> forall j :: 0 <= j < |userList| ==> !Matches(userList[j], email, password)
      ensures reply.Granted? ==>
        exists k :: 0 <= k < |userList| && Matches(userList[k], email, password) &&
          (forall j :: 0 <= j < k ==> !Matches(userList[j], email, password)) &&
          reply.body == Public(userList[k])
      ensures Valid() ==>
        forall k :: 0 <= k < |userList| && userList[k].email == email ==>
          (reply.Granted? <==> userList[k].password == password)
    {
      var user := LoginUser(userList, email, password);
      if Valid() {
        forall k | 0 <= k < |userList| && userList[k].email == email
          ensures user.Some? <==> userList[k].password == password
        {
          LoginOnUniqueTable(userList, k, password);
        }
      }
      if user.Some? {
        reply := Granted(Public(user.value));
      } else {
        reply := Unauthorized;
      }
    }

    /** GET /data: when the credentials match some user, every user's email
        and names in table order; otherwise 401. */
    method Data(email: string, password: string) returns (reply: Authorized<seq<PublicUser>>)
      ensures reply.Unauthorized? <==> forall j :: 0 <= j < |userList| ==> !Matches(userList[j], email, password)
      ensures reply.Granted? ==>
        |reply.body| == |userList| &&
        forall i :: 0 <= i < |userList| ==> reply.body[i] == Public(userList[i])
    {
      var user := LoginUser(userList, email, password);
      if user.Some? {
        reply := Granted(PublicList(userList));
      } else {
        reply := Unauthorized;
      }
    }
  }
}
