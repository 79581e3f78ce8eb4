/** The account updates of controllers/userController.js: editing the profile and changing
    the password. The password is modelled as the secret itself; hashing is not modelled, so
    "the stored hash matches" is equality with the stored secret. */
module Accounts {
  import opened Outcomes
  import opened Text

  type UserId = nat

  datatype User = User(name: string, email: string, password: string)

  type Users = map<UserId, User>

  /** The rejections of the two endpoints, in the order the code checks them. */
  datatype AccountError =
    | UserNotFound
    | EmailInUse
    | CurrentRequired
    | NewRequired
    | ConfirmRequired
    | Mismatch
    | Unchanged
    | CurrentIncorrect
    | TooShort
  {
    /** The HTTP status: 404 for a missing user, 400 for every other rejection. */
    function Status(): nat {
      if this == UserNotFound then 404 else 400
    }
  }

  /** The shortest accepted new password, in UTF-16 code units (`newPassword.length < 6`). */
  const MinPasswordLength := 6

  /** `User.findOne({ email })` finds somebody. */
  predicate EmailTaken(users: Users, email: string) {
    exists u :: u in users && users[u].email == email
  }

  /** No two accounts share an address. */
  predicate UniqueEmails(users: Users) {
    forall u, v :: u in users && v in users && u != v ==> users[u].email != users[v].email
  }

  /** `updateProfile`: 404 for a missing user; a truthy address that differs from the current
      one must be free (400 otherwise) and replaces it; a truthy name replaces the name; the
      password and every other account stay as they were. */
  function UpdateProfile(users: Users, id: UserId, name: Option<string>, email: Option<string>): (r: Result<Users, AccountError>)
    ensures r == Err(UserNotFound) <==> id !in users
    ensures r == Err(EmailInUse) <==>
      id in users && Truthy(email) && email.value != users[id].email && EmailTaken(users, email.value)
    ensures r.Ok? <==>
      id in users && !(Truthy(email) && email.value != users[id].email && EmailTaken(users, email.value))
    ensures r.Ok? ==> r.value.Keys == users.Keys
    ensures r.Ok? ==> forall u :: u in users && u != id ==> r.value[u] == users[u]
    ensures r.Ok? ==> r.value[id].password == users[id].password
    ensures r.Ok? ==> r.value[id].name == (if Truthy(name) then name.value else users[id].name)
    ensures r.Ok? ==> r.value[id].email == (if Truthy(email) then email.value else users[id].email)
  {
    if id !in users then Err(UserNotFound)
    else
      var user := users[id];
      if Truthy(email) && email.value != user.email && EmailTaken(users, email.value) then Err(EmailInUse)
      else Ok(users[id := user.(name := OrElse(name, user.name), email := OrElse(email, user.email))])
  }

  /** A successful profile update keeps addresses unique. */
  lemma UpdateProfileKeepsEmailsUnique(users: Users, id: UserId, name: Option<string>, email: Option<string>)
    requires UniqueEmails(users)
    requires UpdateProfile(users, id, name, email).Ok?
    ensures UniqueEmails(UpdateProfile(users, id, name, email).value)
  {
    var r := UpdateProfile(users, id, name, email).value;
    forall u, v | u in r && v in r && u != v
      ensures r[u].email != r[v].email
    {
      if u == id || v == id {
        var other := if u == id then v else u;
        assert r[other] == users[other];
        if Truthy(email) && email.value != users[id].email {
          assert !EmailTaken(users, email.value);
          assert users[other].email != email.value;
        }
      }
    }
  }

  /** `changePassword`: the checks in the code's order, each reached only when the earlier
      ones pass. On success only the password of this account changes. */
  function ChangePassword(users: Users, id: UserId, current: Option<string>, next: Option<string>,
                          confirm: Option<string>): (r: Result<Users, AccountError>)
    ensures r == Err(UserNotFound) <==> id !in users
    ensures r == Err(CurrentRequired) <==> id in users && !Truthy(current)
    ensures r == Err(NewRequired) <==> id in users && Truthy(current) && !Truthy(next)
    ensures r == Err(ConfirmRequired) <==> id in users && Truthy(current) && Truthy(next) && !Truthy(confirm)
    ensures r == Err(Mismatch) <==>
      id in users && Truthy(current) && Truthy(next) && Truthy(confirm) && next.value != confirm.value
    ensures r == Err(Unchanged) <==>
      id in users && Truthy(current) && Truthy(next) && Truthy(confirm) && next.value == confirm.value
      && current.value == next.value
    ensures r == Err(CurrentIncorrect) <==>
      id in users && Truthy(current) && Truthy(next) && Truthy(confirm) && next.value == confirm.value
      && current.value != next.value && current.value != users[id].password
    ensures r == Err(TooShort) <==>
      id in users && Truthy(current) && Truthy(next) && Truthy(confirm) && next.value == confirm.value
      && current.value != next.value && current.value == users[id].password
      && Utf16Length(next.value) < MinPasswordLength
    ensures r.Ok? ==> r.value == users[id := users[id].(password := next.value)]
  {
    if id !in users then Err(UserNotFound)
    else if !Truthy(current) then Err(CurrentRequired)
    else if !Truthy(next) then Err(NewRequired)
    else if !Truthy(confirm) then Err(ConfirmRequired)
    else if next.value != confirm.value then Err(Mismatch)
    else if current.value == next.value then Err(Unchanged)
    else if current.value != users[id].password then Err(CurrentIncorrect)
    else if Utf16Length(next.value) < MinPasswordLength then Err(TooShort)
    else Ok(users[id := users[id].(password := next.value)])
  }

  /** A change succeeds exactly when the current password is right, the new one is given
      twice, differs from it and has at least six code units. */
  lemma ChangePasswordSucceedsIff(users: Users, id: UserId, current: Option<string>, next: Option<string>, confirm: Option<string>)
    ensures ChangePassword(users, id, current, next, confirm).Ok? <==>
      && id in users
      && current == Some(users[id].password) && users[id].password != ""
      && Truthy(next) && confirm == next
      && next.value != users[id].password
      && Utf16Length(next.value) >= MinPasswordLength
  {
  }

  /** After a change the stored password is the new one, which differs from the current one
      the caller gave; the name and address stay. (With hashing modelled as equality, this is
      what makes only the new password match afterwards.) */
  lemma ChangeThenAuthenticate(users: Users, id: UserId, current: Option<string>, next: Option<string>, confirm: Option<string>)
    requires ChangePassword(users, id, current, next, confirm).Ok?
    ensures var u := ChangePassword(users, id, current, next, confirm).value;
      u[id].password == next.value && u[id].password != current.value
      && u[id].name == users[id].name && u[id].email == users[id].email
  {
  }

  /** The current password is checked before the length: a wrong current password with a
      short new one is reported as incorrect, a right one as too short. */
  lemma CheckOrder(users: Users, id: UserId, wrong: string)
    requires id in users && users[id].password != "" && wrong != "" && wrong != users[id].password
    ensures wrong != "abc" ==> ChangePassword(users, id, Some(wrong), Some("abc"), Some("abc")) == Err(CurrentIncorrect)
    ensures users[id].password != "abc" ==>
      ChangePassword(users, id, Some(users[id].password), Some("abc"), Some("abc")) == Err(TooShort)
  {
    assert Utf16Length("abc") == 3;
  }
}
