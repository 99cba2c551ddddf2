/**
 * The handlers of controllers/auth.js that change or guard a user record:
 * the password-reset token's issue, check and redemption, signup and the
 * login gate. Time is a parameter in milliseconds since the epoch; the
 * random token and the bcrypt hash arrive as opaque strings.
 */
module Auth {
  import opened Wrappers
  import opened Domain
  import UserModel

  /** The token's lifetime: one hour, `1000 * 60 * 60` ms. */
  const ResetWindow := 1000 * 60 * 60

  /** A user record's `resetToken` and `resetTokenExpiration`. */
  datatype ResetState = ResetState(token: Option<string>, expiration: Option<int>)

  /** The filter `{ resetToken: token, resetTokenExpiration: { $gt: now } }`. */
  function Matches(s: ResetState, token: string, now: int): (b: bool)
    ensures b ==> s.token == Some(token)
    ensures b ==> s.expiration.Some? && now < s.expiration.value
    ensures s.token == Some(token) && s.expiration.Some? && now < s.expiration.value ==> b
  {
    match (s.token, s.expiration)
    case (Some(t), Some(e)) => t == token && e > now
    case _ => false
  }

  /** The state `postReset` writes: it admits that token, strictly before now + 1 h, and no other. */
  function Issued(token: string, now: int): (s: ResetState)
    ensures forall t, n :: Matches(s, t, n) <==> t == token && n < now + 3600000
  {
    ResetState(Some(token), Some(now + ResetWindow))
  }

  /** The state `postNewPassword` leaves behind: it admits no token at any time. */
  function Cleared(): (s: ResetState)
    ensures forall t, n :: !Matches(s, t, n)
  {
    ResetState(None, None)
  }

  function StateOf(u: UserModel.User): ResetState
    reads u
  {
    ResetState(u.resetToken, u.resetTokenExpiration)
  }

  function States(users: seq<UserModel.User>): (r: seq<ResetState>)
    reads users
    ensures |r| == |users|
    ensures forall k :: 0 <= k < |users| ==> r[k] == StateOf(users[k])
  {
    if users == [] then [] else [StateOf(users[0])] + States(users[1..])
  }

  function Passwords(users: seq<UserModel.User>): (r: seq<string>)
    reads users
    ensures |r| == |users|
    ensures forall k :: 0 <= k < |users| ==> r[k] == users[k].password
  {
    if users == [] then [] else [users[0].password] + Passwords(users[1..])
  }

  /** The stored records: each user is its own object. */
  predicate Distinct(users: seq<UserModel.User>)
  {
    forall i, j :: 0 <= i < j < |users| ==> users[i] != users[j]
  }

  predicate UniqueUserIds(users: seq<UserModel.User>)
  {
    forall i, j :: 0 <= i < j < |users| ==> users[i].id != users[j].id
  }

  /** `User.findOne({ email })`: the index of the first match, or -1. */
  function FindByEmail(users: seq<UserModel.User>, email: string): (i: int)
    reads users
    ensures -1 <= i < |users|
    ensures i >= 0 ==> users[i].email == email
    ensures i >= 0 ==> forall j :: 0 <= j < i ==> users[j].email != email
    ensures i < 0 <==> forall j :: 0 <= j < |users| ==> users[j].email != email
  {
    if users == [] then -1
    else if users[0].email == email then 0
    else
      var k := FindByEmail(users[1..], email);
      if k < 0 then -1 else k + 1
  }

  /** The `findOne` filter of the reset form: the token and deadline match, and the id does when one is given. */
  predicate Redeems(u: UserModel.User, token: string, now: int, id: Option<UserId>)
    reads u
  {
    Matches(StateOf(u), token, now) && (id.Some? ==> u.id == id.value)
  }

  /** `User.findOne({ resetToken, resetTokenExpiration: { $gt: now } })`, optionally also on `_id`. */
  function FindByToken(users: seq<UserModel.User>, token: string, now: int, id: Option<UserId>): (i: int)
    reads users
    ensures -1 <= i < |users|
    ensures i >= 0 ==> Matches(StateOf(users[i]), token, now) && (id.Some? ==> users[i].id == id.value)
    ensures i >= 0 ==> forall j :: 0 <= j < i ==> !Redeems(users[j], token, now, id)
    ensures i < 0 <==> forall j :: 0 <= j < |users| ==> !Redeems(users[j], token, now, id)
  {
    if users == [] then -1
    else if Redeems(users[0], token, now, id) then 0
    else
      var k := FindByToken(users[1..], token, now, id);
      if k < 0 then -1 else k + 1
  }

  /**
   * The responses `postReset` attempts, as written: after the redirect for a
   * failed `randomBytes` there is no `return`, so the handler goes on to look
   * the user up. An unknown email then redirects again, which throws because
   * the headers are already sent; a known email throws on the missing buffer.
   * Either error reaches `next` through the catch.
   */
  function ResetResponsesAsWritten(randomOk: bool, emailKnown: bool): (r: seq<Response>)
    ensures randomOk ==> |r| == 1
    ensures !randomOk ==> |r| >= 2 && r[0] == Redirect("/reset") && r[|r| - 1].NextError?
    ensures randomOk && emailKnown ==> r == [Redirect("/")]
    ensures randomOk && !emailKnown ==> r == [Redirect("/reset")]
  {
    if randomOk then
      if emailKnown then [Redirect("/")] else [Redirect("/reset")]
    else if emailKnown then [Redirect("/reset"), NextError("TypeError")]
    else [Redirect("/reset"), Redirect("/reset"), NextError("ERR_HTTP_HEADERS_SENT")]
  }

  /**
   * A failed `randomBytes` makes the handler as written answer one request
   * more than once: after the redirect to /reset, an unknown email redirects
   * again and that redirect's error is passed on, and a known one throws on
   * the missing buffer.
   */
  lemma RandomFailureRespondsTwice(emailKnown: bool)
    ensures var r := ResetResponsesAsWritten(false, emailKnown);
      && r[0] == Redirect("/reset")
      && r[1..] == if emailKnown then [NextError("TypeError")]
                   else [Redirect("/reset"), NextError("ERR_HTTP_HEADERS_SENT")]
  {
  }

  /**
   * `postReset`, with the missing `return` restored: a failed `randomBytes`
   * (`token == None`) or an unknown email redirects to /reset and changes no
   * user; otherwise the first user with that email gets the token and an
   * expiry of now + 1 h.
   */
  method PostReset(users: seq<UserModel.User>, email: string, token: Option<string>, now: int)
    returns (resp: Response, flash: Option<string>)
    requires Distinct(users)
    modifies users`resetToken, users`resetTokenExpiration
    ensures token.None? ==>
      resp == Redirect("/reset") && flash == None && States(users) == old(States(users))
    ensures token.Some? && FindByEmail(users, email) < 0 ==>
      && resp == Redirect("/reset") && flash == Some("No account with that email found.")
      && States(users) == old(States(users))
    ensures var i := FindByEmail(users, email);
      token.Some? && i >= 0 ==>
        && resp == Redirect("/") && flash == None
        && States(users) == old(States(users))[i := Issued(token.value, now)]
  {
    flash := None;
    if token.None? {
      return Redirect("/reset"), None;
    }
    var i := FindByEmail(users, email);
    if i < 0 {
      return Redirect("/reset"), Some("No account with that email found.");
    }
    users[i].resetToken := Some(token.value);
    users[i].resetTokenExpiration := Some(now + ResetWindow);
    resp := Redirect("/");
  }

  datatype NewPasswordPage = NewPasswordForm(userId: UserId, passwordToken: string) | NoResponse

  /**
   * `getNewPassword`: the form is shown for the first user whose token is
   * `token` and whose expiry is strictly after `now`; with no such user the
   * handler sends nothing.
   */
  function GetNewPassword(users: seq<UserModel.User>, token: string, now: int): (r: NewPasswordPage)
    reads users
    ensures r.NewPasswordForm? <==> exists j :: 0 <= j < |users| && Matches(StateOf(users[j]), token, now)
    ensures r.NewPasswordForm? ==> r.passwordToken == token
    ensures r.NewPasswordForm? ==>
      exists j :: 0 <= j < |users| && users[j].id == r.userId && Matches(StateOf(users[j]), token, now)
  {
    var i := FindByToken(users, token, now, None);
    if i < 0 then NoResponse else NewPasswordForm(users[i].id, token)
  }

  /**
   * `postNewPassword`: only a user with that id, that token and an unexpired
   * deadline gets the new (hashed) password, and its token and expiry are
   * cleared; otherwise the handler redirects to /reset and nothing changes.
   */
  method PostNewPassword(users: seq<UserModel.User>, hashed: string, userId: UserId, passwordToken: string, now: int)
    returns (resp: Response)
    requires Distinct(users)
    modifies users`password, users`resetToken, users`resetTokenExpiration
    ensures old(FindByToken(users, passwordToken, now, Some(userId))) < 0 ==>
      && resp == Redirect("/reset")
      && States(users) == old(States(users)) && Passwords(users) == old(Passwords(users))
    ensures var i := old(FindByToken(users, passwordToken, now, Some(userId)));
      i >= 0 ==>
        && resp == Redirect("/login")
        && States(users) == old(States(users))[i := Cleared()]
        && Passwords(users) == old(Passwords(users))[i := hashed]
    ensures old(FindByToken(users, passwordToken, now, Some(userId))) >= 0 && UniqueUserIds(users) ==>
      forall later :: FindByToken(users, passwordToken, later, Some(userId)) < 0
  {
    var i := FindByToken(users, passwordToken, now, Some(userId));
    if i < 0 {
      return Redirect("/reset");
    }
    SaveNewPassword(users, i, hashed);
    resp := Redirect("/login");
    NoRedeemAfterClear(users, i, passwordToken, userId);
  }

  /** The update `postNewPassword` saves: user `i` gets the new hash and loses its token; no other record changes. */
  method SaveNewPassword(users: seq<UserModel.User>, i: nat, hashed: string)
    requires Distinct(users) && i < |users|
    modifies users`password, users`resetToken, users`resetTokenExpiration
    ensures StateOf(users[i]) == Cleared()
    ensures States(users) == old(States(users))[i := Cleared()]
    ensures Passwords(users) == old(Passwords(users))[i := hashed]
  {
    ghost var states, passwords := States(users), Passwords(users);
    users[i].password := hashed;
    users[i].resetToken := None;
    users[i].resetTokenExpiration := None;
    forall k | 0 <= k < |users| && k != i
      ensures StateOf(users[k]) == states[k] && users[k].password == passwords[k]
    {
      assert users[k] != users[i];
    }
    UpdatedAt(users, i, states, passwords);
  }

  /** Records that agree with a snapshot everywhere but at `i` give that snapshot updated at `i`. */
  lemma UpdatedAt(users: seq<UserModel.User>, i: nat, states: seq<ResetState>, passwords: seq<string>)
    requires i < |users| && |states| == |users| && |passwords| == |users|
    requires forall k :: 0 <= k < |users| && k != i ==> StateOf(users[k]) == states[k] && users[k].password == passwords[k]
    ensures States(users) == states[i := StateOf(users[i])]
    ensures Passwords(users) == passwords[i := users[i].password]
  {
  }

  /** Once a user's token is cleared, no token redeems for that id again, at any time, if ids are unique. */
  lemma NoRedeemAfterClear(users: seq<UserModel.User>, i: nat, token: string, userId: UserId)
    requires i < |users| && users[i].id == userId && StateOf(users[i]) == Cleared()
    ensures UniqueUserIds(users) ==> forall later :: FindByToken(users, token, later, Some(userId)) < 0
  {
    if UniqueUserIds(users) {
      forall later ensures FindByToken(users, token, later, Some(userId)) < 0 {
        forall j | 0 <= j < |users| && users[j].id == userId ensures !Matches(StateOf(users[j]), token, later) {
          assert j == i;
        }
      }
    }
  }

  /**
   * `postSignup`: with validation errors the form is shown again with status
   * 422 and no user is created; otherwise a user with the email, the hashed
   * password and an empty cart is added. `id` is the fresh id the store gives it.
   */
  method PostSignup(users: seq<UserModel.User>, errors: seq<string>, email: string, hashed: string, id: UserId)
    returns (resp: Response, users': seq<UserModel.User>)
    requires forall u :: u in users ==> u.id != id
    ensures errors != [] ==> resp == Render(422, errors[0]) && users' == users
    ensures errors == [] ==>
      && resp == Redirect("/login")
      && |users'| == |users| + 1 && users'[..|users|] == users
      && fresh(users'[|users|])
      && users'[|users|].id == id && users'[|users|].email == email && users'[|users|].password == hashed
      && users'[|users|].items == Some([]) && StateOf(users'[|users|]) == Cleared()
    ensures UniqueUserIds(users) ==> UniqueUserIds(users')
  {
    if errors != [] {
      return Render(422, errors[0]), users;
    }
    var u := new UserModel.User(id, email, hashed);
    users' := users + [u];
    resp := Redirect("/login");
  }

  datatype LoginResult = LoginResult(resp: Response, isLoggedIn: bool)

  /** `postLogin`: validation errors give 422 and leave `session.isLoggedIn` as it was; otherwise it is set. */
  function PostLogin(errors: seq<string>, isLoggedIn: bool): (r: LoginResult)
    ensures errors != [] ==> r.resp == Render(422, errors[0]) && r.isLoggedIn == isLoggedIn
    ensures errors == [] ==> r.resp == Redirect("/") && r.isLoggedIn
  {
    if errors != [] then LoginResult(Render(422, errors[0]), isLoggedIn)
    else LoginResult(Redirect("/"), true)
  }
}
