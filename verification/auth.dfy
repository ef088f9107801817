/** Registration with role assignment, and login. Token signing and
    verification and password hashing are oracles: `sessions` maps every
    token the verifier accepts to the user id it carries, `stored` is what
    the store keeps for a new password, and `matches` is the password
    comparison. */
module Auth {

  import opened Wrappers
  import opened Seqs
  import opened Text
  import opened Accounts

  const BearerPrefix: string := "Bearer "

  /** Token verification: accepted tokens and the user id each carries. */
  type Sessions = map<string, UserId>

  /** A header that starts with "Bearer " splits at spaces into "Bearer" and
      then the pieces of what follows. */
  lemma {:induction false} BearerSplit(h: string)
    requires StartsWith(h, BearerPrefix)
    ensures Split(h, ' ') == ["Bearer"] + Split(h[|BearerPrefix|..], ' ')
  {
    assert h == "Bearer" + [' '] + h[|BearerPrefix|..];
    SplitCons("Bearer", ' ', h[|BearerPrefix|..]);
  }

  /** The first space-separated piece of `s` runs up to the first space. */
  lemma {:induction false} SplitHead(s: string)
    ensures Split(s, ' ')[0] == s[..IndexOf(s, ' ')]
  {
  }

  /** `header.split(" ")[1]` for a header that starts with "Bearer ": the
      text after the prefix up to the next space (possibly empty). */
  function BearerToken(header: Option<string>): (t: Option<string>)
    ensures t.Some? <==> Truthy(header) && StartsWith(header.value, BearerPrefix)
    ensures t.Some? ==>
              var rest := header.value[|BearerPrefix|..];
              ' ' !in t.value && StartsWith(rest, t.value)
              && (|t.value| == |rest| || rest[|t.value|] == ' ')
  {
    if Truthy(header) && StartsWith(header.value, BearerPrefix) then
      var rest := header.value[|BearerPrefix|..];
      BearerSplit(header.value);
      SplitHead(rest);
      Some(Split(header.value, ' ')[1])
    else None
  }

  /** "Bearer <token>" gives back the token, whatever follows a further space. */
  lemma {:induction false} BearerRoundTrip(token: string, trailer: Option<string>)
    requires ' ' !in token
    ensures trailer.None? ==> BearerToken(Some(BearerPrefix + token)) == Some(token)
    ensures trailer.Some? ==> BearerToken(Some(BearerPrefix + token + [' '] + trailer.value)) == Some(token)
  {
    var h := if trailer.None? then BearerPrefix + token else BearerPrefix + token + [' '] + trailer.value;
    assert h[..|BearerPrefix|] == BearerPrefix;
    var rest := h[|BearerPrefix|..];
    assert rest[..|token|] == token;
    IndexOfAt(rest, ' ', |token|);
    SplitHead(rest);
    BearerSplit(h);
  }

  // ---------------------------------------------------------- register

  datatype RegisterBody = RegisterBody(name: string, email: string, password: string, role: Option<string>)

  /** The `user` part of a successful response. */
  datatype Profile = Profile(id: UserId, name: string, email: string, role: string)

  datatype RegisterOutcome = RegisterOutcome(users: Users, result: Result<Profile>)

  /** The role a registration gets: "user" without a bearer header; with
      one, the token must verify and name an existing caller (else 401), and
      a requested role other than "user" needs a superadmin caller (else 403). */
  function AssignedRole(users: Users, requested: Option<string>, header: Option<string>, sessions: Sessions): (r: Result<string>)
    ensures BearerToken(header).None? ==> r == Ok(Customer)
    ensures r.Err? ==> r.failure == Unauthorized || r.failure == Forbidden
    ensures r == Err(Unauthorized) <==>
              BearerToken(header).Some?
              && (BearerToken(header).value !in sessions
                  || FindById(users, sessions[BearerToken(header).value]).None?)
    ensures r.Ok? && r.value != Customer ==>
              && Truthy(requested) && r.value == requested.value
              && BearerToken(header).Some? && BearerToken(header).value in sessions
              && exists u :: u in users && u.id == sessions[BearerToken(header).value] && u.role == SuperAdmin
    ensures BearerToken(header).Some? && r != Err(Unauthorized) && !(Truthy(requested) && requested.value != Customer) ==>
              r == Ok(Customer)
    ensures && BearerToken(header).Some? && BearerToken(header).value in sessions
            && FindById(users, sessions[BearerToken(header).value]).Some?
            && Truthy(requested) && requested.value != Customer ==>
              if FindById(users, sessions[BearerToken(header).value]).value.role == SuperAdmin
              then r == Ok(requested.value)
              else r == Err(Forbidden)
  {
    match BearerToken(header)
    case None => Ok(Customer)
    case Some(token) =>
      if token !in sessions then Err(Unauthorized)
      else match FindById(users, sessions[token])
        case None => Err(Unauthorized)
        case Some(caller) =>
          if Truthy(requested) && requested.value != Customer then
            if caller.role != SuperAdmin then Err(Forbidden) else Ok(requested.value)
          else Ok(Customer)
  }

  /** `register`: a used email is refused with 400 before the header is
      looked at; otherwise the account is created with the assigned role. */
  function Register(users: Users, body: RegisterBody, header: Option<string>, sessions: Sessions,
                    newId: UserId, stored: string): (o: RegisterOutcome)
    ensures o.result.Err? ==> o.users == users
    ensures o.result == Err(BadRequest) <==> exists k :: 0 <= k < |users| && users[k].email == body.email
    ensures (forall k :: 0 <= k < |users| ==> users[k].email != body.email) ==>
              match AssignedRole(users, body.role, header, sessions)
              case Err(f) => o.result == Err(f)
              case Ok(role) =>
                && o.users == users + [User(newId, body.name, body.email, stored, role, None, None)]
                && o.result == Ok(Profile(newId, body.name, body.email, role))
  {
    match FindFirst(users, HasEmail(body.email))
    case Some(_) => RegisterOutcome(users, Err(BadRequest))
    case None =>
      match AssignedRole(users, body.role, header, sessions)
      case Err(f) => RegisterOutcome(users, Err(f))
      case Ok(role) =>
        RegisterOutcome(users + [User(newId, body.name, body.email, stored, role, None, None)],
                        Ok(Profile(newId, body.name, body.email, role)))
  }

  /** Only a verified superadmin caller can create an account with a role
      other than "user"; without a bearer header every account is a "user". */
  lemma {:induction false} NoSelfElevation(users: Users, body: RegisterBody, header: Option<string>, sessions: Sessions,
                        newId: UserId, stored: string)
    ensures var o := Register(users, body, header, sessions, newId, stored);
            o.result.Ok? && o.result.value.role != Customer ==>
              BearerToken(header).Some? && BearerToken(header).value in sessions
              && exists u :: u in users && u.id == sessions[BearerToken(header).value] && u.role == SuperAdmin
    ensures BearerToken(header).None? ==>
              var o := Register(users, body, header, sessions, newId, stored);
              o.result.Ok? ==> o.result.value.role == Customer
  {
  }

  /** Registration keeps emails unique, and ids too when the new id is fresh. */
  lemma {:induction false} RegisterKeepsUnique(users: Users, body: RegisterBody, header: Option<string>, sessions: Sessions,
                            newId: UserId, stored: string)
    requires UniqueEmails(users)
    ensures UniqueEmails(Register(users, body, header, sessions, newId, stored).users)
    ensures UniqueIds(users) && (forall k :: 0 <= k < |users| ==> users[k].id != newId) ==>
              UniqueIds(Register(users, body, header, sessions, newId, stored).users)
  {
  }

  // ------------------------------------------------------------- login

  /** `login`: the profile of the first account with that email whose stored
      password matches; an unknown email and a wrong password get the same
      401. */
  function Login(users: Users, email: string, password: string, matches: (string, string) -> bool): (r: Result<Profile>)
    ensures r.Err? ==> r == Err(Unauthorized)
    ensures r.Ok? <==> exists i :: 0 <= i < |users| && users[i].email == email
                        && (forall k :: 0 <= k < i ==> users[k].email != email)
                        && matches(password, users[i].password)
    ensures r.Ok? ==> exists u :: u in users && u.email == email
                        && r.value == Profile(u.id, u.name, u.email, u.role)
  {
    match FindFirst(users, HasEmail(email))
    case None => Err(Unauthorized)
    case Some(i) =>
      var u := users[i];
      assert u in users;
      if !matches(password, u.password) then Err(Unauthorized)
      else Ok(Profile(u.id, u.name, u.email, u.role))
  }

  /** A freshly registered account can log in with its password, and gets
      the profile the registration answered with. */
  lemma {:induction false} RegisterThenLogin(users: Users, body: RegisterBody, header: Option<string>, sessions: Sessions,
                          newId: UserId, stored: string, matches: (string, string) -> bool)
    requires matches(body.password, stored)
    requires Register(users, body, header, sessions, newId, stored).result.Ok?
    ensures var o := Register(users, body, header, sessions, newId, stored);
            Login(o.users, body.email, body.password, matches) == o.result
  {
    var o := Register(users, body, header, sessions, newId, stored);
    var n := |users|;
    assert o.users[n].email == body.email;
    assert forall k :: 0 <= k < n ==> o.users[k].email != body.email;
    assert FindFirst(o.users, HasEmail(body.email)) == Some(n);
  }
}
