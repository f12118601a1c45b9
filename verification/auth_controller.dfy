/** The account handlers of controllers/authController.js: registration,
    password login and the caller's own record.  Passwords are stored only as
    their bcrypt hash; a successful signup or login answers with a token
    signed for the user's id. */
module AuthController {
  import opened Js
  import opened Store
  import Listing

  const MissingFields: string := "Please provide all required fields"
  const UserExists: string := "User already exists"
  const MissingCredentials: string := "Please provide email and password"
  const InvalidCredentials: string := "Invalid email or password"
  const UserNotFound: string := "User not found"

  /** What signup and login answer with. */
  datatype Session = Session(
    id: int,
    name: string,
    email: string,
    phone: Option<string>,
    role: string,
    token: string)

  /** The keys of the rows `WHERE email = ?` selects. */
  function WithEmail(s: Store, email: string): set<int> {
    set k | k in s.users && s.users[k].email == email
  }

  // ---------------------------------------------------------------------
  // signup
  // ---------------------------------------------------------------------

  datatype SignupRequest = SignupRequest(
    name: Option<string>,
    email: Option<string>,
    password: Option<string>,
    phone: Option<string>)

  /** `signup`: name, email and password are required, the email must be
      new; the row stores the password's hash and a NULL phone when none was
      given, and takes the `users` column defaults role "user" and active. */
  function Signup(s: Store, env: Env, req: SignupRequest, now: int): (h: Handled<Session>)
    ensures !Truthy(req.name) || !Truthy(req.email) || !Truthy(req.password) ==>
      h == Handled(Err(400, MissingFields), s)
    ensures Truthy(req.name) && Truthy(req.email) && Truthy(req.password) && WithEmail(s, req.email.value) != {} ==>
      h == Handled(Err(400, UserExists), s)
    ensures h.reply.Ok? <==>
      Truthy(req.name) && Truthy(req.email) && Truthy(req.password) && WithEmail(s, req.email.value) == {}
    ensures h.reply.Ok? ==>
      var id := s.nextUserId;
      && h.reply.code == 201
      && id in h.next.users
      && h.next == s.(users := s.users[id := h.next.users[id]], nextUserId := id + 1)
      && var u := h.next.users[id];
      && u.id == id && u.name == req.name.value && u.email == req.email.value
      && u.password == env.hash(req.password.value)
      && (Truthy(req.phone) ==> u.phone == req.phone) && (!Truthy(req.phone) ==> u.phone.None?)
      && u.role == UserRole && u.avatar.None? && u.isActive && u.createdAt == now
      && h.reply.body == Session(id, u.name, u.email, req.phone, UserRole, env.sign(id))
  {
    if !Truthy(req.name) || !Truthy(req.email) || !Truthy(req.password) then Handled(Err(400, MissingFields), s)
    else if WithEmail(s, req.email.value) != {} then Handled(Err(400, UserExists), s)
    else
      var id := s.nextUserId;
      var u := User(id, req.name.value, req.email.value, env.hash(req.password.value),
                    StrOrNull(req.phone), UserRole, None, true, now);
      Handled(Ok(201, Session(id, u.name, u.email, req.phone, UserRole, env.sign(id))),
              s.(users := s.users[id := u], nextUserId := id + 1))
  }

  /** Signup keeps the store well keyed, and emails unique among the users. */
  lemma SignupKeepsInvariants(s: Store, env: Env, req: SignupRequest, now: int)
    requires WellKeyed(s)
    requires forall a, b :: a in s.users && b in s.users && s.users[a].email == s.users[b].email ==> a == b
    ensures var t := Signup(s, env, req, now).next;
      && WellKeyed(t)
      && forall a, b :: a in t.users && b in t.users && t.users[a].email == t.users[b].email ==> a == b
  {
    var h := Signup(s, env, req, now);
    if h.reply.Ok? {
      var id := s.nextUserId;
      var t := h.next;
      assert t.users == s.users[id := t.users[id]];
      forall k | k in t.users
        ensures t.users[k].id == k && 1 <= k < t.nextUserId
      {
        if k != id {
          assert k in s.users && t.users[k] == s.users[k];
        }
      }
      EmailIsNew(s, req.email.value);
      forall a, b | a in t.users && b in t.users && t.users[a].email == t.users[b].email
        ensures a == b
      {
        if a != id && b != id {
          assert t.users[a] == s.users[a] && t.users[b] == s.users[b];
        }
      }
    }
  }

  /** No row carries an email the duplicate check found no row for. */
  lemma EmailIsNew(s: Store, email: string)
    requires WithEmail(s, email) == {}
    ensures forall k :: k in s.users ==> s.users[k].email != email
  {
    forall k | k in s.users
      ensures s.users[k].email != email
    {
      assert k !in WithEmail(s, email);
    }
  }

  // ---------------------------------------------------------------------
  // login
  // ---------------------------------------------------------------------

  /** `login`: both fields are required; an unknown email and a wrong
      password get the same 401, so the answer does not tell which was
      wrong.  Of several rows with the email, the one with the lowest key is
      taken.  The store is never changed. */
  function Login(s: Store, env: Env, email: Option<string>, password: Option<string>): (h: Handled<Session>)
    ensures h.next == s
    ensures !Truthy(email) || !Truthy(password) ==> h.reply == Err(400, MissingCredentials)
    ensures h.reply.Err? && h.reply.code != 400 ==> h.reply == Err(401, InvalidCredentials)
    ensures Truthy(email) && Truthy(password) && WithEmail(s, email.value) == {} ==>
      h.reply == Err(401, InvalidCredentials)
    ensures h.reply.Ok? <==>
      && Truthy(email) && Truthy(password)
      && WithEmail(s, email.value) != {}
      && env.matches(password.value, s.users[Listing.Least(WithEmail(s, email.value))].password)
    ensures h.reply.Ok? ==>
      var u := s.users[Listing.Least(WithEmail(s, email.value))];
      && u.email == email.value
      && h.reply == Ok(200, Session(u.id, u.name, u.email, u.phone, u.role, env.sign(u.id)))
  {
    if !Truthy(email) || !Truthy(password) then Handled(Err(400, MissingCredentials), s)
    else
      var ks := WithEmail(s, email.value);
      if ks == {} then Handled(Err(401, InvalidCredentials), s)
      else
        var u := s.users[Listing.Least(ks)];
        if !env.matches(password.value, u.password) then Handled(Err(401, InvalidCredentials), s)
        else Handled(Ok(200, Session(u.id, u.name, u.email, u.phone, u.role, env.sign(u.id))), s)
  }

  /** Whoever signs up can log in with the same email and password, as the
      same id, with the role "user", provided bcrypt accepts a password
      against its own hash. */
  lemma {:induction false} SignupThenLogin(s: Store, env: Env, req: SignupRequest, now: int)
    requires env.matches(DefinedOr(req.password, ""), env.hash(DefinedOr(req.password, "")))
    ensures var h := Signup(s, env, req, now);
      h.reply.Ok? ==>
        var l := Login(h.next, env, req.email, req.password);
        l.reply.Ok? && l.reply.body == h.reply.body.(phone := h.next.users[h.reply.body.id].phone)
  {
    var h := Signup(s, env, req, now);
    if h.reply.Ok? {
      var id := s.nextUserId;
      var t := h.next;
      assert t.users == s.users[id := t.users[id]];
      EmailIsNew(s, req.email.value);
      assert WithEmail(t, req.email.value) == {id};
      assert Listing.Least({id}) == id;
    }
  }

  /** The role and the token's id come from the stored row. */
  lemma LoginAnswersStoredRow(s: Store, env: Env, email: string, password: string, id: int)
    requires WellKeyed(s)
    requires id in s.users && WithEmail(s, email) == {id}
    requires email != "" && password != ""
    requires env.matches(password, s.users[id].password)
    ensures Login(s, env, Some(email), Some(password)).reply ==
      Ok(200, Session(id, s.users[id].name, email, s.users[id].phone, s.users[id].role, env.sign(id)))
  {
    assert Listing.Least({id}) == id;
  }

  // ---------------------------------------------------------------------
  // getMe
  // ---------------------------------------------------------------------

  /** The columns `getMe` selects. */
  datatype Me = Me(profile: Profile, createdAt: int)

  /** `getMe`: 404 once the caller's row is gone. */
  function GetMe(s: Store, me: Profile): (h: Handled<Me>)
    ensures h.next == s
    ensures me.id !in s.users ==> h.reply == Err(404, UserNotFound)
    ensures me.id in s.users ==> h.reply == Ok(200, Me(ProfileOf(s.users[me.id]), s.users[me.id].createdAt))
  {
    if me.id !in s.users then Handled(Err(404, UserNotFound), s)
    else Handled(Ok(200, Me(ProfileOf(s.users[me.id]), s.users[me.id].createdAt)), s)
  }
}
