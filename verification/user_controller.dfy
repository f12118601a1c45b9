/** The user handlers of controllers/userController.js: the caller's own
    profile, and the admin's user list and removal. */
module UserController {
  import opened Js
  import opened Store
  import Listing

  const UserNotFound: string := "User not found"
  const UserRemoved: string := "User removed successfully"

  // ---------------------------------------------------------------------
  // The caller's profile
  // ---------------------------------------------------------------------

  /** `getProfile`: the caller's row without password, or nothing when the
      row is gone (`users[0]` of an empty result). */
  function GetProfile(s: Store, me: Profile): (r: Option<Profile>)
    ensures r.Some? <==> me.id in s.users
    ensures r.Some? ==> r.value == ProfileOf(s.users[me.id])
  {
    if me.id in s.users then Some(ProfileOf(s.users[me.id])) else None
  }

  /** The fields of a profile update body. */
  datatype ProfileFields = ProfileFields(
    name: Option<string>,
    email: Option<string>,
    phone: Option<string>,
    avatar: Option<string>,
    password: Option<string>)

  /** Whether the body has anything to write: a truthy field among the five. */
  predicate HasProfileFields(f: ProfileFields) {
    Truthy(f.name) || Truthy(f.email) || Truthy(f.phone) || Truthy(f.avatar) || Truthy(f.password)
  }

  /** The `UPDATE users SET ...` of `updateUserProfile` on one row. */
  function ApplyProfile(env: Env, u: User, f: ProfileFields): User {
    u.(
      name := StrOr(f.name, u.name),
      email := StrOr(f.email, u.email),
      phone := if Truthy(f.phone) then f.phone else u.phone,
      avatar := if Truthy(f.avatar) then f.avatar else u.avatar,
      password := if Truthy(f.password) then env.hash(f.password.value) else u.password)
  }

  /** `updateUserProfile`: writes the truthy fields to the caller's own row
      only, a new password as its hash; the role is not among the fields.
      When the caller's row is gone the update touches nothing and the
      answer carries no profile. */
  function UpdateProfile(s: Store, env: Env, me: Profile, f: ProfileFields): (h: Handled<Option<Profile>>)
    ensures !HasProfileFields(f) ==> h == Handled(Err(400, NoFieldsToUpdate), s)
    ensures h.reply.Ok? <==> HasProfileFields(f)
    ensures HasProfileFields(f) && me.id !in s.users ==> h == Handled(Ok(200, None), s)
    ensures HasProfileFields(f) && me.id in s.users ==>
      && me.id in h.next.users
      && var before, after := s.users[me.id], h.next.users[me.id];
      && h.next == s.(users := s.users[me.id := after])
      && h.reply == Ok(200, Some(ProfileOf(after)))
      && after.id == before.id && after.role == before.role
      && after.isActive == before.isActive && after.createdAt == before.createdAt
      && (Truthy(f.name) ==> after.name == f.name.value) && (!Truthy(f.name) ==> after.name == before.name)
      && (Truthy(f.email) ==> after.email == f.email.value) && (!Truthy(f.email) ==> after.email == before.email)
      && (Truthy(f.phone) ==> after.phone == f.phone) && (!Truthy(f.phone) ==> after.phone == before.phone)
      && (Truthy(f.avatar) ==> after.avatar == f.avatar) && (!Truthy(f.avatar) ==> after.avatar == before.avatar)
      && (Truthy(f.password) ==> after.password == env.hash(f.password.value))
      && (!Truthy(f.password) ==> after.password == before.password)
  {
    if !HasProfileFields(f) then Handled(Err(400, NoFieldsToUpdate), s)
    else if me.id !in s.users then Handled(Ok(200, None), s)
    else
      var u := ApplyProfile(env, s.users[me.id], f);
      Handled(Ok(200, Some(ProfileOf(u))), s.(users := s.users[me.id := u]))
  }

  /** A profile update touches no other user's row and no other table, and
      what it answers is what the profile read then returns. */
  lemma UpdateProfileIsSelfOnly(s: Store, env: Env, me: Profile, f: ProfileFields)
    ensures var h := UpdateProfile(s, env, me, f);
      && h.next.rooms == s.rooms && h.next.bookings == s.bookings
      && h.next.users.Keys == s.users.Keys
      && (forall k :: k in s.users && k != me.id ==> h.next.users[k] == s.users[k])
      && (forall k :: k in s.users ==> h.next.users[k].role == s.users[k].role)
      && (h.reply.Ok? ==> h.reply.body == GetProfile(h.next, me))
  {
  }

  // ---------------------------------------------------------------------
  // Admin
  // ---------------------------------------------------------------------

  /** `deleteUser`: an id that removes no row answers 404.  The user's
      bookings stay in their table. */
  function DeleteUser(s: Store, id: int): (h: Handled<string>)
    ensures id !in s.users ==> h == Handled(Err(404, UserNotFound), s)
    ensures id in s.users ==> h.reply == Ok(200, UserRemoved)
    ensures h.next == s.(users := s.users - {id})
    ensures id !in h.next.users
  {
    if id !in s.users then Handled(Err(404, UserNotFound), s)
    else Handled(Ok(200, UserRemoved), s.(users := s.users - {id}))
  }

  /** The columns `getUsers` selects: everything but the password. */
  datatype UserListing = UserListing(profile: Profile, isActive: bool, createdAt: int)

  function ListingOf(u: User): UserListing {
    UserListing(ProfileOf(u), u.isActive, u.createdAt)
  }

  /** Users that differ only in their password hash list identically, so the
      listing shows nothing of the password; every other column is kept. */
  lemma ListingHidesPassword(u: User, v: User)
    ensures ListingOf(u) == ListingOf(v) <==> u.(password := v.password) == v
  {
    if ListingOf(u) == ListingOf(v) {
      assert ProfileOf(u) == ProfileOf(v);
    }
  }

  /** `ORDER BY created_at DESC`. */
  function UserRank(u: User): Listing.Rank {
    Listing.Rank(u.createdAt, 0)
  }

  /** `getUsers`: every user once, without password, newest first. */
  method GetUsers(s: Store) returns (out: seq<UserListing>)
    ensures |out| == |s.users|
    ensures forall i :: 0 <= i < |out| ==> exists k :: k in s.users && out[i] == ListingOf(s.users[k])
    ensures forall k :: k in s.users ==> ListingOf(s.users[k]) in out
    ensures forall i, j :: 0 <= i < j < |out| ==> out[i].createdAt >= out[j].createdAt
  {
    var ids := Listing.Ordered(s.users, s.users.Keys, UserRank);
    out := seq(|ids|, i requires 0 <= i < |ids| => ListingOf(s.users[ids[i]]));
    forall i | 0 <= i < |out|
      ensures exists k :: k in s.users && out[i] == ListingOf(s.users[k])
    {
      var k := ids[i];
      assert k in s.users;
      assert out[i] == ListingOf(s.users[k]);
    }
    forall k | k in s.users
      ensures ListingOf(s.users[k]) in out
    {
      var i :| 0 <= i < |ids| && ids[i] == k;
      assert out[i] == ListingOf(s.users[k]);
    }
    forall i, j | 0 <= i < j < |out|
      ensures out[i].createdAt >= out[j].createdAt
    {
      assert Listing.AtLeast(UserRank(s.users[ids[i]]), UserRank(s.users[ids[j]]));
    }
  }
}
