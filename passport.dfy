/**
 * Google sign-in (config/passport.js): the strategy callback finds the
 * account of a Google profile, links it to an account with the same email,
 * or creates one; sessions store the account id.
 */
module Passport {
  import opened Wrappers
  import UserModel

  datatype Profile = Profile(id: string, emails: seq<string>, displayName: string)

  /** `done(error, null)` or `done(null, user)`. */
  datatype Done = SignInError | SignedIn(user: UserModel.User)

  const GoogleSignupCredits := 30

  /**
   * The strategy callback: the Google id is looked up first; otherwise the
   * first email's account is linked to the profile (taking its name);
   * otherwise a new account is made with 30 credits on the free plan. A save
   * or insert the table refuses is passed to `done` as an error.
   */
  method Verify(users: UserModel.UserTable, profile: Profile) returns (done: Done)
    requires users.Valid()
    modifies users
    ensures users.Valid()
    ensures done.SignInError? ==> users.rows == old(users.rows)
    ensures UserModel.FindByGoogleId(old(users.rows), profile.id).Some? ==>
              users.rows == old(users.rows)
              && done == SignedIn(old(users.rows)[UserModel.FindByGoogleId(old(users.rows), profile.id).value])
    ensures UserModel.FindByGoogleId(old(users.rows), profile.id).None? && profile.emails == [] ==>
              done == SignInError
    ensures UserModel.FindByGoogleId(old(users.rows), profile.id).None? && profile.emails != []
            && UserModel.FindByEmail(old(users.rows), profile.emails[0]).Some? ==>
              var i := UserModel.FindByEmail(old(users.rows), profile.emails[0]).value;
              && (done.SignedIn? <==> UserModel.LinkAdmits(old(users.rows), i, profile.id, profile.displayName))
              && (done.SignedIn? ==>
                    var linked := UserModel.Linked(old(users.rows)[i], profile.id, profile.displayName);
                    users.rows == old(users.rows)[i := linked] && done == SignedIn(linked))
    ensures UserModel.FindByGoogleId(old(users.rows), profile.id).None? && profile.emails != []
            && UserModel.FindByEmail(old(users.rows), profile.emails[0]).None? ==>
              && (done.SignedIn? <==>
                    UserModel.Storable(profile.displayName, profile.emails[0], Some(profile.id), Some(GoogleSignupCredits))
                    && !UserModel.Collides(old(users.rows), UserModel.Kept(profile.emails[0]),
                                           Some(UserModel.Kept(profile.id))))
              && (done.SignedIn? ==>
                    var u := UserModel.NewUser(old(users.nextId), profile.displayName, profile.emails[0], None,
                                               Some(profile.id), Some(GoogleSignupCredits), Some(UserModel.Free));
                    users.rows == old(users.rows) + [u] && done == SignedIn(u))
  {
    var byGoogle := UserModel.FindByGoogleId(users.rows, profile.id);
    if byGoogle.Some? {
      return SignedIn(users.rows[byGoogle.value]);
    }
    if profile.emails == [] {
      return SignInError;
    }
    var byEmail := UserModel.FindByEmail(users.rows, profile.emails[0]);
    if byEmail.Some? {
      var i := byEmail.value;
      var ok := users.LinkGoogle(i, profile.id, profile.displayName);
      if !ok {
        return SignInError;
      }
      return SignedIn(users.rows[i]);
    }
    var created := users.Create(profile.displayName, profile.emails[0], None, Some(profile.id),
                                Some(GoogleSignupCredits), Some(UserModel.Free));
    match created
    case Err(_) => done := SignInError;
    case Ok(_) => done := SignedIn(users.rows[|users.rows| - 1]);
  }

  /** `serializeUser`: the session keeps the account id. */
  function SerializeUser(u: UserModel.User): (id: nat)
    ensures id == u.id
  {
    u.id
  }

  /** `deserializeUser`: the account with that id, or none. */
  function DeserializeUser(users: seq<UserModel.User>, id: nat): (u: Option<UserModel.User>)
    ensures u.Some? ==> u.value in users && u.value.id == id
    ensures u.None? <==> forall j :: 0 <= j < |users| ==> users[j].id != id
  {
    match UserModel.FindByPk(users, id)
    case None => None
    case Some(i) => Some(users[i])
  }

  /** With unique ids, a session gives back the account it was made for. */
  lemma SessionRoundTrip(users: seq<UserModel.User>, nextId: nat, i: nat)
    requires UserModel.WellFormed(users, nextId) && i < |users|
    ensures DeserializeUser(users, SerializeUser(users[i])) == Some(users[i])
  {
  }
}
