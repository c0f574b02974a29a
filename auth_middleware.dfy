/**
 * Request authentication (middleware/auth.js). The bearer token is the
 * second space-separated word of the Authorization header; JSON Web Token
 * (RFC 7519) verification is a function parameter that yields the user id
 * the token carries, or nothing when the token is invalid or expired.
 */
module AuthMiddleware {
  import opened Wrappers
  import Js
  import UserModel

  /** `header?.split(' ')[1]`: the second word, if the header has one. */
  function Token(authorization: Option<string>): (t: Option<string>)
    ensures t.Some? ==> ' ' !in t.value
  {
    if authorization.None? then None
    else
      var parts := Js.Split(authorization.value, ' ');
      if |parts| >= 2 then Some(parts[1]) else None
  }

  /** A header `scheme + " " + token` carries exactly `token`. */
  lemma {:induction false} TokenOfBearer(scheme: string, token: string)
    requires ' ' !in scheme && ' ' !in token
    ensures Token(Some(scheme + " " + token)) == Some(token)
  {
    assert scheme + " " + token == scheme + (" " + token);
    Js.SplitWord(scheme, " " + token, ' ');
    assert (" " + token)[1..] == token;
    Js.SplitWhole(token, ' ');
    assert Js.Split(scheme + " " + token, ' ') == [scheme, token];
  }

  /** `!token`: no token, or an empty one. */
  predicate Missing(token: Option<string>) {
    token.None? || token.value == ""
  }

  /** The account a token names, when it verifies and that account exists and is active. */
  function Authenticated(users: seq<UserModel.User>, token: string, verify: string -> Option<nat>): (u: Option<UserModel.User>)
    ensures u.Some? ==> u.value in users && u.value.isActive
    ensures u.Some? <==> verify(token).Some? && UserModel.FindByPk(users, verify(token).value).Some?
                         && users[UserModel.FindByPk(users, verify(token).value).value].isActive
    ensures u.Some? ==> u.value == users[UserModel.FindByPk(users, verify(token).value).value]
                        && u.value.id == verify(token).value
  {
    match verify(token)
    case None => None
    case Some(id) =>
      match UserModel.FindByPk(users, id)
      case None => None
      case Some(i) => if users[i].isActive then Some(users[i]) else None
  }

  /** What `optionalAuth` leaves on the request; it always continues. */
  datatype Identity = Identity(user: Option<UserModel.User>, isGuest: bool)

  /** `optionalAuth`: a missing or bad token, or an unknown or inactive account, is a guest. */
  function OptionalAuth(users: seq<UserModel.User>, authorization: Option<string>,
                        verify: string -> Option<nat>): (id: Identity)
    ensures id.isGuest <==> id.user.None?
    ensures Missing(Token(authorization)) ==> id == Identity(None, true)
    ensures !Missing(Token(authorization)) ==> id.user == Authenticated(users, Token(authorization).value, verify)
  {
    var token := Token(authorization);
    if Missing(token) then Identity(None, true)
    else
      match Authenticated(users, token.value, verify)
      case None => Identity(None, true)
      case Some(u) => Identity(Some(u), false)
  }

  datatype Gate =
    | Pass(user: UserModel.User)
    | Reject(status: int, message: string)

  /** `requireAuth`: the same checks as `optionalAuth`, answered with 401 instead of a guest. */
  function RequireAuth(users: seq<UserModel.User>, authorization: Option<string>,
                       verify: string -> Option<nat>): (g: Gate)
    ensures Missing(Token(authorization)) ==> g == Reject(401, "Authentication required")
    ensures !Missing(Token(authorization)) && g.Reject? ==> g == Reject(401, "Invalid or expired token")
    ensures g.Pass? ==> g.user.isActive && g.user in users
    ensures !Missing(Token(authorization)) ==>
              var id := verify(Token(authorization).value);
              (g.Pass? <==> id.Some? && UserModel.FindByPk(users, id.value).Some?
                            && users[UserModel.FindByPk(users, id.value).value].isActive)
              && (g.Pass? ==> g.user == users[UserModel.FindByPk(users, id.value).value] && g.user.id == id.value)
  {
    var token := Token(authorization);
    if Missing(token) then Reject(401, "Authentication required")
    else
      match Authenticated(users, token.value, verify)
      case None => Reject(401, "Invalid or expired token")
      case Some(u) => Pass(u)
  }

  /** The two middlewares agree: a request passes `requireAuth` exactly when `optionalAuth` finds a user, the same one. */
  lemma RequireAgreesWithOptional(users: seq<UserModel.User>, authorization: Option<string>,
                                  verify: string -> Option<nat>)
    ensures var id := OptionalAuth(users, authorization, verify);
            var g := RequireAuth(users, authorization, verify);
            (g.Pass? <==> !id.isGuest) && (g.Pass? ==> id.user == Some(g.user))
  {
  }

  datatype CreditGate =
    | Proceed
    | SignInRequired                             // 403, requiresAuth: true
    | InsufficientCredits(credits: int, required: int)  // 402, needsUpgrade: true

  /**
   * `checkCredits(cost = 1)`: a guest is sent to sign in, the unlimited plan
   * always proceeds, and otherwise a balance below the cost is refused.
   */
  function CheckCredits(cost: Option<int>, user: Option<UserModel.User>): (r: CreditGate)
    ensures user.None? <==> r == SignInRequired
    ensures user.Some? && user.value.plan == UserModel.Unlimited ==> r == Proceed
    ensures user.Some? && user.value.plan != UserModel.Unlimited ==>
              var c := if cost.Some? then cost.value else 1;
              (r == Proceed <==> user.value.credits >= c)
              && (r.InsufficientCredits? ==> r.credits == user.value.credits && r.required == c)
  {
    var c := cost.GetOr(1);
    match user
    case None => SignInRequired
    case Some(u) =>
      if u.plan == UserModel.Unlimited then Proceed
      else if u.credits < c then InsufficientCredits(u.credits, c)
      else Proceed
  }

  /** A request that passes the gate can afford the debit `deductCredits` would make. */
  lemma GatePassImpliesDebit(cost: Option<int>, u: UserModel.User)
    requires CheckCredits(cost, Some(u)) == Proceed
    ensures UserModel.Debit(u.plan, u.credits, cost.GetOr(1)).Some?
  {
  }
}
