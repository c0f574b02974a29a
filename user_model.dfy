/**
 * The `users` table (models/UserModel.js): accounts with a credit balance and
 * a plan. Passwords are stored as bcrypt digests; bcrypt itself is not
 * modelled, only that a digest is made from the first 72 UTF-8 bytes of the
 * password and from nothing else.
 */
module UserModel {
  import opened Wrappers
  import opened Db
  import Utf8

  datatype Plan = Free | Starter | Pro | Unlimited

  /** `DataTypes.STRING`: a VARCHAR(255) column. */
  const MaxStringLength := 255

  /** The bytes of a password bcrypt reads. */
  const BcryptKeyLength := 72

  /** A bcrypt digest, by the key it was made from (salt and cost are not modelled). */
  datatype Digest = Hashed(key: seq<Utf8.byte>)

  /** The key bcrypt takes from a password: its UTF-8 bytes, cut to the first 72. */
  function BcryptKey(password: string): (k: seq<Utf8.byte>)
    ensures |k| <= BcryptKeyLength && k <= Utf8.Encode(password)
    ensures |Utf8.Encode(password)| <= BcryptKeyLength ==> k == Utf8.Encode(password)
  {
    var b := Utf8.Encode(password);
    if |b| <= BcryptKeyLength then b else b[..BcryptKeyLength]
  }

  /** `bcrypt.hash` of a password. */
  function Bcrypt(password: string): Digest {
    Hashed(BcryptKey(password))
  }

  /** Whatever follows the first 72 bytes of a password does not change its digest. */
  lemma BcryptIgnoresTail(password: string, tail: string)
    requires |Utf8.Encode(password)| >= BcryptKeyLength
    ensures Bcrypt(password + tail) == Bcrypt(password)
  {
    Utf8.EncodeAppend(password, tail);
    var b := Utf8.Encode(password);
    assert (b + Utf8.Encode(tail))[..BcryptKeyLength] == b[..BcryptKeyLength];
  }

  /** Passwords of at most 72 bytes have digests of their own. */
  lemma BcryptShortPasswordsDistinct(p: string, q: string)
    requires |Utf8.Encode(p)| <= BcryptKeyLength && |Utf8.Encode(q)| <= BcryptKeyLength
    requires Bcrypt(p) == Bcrypt(q)
    ensures p == q
  {
    Utf8.EncodeInjective(p, q);
  }

  datatype User = User(
    id: nat,
    name: string,
    email: string,
    password: Option<Digest>,   // absent for accounts made through Google sign-in
    googleId: Option<string>,
    credits: int,
    plan: Plan,
    isActive: bool)

  /** What `toJSON` sends to a client: every column but the password. */
  datatype UserJson = UserJson(
    id: nat,
    name: string,
    email: string,
    googleId: Option<string>,
    credits: int,
    plan: Plan,
    isActive: bool)

  const DefaultCredits := 30

  /** The `beforeCreate` hook: a truthy password is replaced by its digest. */
  function HashOnCreate(password: Option<string>): (d: Option<Digest>)
    ensures d.Some? <==> password.Some? && password.value != ""
    ensures d.Some? ==> d.value == Bcrypt(password.value)
  {
    if password.Some? && password.value != "" then Some(Bcrypt(password.value)) else None
  }

  /** What a VARCHAR(255) column keeps of a string it accepts. */
  function Kept(s: string): (k: string)
    requires Varchar(s, MaxStringLength).Some?
    ensures k <= s && |k| <= MaxStringLength
    ensures |s| <= MaxStringLength ==> k == s
  {
    Varchar(s, MaxStringLength).value
  }

  /** Whether a new row's values fit their columns: the strings their
      VARCHAR(255), cut of trailing spaces if need be, the balance INTEGER. */
  predicate Storable(name: string, email: string, googleId: Option<string>, credits: Option<int>) {
    && Varchar(name, MaxStringLength).Some? && Varchar(email, MaxStringLength).Some?
    && (googleId.Some? ==> Varchar(googleId.value, MaxStringLength).Some?)
    && (credits.Some? ==> IsInteger(credits.value))
  }

  /** The Google id a row keeps. */
  function KeptId(googleId: Option<string>): (g: Option<string>)
    requires googleId.Some? ==> Varchar(googleId.value, MaxStringLength).Some?
    ensures g.Some? <==> googleId.Some?
    ensures g.Some? ==> g.value == Kept(googleId.value)
  {
    if googleId.Some? then Some(Kept(googleId.value)) else None
  }

  /** A row within its column types. */
  predicate FitsColumns(u: User) {
    && |u.name| <= MaxStringLength && |u.email| <= MaxStringLength
    && (u.googleId.Some? ==> |u.googleId.value| <= MaxStringLength)
    && IsInteger(u.credits)
  }

  /** A new row with the column defaults (30 credits, the free plan, active)
      and each value as its column keeps it. */
  function NewUser(id: nat, name: string, email: string, password: Option<string>,
                   googleId: Option<string>, credits: Option<int>, plan: Option<Plan>): (u: User)
    requires Storable(name, email, googleId, credits)
    ensures FitsColumns(u)
    ensures u.credits == (if credits.Some? then credits.value else DefaultCredits)
    ensures u.plan == (if plan.Some? then plan.value else Free)
    ensures u.isActive
    ensures u.id == id && u.email == Kept(email) && u.googleId == KeptId(googleId) && u.name == Kept(name)
    ensures u.password == HashOnCreate(password)
  {
    User(id, Kept(name), Kept(email), HashOnCreate(password), KeptId(googleId),
         credits.GetOr(DefaultCredits), plan.GetOr(Free), true)
  }

  /** `comparePassword`: bcrypt refuses to compare against a missing digest,
      and otherwise compares the digest of the candidate's first 72 bytes. */
  function ComparePassword(u: User, candidate: string): (r: Result<bool, string>)
    ensures r.Err? <==> u.password.None?
    ensures r.Ok? ==> (r.value <==> u.password.value == Bcrypt(candidate))
  {
    match u.password
    case None => Err("Illegal arguments")
    case Some(d) => Ok(d == Bcrypt(candidate))
  }

  /** `toJSON`: a copy of the row without its password. */
  function ToJson(u: User): (j: UserJson)
    ensures FromJson(j, u.password) == u
  {
    UserJson(u.id, u.name, u.email, u.googleId, u.credits, u.plan, u.isActive)
  }

  /** The row a client view came from, given the password column back. */
  function FromJson(j: UserJson, password: Option<Digest>): (u: User)
    ensures u.password == password
    ensures u.id == j.id && u.email == j.email && u.credits == j.credits && u.plan == j.plan && u.isActive == j.isActive
  {
    User(j.id, j.name, j.email, password, j.googleId, j.credits, j.plan, j.isActive)
  }

  /** Only the password is dropped: the rest of the row can be rebuilt from the JSON. */
  lemma ToJsonKeepsAllButPassword(u: User)
    ensures FromJson(ToJson(u), u.password) == u
    ensures forall p :: ToJson(u.(password := p)) == ToJson(u)
  {
  }

  /**
   * The debit rule of `deductCredits`: on the unlimited plan the balance is
   * left alone and the call succeeds; otherwise a balance below `amount`
   * refuses the debit (None) and any other balance falls by `amount`.
   */
  function Debit(plan: Plan, credits: int, amount: int): (r: Option<int>)
    ensures plan == Unlimited ==> r == Some(credits)
    ensures plan != Unlimited ==> (r.None? <==> credits < amount)
    ensures plan != Unlimited && r.Some? ==> r.value == credits - amount
  {
    if plan == Unlimited then Some(credits)
    else if credits < amount then None
    else Some(credits - amount)
  }

  /** With a non-negative amount, a successful debit never leaves a negative balance. */
  lemma DebitNeverOverdraws(plan: Plan, credits: int, amount: int)
    requires credits >= 0 && amount >= 0
    ensures Debit(plan, credits, amount).Some? ==> 0 <= Debit(plan, credits, amount).value <= credits
  {
  }

  /** `addCredits` followed by a debit of the same amount gives the balance back. */
  lemma AddThenDebitRestores(plan: Plan, credits: int, amount: int)
    requires plan != Unlimited && credits >= 0
    ensures Debit(plan, credits + amount, amount) == Some(credits)
  {
  }

  predicate WellFormed(rows: seq<User>, nextId: nat) {
    && (forall i, j :: 0 <= i < j < |rows| ==> rows[i].id != rows[j].id)
    && (forall i, j :: 0 <= i < j < |rows| ==> rows[i].email != rows[j].email)
    && (forall i, j :: 0 <= i < j < |rows| && rows[i].googleId.Some? ==> rows[i].googleId != rows[j].googleId)
    && forall i :: 0 <= i < |rows| ==> rows[i].id < nextId && FitsColumns(rows[i])
  }

  /** `findByPk`. */
  function FindByPk(rows: seq<User>, id: nat): (r: Option<nat>)
    ensures r.Some? ==> r.value < |rows| && rows[r.value].id == id
    ensures r.None? <==> forall j :: 0 <= j < |rows| ==> rows[j].id != id
    ensures r.Some? ==> forall j :: 0 <= j < r.value ==> rows[j].id != id
  {
    if rows == [] then None
    else if rows[0].id == id then Some(0)
    else match FindByPk(rows[1..], id)
      case None => None
      case Some(k) => Some(k + 1)
  }

  /** `findOne({ where: { email } })`. */
  function FindByEmail(rows: seq<User>, email: string): (r: Option<nat>)
    ensures r.Some? ==> r.value < |rows| && rows[r.value].email == email
    ensures r.None? <==> forall j :: 0 <= j < |rows| ==> rows[j].email != email
    ensures r.Some? ==> forall j :: 0 <= j < r.value ==> rows[j].email != email
  {
    if rows == [] then None
    else if rows[0].email == email then Some(0)
    else match FindByEmail(rows[1..], email)
      case None => None
      case Some(k) => Some(k + 1)
  }

  /** `findOne({ where: { googleId } })`. */
  function FindByGoogleId(rows: seq<User>, googleId: string): (r: Option<nat>)
    ensures r.Some? ==> r.value < |rows| && rows[r.value].googleId == Some(googleId)
    ensures r.None? <==> forall j :: 0 <= j < |rows| ==> rows[j].googleId != Some(googleId)
    ensures r.Some? ==> forall j :: 0 <= j < r.value ==> rows[j].googleId != Some(googleId)
  {
    if rows == [] then None
    else if rows[0].googleId == Some(googleId) then Some(0)
    else match FindByGoogleId(rows[1..], googleId)
      case None => None
      case Some(k) => Some(k + 1)
  }

  /** Whether an insert would break the unique email or googleId index. */
  predicate Collides(rows: seq<User>, email: string, googleId: Option<string>) {
    FindByEmail(rows, email).Some? || (googleId.Some? && FindByGoogleId(rows, googleId.value).Some?)
  }

  /** Whether row `i` can take a Google id and name: both fit their columns
      and no other row holds the id as kept. */
  predicate LinkAdmits(rows: seq<User>, i: nat, googleId: string, name: string) {
    && Varchar(googleId, MaxStringLength).Some? && Varchar(name, MaxStringLength).Some?
    && forall j :: 0 <= j < |rows| && j != i ==> rows[j].googleId != Some(Kept(googleId))
  }

  /** Row `u` once linked: the kept id and name. */
  function Linked(u: User, googleId: string, name: string): (v: User)
    requires Varchar(googleId, MaxStringLength).Some? && Varchar(name, MaxStringLength).Some?
    ensures FitsColumns(u) ==> FitsColumns(v)
  {
    u.(googleId := Some(Kept(googleId)), name := Kept(name))
  }

  class UserTable {
    var rows: seq<User>
    var nextId: nat

    ghost predicate Valid()
      reads this
    {
      WellFormed(rows, nextId)
    }

    constructor ()
      ensures Valid() && rows == [] && nextId == 0
    {
      rows := [];
      nextId := 0;
    }

    /** `User.create`: the insert fails on a value its column cannot hold, and
        on an email or googleId (as kept) that a row already holds. */
    method Create(name: string, email: string, password: Option<string>, googleId: Option<string>,
                  credits: Option<int>, plan: Option<Plan>) returns (r: Result<nat, DbError>)
      requires Valid()
      modifies this
      ensures Valid()
      ensures r.Err? <==> !Storable(name, email, googleId, credits) || Collides(old(rows), Kept(email), KeptId(googleId))
      ensures r.Err? ==> rows == old(rows) && nextId == old(nextId)
      ensures r.Err? ==> r.error == (if Storable(name, email, googleId, credits) then UniqueViolation
                                     else if Varchar(name, MaxStringLength).Some? && Varchar(email, MaxStringLength).Some?
                                             && (googleId.Some? ==> Varchar(googleId.value, MaxStringLength).Some?)
                                     then OutOfRange else ValueTooLong)
      ensures r.Ok? ==> r.value == old(nextId) && nextId == old(nextId) + 1
      ensures r.Ok? ==> rows == old(rows) + [NewUser(old(nextId), name, email, password, googleId, credits, plan)]
    {
      if Varchar(name, MaxStringLength).None? || Varchar(email, MaxStringLength).None?
         || (googleId.Some? && Varchar(googleId.value, MaxStringLength).None?) {
        return Err(ValueTooLong);
      }
      if credits.Some? && !IsInteger(credits.value) {
        return Err(OutOfRange);
      }
      if Collides(rows, Kept(email), KeptId(googleId)) {
        return Err(UniqueViolation);
      }
      var u := NewUser(nextId, name, email, password, googleId, credits, plan);
      rows := rows + [u];
      r := Ok(nextId);
      nextId := nextId + 1;
    }

    /**
     * `deductCredits`, called on a loaded copy `self` of a row: the plan is read
     * from the copy, the balance from the row re-read by id. Answers whether
     * the debit happened, and the copy as the call leaves it.
     */
    method DeductCredits(self: User, amount: int) returns (ok: bool, self': User)
      requires Valid()
      modifies this
      ensures Valid() && nextId == old(nextId)
      ensures self.plan == Unlimited ==> ok && rows == old(rows) && self' == self
      ensures self.plan != Unlimited && FindByPk(old(rows), self.id).None? ==>
                !ok && rows == old(rows) && self' == self
      ensures self.plan != Unlimited && FindByPk(old(rows), self.id).Some? ==>
                var i := FindByPk(old(rows), self.id).value;
                var d := Debit(self.plan, old(rows)[i].credits, amount);
                && (ok <==> d.Some? && IsInteger(d.value))
                && (ok ==> rows == old(rows)[i := old(rows)[i].(credits := d.value)]
                           && self' == self.(credits := d.value))
                && (!ok ==> rows == old(rows) && self' == self)
    {
      if self.plan == Unlimited {
        return true, self;
      }
      var found := FindByPk(rows, self.id);
      if found.None? {
        return false, self;
      }
      var i := found.value;
      if rows[i].credits < amount {
        return false, self;
      }
      var balance := rows[i].credits - amount;
      if !IsInteger(balance) {
        return false, self;
      }
      rows := rows[i := rows[i].(credits := balance)];
      ok, self' := true, self.(credits := balance);
    }

    /** `addCredits` on row `i`: the balance rises by `amount` and is returned,
        unless the sum does not fit the INTEGER column and the save fails. */
    method AddCredits(i: nat, amount: int) returns (r: Result<int, DbError>)
      requires Valid() && i < |rows|
      modifies this
      ensures Valid() && nextId == old(nextId)
      ensures r.Err? <==> !IsInteger(old(rows)[i].credits + amount)
      ensures r.Err? ==> r.error == OutOfRange && rows == old(rows)
      ensures r.Ok? ==> r.value == old(rows)[i].credits + amount
                        && rows == old(rows)[i := old(rows)[i].(credits := r.value)]
    {
      var balance := rows[i].credits + amount;
      if !IsInteger(balance) {
        return Err(OutOfRange);
      }
      rows := rows[i := rows[i].(credits := balance)];
      r := Ok(balance);
    }

    /** Saving a new display name on row `i`; refused when the column cannot hold it. */
    method SetName(i: nat, name: string) returns (ok: bool)
      requires Valid() && i < |rows|
      modifies this
      ensures Valid() && nextId == old(nextId)
      ensures ok <==> Varchar(name, MaxStringLength).Some?
      ensures ok ==> rows == old(rows)[i := old(rows)[i].(name := Kept(name))]
      ensures !ok ==> rows == old(rows)
    {
      if Varchar(name, MaxStringLength).None? {
        return false;
      }
      rows := rows[i := rows[i].(name := Kept(name))];
      ok := true;
    }

    /** Linking row `i` to a Google account, taking the profile's name; refused
        when a column cannot hold a value or another row holds the id. */
    method LinkGoogle(i: nat, googleId: string, name: string) returns (ok: bool)
      requires Valid() && i < |rows|
      modifies this
      ensures Valid() && nextId == old(nextId)
      ensures ok <==> LinkAdmits(old(rows), i, googleId, name)
      ensures ok ==> rows == old(rows)[i := Linked(old(rows)[i], googleId, name)]
      ensures !ok ==> rows == old(rows)
    {
      if !LinkAdmits(rows, i, googleId, name) {
        return false;
      }
      rows := rows[i := Linked(rows[i], googleId, name)];
      ok := true;
    }
  }
}
