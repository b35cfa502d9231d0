/**
 * One-time-password login (controllers/authController.js): `requestOtp`
 * stores a hashed code with a five-minute expiry and a zeroed try counter,
 * creating an ADMIN user on first contact; `verifyOtp` checks the code,
 * counting every comparison and locking the code after five tries.
 *
 * The random code and the keyed hash are not modelled: the code is a
 * parameter of the request and the hash a function parameter, compared by
 * equality.
 */
module Auth {
  import opened Wrappers
  import opened Text

  /** `OTP_TTL_MS`: five minutes. */
  const OtpTtlMs: int := 5 * 60 * 1000

  /** `MAX_TRIES`. */
  const MaxTries: nat := 5

  datatype Role = AdminRole | StaffRole | UserRole

  datatype User = User(
    identifier: string,
    name: string,
    otpHash: Option<string>,
    otpExpiresAt: Option<int>,
    otpTries: nat,
    role: Role)

  datatype AuthError = IdentifierRequired | InvalidInput | OtpRequired | OtpTriesExceeded | OtpExpired | OtpInvalid

  /** `(x || "").trim().toLowerCase()`. */
  function Normalize(raw: Option<string>): string {
    ToLower(Trim(raw.GetOr("")))
  }

  /** `!user.otpHash` is false: a non-empty hash is stored. */
  predicate HasOtp(u: User) {
    u.otpHash.Some? && u.otpHash.value != ""
  }

  /** `!user.otpExpiresAt || user.otpExpiresAt.getTime() < now`. */
  predicate Expired(u: User, now: int) {
    u.otpExpiresAt.None? || u.otpExpiresAt.value < now
  }

  /** `User.findOne({ identifier })`: the first user with that identifier. */
  function Find(users: seq<User>, id: string): (r: Option<nat>)
    ensures r.Some? ==> r.value < |users| && users[r.value].identifier == id
    ensures r.Some? ==> forall k :: 0 <= k < r.value ==> users[k].identifier != id
    ensures r.None? <==> forall k :: 0 <= k < |users| ==> users[k].identifier != id
  {
    if users == [] then None
    else if users[0].identifier == id then Some(0)
    else match Find(users[1..], id)
      case None => None
      case Some(k) => Some(k + 1)
  }

  /** No two users share an identifier (the schema's unique index). */
  predicate UniqueIds(users: seq<User>) {
    forall i, j :: 0 <= i < j < |users| ==> users[i].identifier != users[j].identifier
  }

  /** `User.create({ identifier, name: "", role: "ADMIN" })`. */
  function NewUser(id: string): User {
    User(id, "", None, None, 0, AdminRole)
  }

  /** A fresh code: its hash, an expiry five minutes after `now`, no tries. */
  function Issued(u: User, otp: string, hash: string -> string, now: int): User {
    u.(otpHash := Some(hash(otp)), otpExpiresAt := Some(now + OtpTtlMs), otpTries := 0)
  }

  /** The reply and the users after one request or verification. */
  datatype Step = Step(reply: Result<User, AuthError>, users: seq<User>)

  /** `requestOtp` for the normalised identifier `id` with the generated code `otp`. */
  function RequestStep(users: seq<User>, id: string, otp: string, hash: string -> string, now: int): Step {
    if id == "" then Step(Failure(IdentifierRequired), users)
    else match Find(users, id)
      case Some(k) =>
        var u := Issued(users[k], otp, hash, now);
        Step(Success(u), users[k := u])
      case None =>
        var u := Issued(NewUser(id), otp, hash, now);
        Step(Success(u), users + [u])
  }

  /** `verifyOtp` for the normalised identifier `id` and the trimmed code `code`. */
  function VerifyStep(users: seq<User>, id: string, code: string, hash: string -> string, now: int): Step {
    if id == "" || code == "" then Step(Failure(InvalidInput), users)
    else match Find(users, id)
      case None => Step(Failure(OtpRequired), users)
      case Some(k) =>
        var u := users[k];
        if !HasOtp(u) then Step(Failure(OtpRequired), users)
        else if u.otpTries >= MaxTries then Step(Failure(OtpTriesExceeded), users)
        else if Expired(u, now) then Step(Failure(OtpExpired), users)
        else if u.otpHash.value != hash(code) then
          Step(Failure(OtpInvalid), users[k := u.(otpTries := u.otpTries + 1)])
        else
          var cleared := u.(otpHash := None, otpExpiresAt := None, otpTries := 0);
          Step(Success(cleared), users[k := cleared])
  }

  /** `(otp || "").trim()`. */
  function Code(otp: Option<string>): string {
    Trim(otp.GetOr(""))
  }

  /** Lower-casing after trimming keeps the string empty or non-empty, so checking before or after it is the same. */
  lemma NormalizeEmpty(raw: Option<string>)
    ensures Normalize(raw) == "" <==> Trim(raw.GetOr("")) == ""
  {
  }

  /** Replacing a user by one with the same identifier keeps the identifiers unique. */
  lemma SetTriesKeepsIds(users: seq<User>, k: nat, u: User)
    requires UniqueIds(users) && k < |users| && u.identifier == users[k].identifier
    ensures UniqueIds(users[k := u])
  {
    var t := users[k := u];
    forall i, j | 0 <= i < j < |t| ensures t[i].identifier != t[j].identifier {
      assert t[i].identifier == users[i].identifier && t[j].identifier == users[j].identifier;
    }
  }

  // ---------------------------------------------------------------- request

  /**
   * A request fails with IDENTIFIER_REQUIRED exactly when the identifier is
   * empty; otherwise that identifier's user (created as an ADMIN with an
   * empty name when missing) holds the code's hash, an expiry five minutes
   * ahead and no tries, and every other user is unchanged.
   */
  lemma RequestSpec(users: seq<User>, id: string, otp: string, hash: string -> string, now: int)
    requires UniqueIds(users)
    ensures var s := RequestStep(users, id, otp, hash, now);
      && (s.reply == Failure(IdentifierRequired) <==> id == "")
      && (s.reply.Failure? ==> s.users == users)
      && (s.reply.Success? ==>
        && UniqueIds(s.users)
        && Find(s.users, id).Some?
        && var k := Find(s.users, id).value;
        && s.users[k] == s.reply.value
        && s.reply.value.otpHash == Some(hash(otp))
        && s.reply.value.otpExpiresAt == Some(now + OtpTtlMs)
        && s.reply.value.otpTries == 0
        && (k < |users| ==> s.users[k].name == users[k].name && s.users[k].role == users[k].role)
        && (k == |users| ==> s.users[k].name == "" && s.users[k].role == AdminRole)
        && |s.users| >= |users|
        && forall j :: 0 <= j < |users| && j != k ==> s.users[j] == users[j])
  {
    if id != "" {
      var f := Find(users, id);
      if f.None? {
        var u := Issued(NewUser(id), otp, hash, now);
        FindAppended(users, u);
      } else {
        FindAfterUpdate(users, f.value, Issued(users[f.value], otp, hash, now), id);
      }
    }
  }

  /** A user appended under a new identifier is found at the end. */
  lemma FindAppended(users: seq<User>, u: User)
    requires Find(users, u.identifier).None?
    ensures Find(users + [u], u.identifier) == Some(|users|)
  {
    assert (users + [u])[|users|].identifier == u.identifier;
  }

  // ---------------------------------------------------------------- verify

  /**
   * Verification succeeds exactly when identifier and code are non-empty, the
   * user exists and holds a code, fewer than five tries were made, the code
   * has not expired and the hashes match.
   */
  lemma VerifySucceedsIff(users: seq<User>, id: string, code: string, hash: string -> string, now: int)
    ensures VerifyStep(users, id, code, hash, now).reply.Success? <==>
      id != "" && code != "" && Find(users, id).Some?
      && var u := users[Find(users, id).value];
      HasOtp(u) && u.otpTries < MaxTries && !Expired(u, now) && u.otpHash.value == hash(code)
  {
  }

  /**
   * Every failure other than OTP_INVALID leaves the users unchanged;
   * OTP_INVALID adds exactly one try to the user and changes nothing else;
   * success clears the hash and expiry and zeroes the tries.
   */
  lemma VerifyEffects(users: seq<User>, id: string, code: string, hash: string -> string, now: int)
    ensures var s := VerifyStep(users, id, code, hash, now);
      && (s.reply.Failure? && s.reply.error != OtpInvalid ==> s.users == users)
      && (s.reply == Failure(OtpInvalid) ==>
        Find(users, id).Some? && var k := Find(users, id).value;
        s.users == users[k := users[k].(otpTries := users[k].otpTries + 1)])
      && (s.reply.Success? ==>
        Find(users, id).Some? && var k := Find(users, id).value;
        && s.users == users[k := s.reply.value]
        && s.reply.value == users[k].(otpHash := None, otpExpiresAt := None, otpTries := 0))
  {
    var s := VerifyStep(users, id, code, hash, now);
    if id != "" && code != "" && Find(users, id).Some? {
      var k := Find(users, id).value;
      var u := users[k];
      if HasOtp(u) && u.otpTries < MaxTries && !Expired(u, now) {
        if u.otpHash.value != hash(code) {
          assert s == Step(Failure(OtpInvalid), users[k := u.(otpTries := u.otpTries + 1)]);
        } else {
          var cleared := u.(otpHash := None, otpExpiresAt := None, otpTries := 0);
          assert s == Step(Success(cleared), users[k := cleared]);
        }
      }
    }
  }

  /** A code verified with the same identifier within five minutes of its request is accepted. */
  lemma RequestThenVerify(users: seq<User>, id: string, otp: string, hash: string -> string, t0: int, now: int)
    requires UniqueIds(users)
    requires id != "" && otp != "" && hash(otp) != ""
    requires now <= t0 + OtpTtlMs
    ensures var s := RequestStep(users, id, otp, hash, t0);
      VerifyStep(s.users, id, otp, hash, now).reply.Success?
  {
    RequestSpec(users, id, otp, hash, t0);
  }

  /** The same code verified later than five minutes after its request is refused as expired. */
  lemma LateVerifyExpires(users: seq<User>, id: string, otp: string, hash: string -> string, t0: int, now: int)
    requires UniqueIds(users)
    requires id != "" && otp != "" && hash(otp) != ""
    requires now > t0 + OtpTtlMs
    ensures var s := RequestStep(users, id, otp, hash, t0);
      VerifyStep(s.users, id, otp, hash, now).reply == Failure(OtpExpired)
  {
    RequestSpec(users, id, otp, hash, t0);
  }

  /** A user with five or more tries gets OTP_TRIES_EXCEEDED, whatever the code, and nothing changes. */
  lemma LockedRefuses(users: seq<User>, id: string, code: string, hash: string -> string, now: int)
    requires id != "" && code != ""
    requires Find(users, id).Some?
    requires var u := users[Find(users, id).value]; HasOtp(u) && u.otpTries >= MaxTries
    ensures VerifyStep(users, id, code, hash, now) == Step(Failure(OtpTriesExceeded), users)
  {
  }

  // ---------------------------------------------------------------- runs of requests

  /** A request or a verification as it arrives: the raw body fields and the time. */
  datatype Event =
    | RequestEvent(raw: Option<string>, code: string, at: int)
    | VerifyEvent(identifier: Option<string>, otp: Option<string>, at: int)

  function EventId(e: Event): string {
    match e
    case RequestEvent(raw, _, _) => Normalize(raw)
    case VerifyEvent(identifier, _, _) => Normalize(identifier)
  }

  function Apply(users: seq<User>, e: Event, hash: string -> string): Step {
    match e
    case RequestEvent(raw, code, at) => RequestStep(users, Normalize(raw), code, hash, at)
    case VerifyEvent(identifier, otp, at) => VerifyStep(users, Normalize(identifier), Code(otp), hash, at)
  }

  /** The users after a sequence of requests and verifications, in order. */
  function Run(users: seq<User>, evs: seq<Event>, hash: string -> string): seq<User>
    decreases |evs|
  {
    if evs == [] then users else Run(Apply(users, evs[0], hash).users, evs[1..], hash)
  }

  /** How many verifications of `id` in the run were answered OTP_INVALID. */
  function Invalids(users: seq<User>, evs: seq<Event>, hash: string -> string, id: string): nat
    decreases |evs|
  {
    if evs == [] then 0
    else
      var s := Apply(users, evs[0], hash);
      (if evs[0].VerifyEvent? && EventId(evs[0]) == id && s.reply == Failure(OtpInvalid) then 1 else 0)
        + Invalids(s.users, evs[1..], hash, id)
  }

  /** The wrong guesses still allowed for `id`'s current code. */
  function Budget(users: seq<User>, id: string): (n: nat)
    ensures n <= MaxTries
  {
    match Find(users, id)
    case None => 0
    case Some(k) => if HasOtp(users[k]) && users[k].otpTries < MaxTries then MaxTries - users[k].otpTries else 0
  }

  predicate NoRequestFor(evs: seq<Event>, id: string) {
    forall i :: 0 <= i < |evs| ==> evs[i].RequestEvent? ==> EventId(evs[i]) != id
  }

  /** Changing a user in place without touching identifiers keeps every lookup. */
  lemma FindAfterUpdate(users: seq<User>, k: nat, u: User, id: string)
    requires k < |users| && u.identifier == users[k].identifier
    ensures Find(users[k := u], id) == Find(users, id)
  {
    var t := users[k := u];
    var a, b := Find(t, id), Find(users, id);
    if a.Some? {
      assert users[a.value].identifier == id;
    }
    if b.Some? {
      assert t[b.value].identifier == id;
    }
  }

  /** Appending a user with another identifier keeps the lookup of `id`. */
  lemma FindAfterAppend(users: seq<User>, u: User, id: string)
    requires u.identifier != id
    ensures Find(users + [u], id) == Find(users, id)
  {
    var t := users + [u];
    var a, b := Find(t, id), Find(users, id);
    if a.Some? {
      assert users[a.value].identifier == id;
    }
    if b.Some? {
      assert t[b.value].identifier == id;
    }
  }

  /** A request for another identifier leaves `id`'s lookup and record unchanged. */
  lemma OtherRequestKeeps(users: seq<User>, other: string, otp: string, hash: string -> string, now: int, id: string)
    requires other != id
    ensures var t := RequestStep(users, other, otp, hash, now).users;
      Find(t, id) == Find(users, id) && (Find(users, id).Some? ==> t[Find(users, id).value] == users[Find(users, id).value])
  {
    if other != "" {
      var k := Find(users, other);
      if k.Some? {
        FindAfterUpdate(users, k.value, Issued(users[k.value], otp, hash, now), id);
      } else {
        FindAfterAppend(users, Issued(NewUser(other), otp, hash, now), id);
      }
    }
  }

  /** A verification of another identifier leaves `id`'s lookup and record unchanged. */
  lemma OtherVerifyKeeps(users: seq<User>, other: string, code: string, hash: string -> string, now: int, id: string)
    requires other != id
    ensures var t := VerifyStep(users, other, code, hash, now).users;
      Find(t, id) == Find(users, id) && (Find(users, id).Some? ==> t[Find(users, id).value] == users[Find(users, id).value])
  {
    var s := VerifyStep(users, other, code, hash, now);
    VerifyEffects(users, other, code, hash, now);
    if s.users != users {
      var k := Find(users, other).value;
      FindAfterUpdate(users, k, s.users[k], id);
    }
  }

  /** One operation other than a request for `id` spends at most one wrong guess of `id` and never adds any. */
  lemma StepBudget(users: seq<User>, e: Event, hash: string -> string, id: string)
    requires e.RequestEvent? ==> EventId(e) != id
    ensures var s := Apply(users, e, hash);
      (if e.VerifyEvent? && EventId(e) == id && s.reply == Failure(OtpInvalid) then 1 else 0) + Budget(s.users, id)
        <= Budget(users, id)
  {
    match e
    case RequestEvent(raw, code, at) =>
      OtherRequestKeeps(users, Normalize(raw), code, hash, at, id);
    case VerifyEvent(identifier, otp, at) =>
      var other := Normalize(identifier);
      if other != id {
        OtherVerifyKeeps(users, other, Code(otp), hash, at, id);
      } else {
        VerifyBudget(users, id, Code(otp), hash, at);
      }
  }

  /** A verification of `id` answered OTP_INVALID spends one guess; any other answer spends none and may clear the code. */
  lemma VerifyBudget(users: seq<User>, id: string, code: string, hash: string -> string, now: int)
    ensures var s := VerifyStep(users, id, code, hash, now);
      (if s.reply == Failure(OtpInvalid) then 1 else 0) + Budget(s.users, id) <= Budget(users, id)
  {
    var s := VerifyStep(users, id, code, hash, now);
    VerifyEffects(users, id, code, hash, now);
    if s.users != users {
      var k := Find(users, id).value;
      FindAfterUpdate(users, k, s.users[k], id);
    }
  }

  /**
   * Between two requests for the same identifier at most five guesses are
   * answered OTP_INVALID: each such answer uses up one of the code's five
   * tries, and no other request or verification gives any back.
   */
  lemma {:induction false} GuessBudget(users: seq<User>, evs: seq<Event>, hash: string -> string, id: string)
    requires NoRequestFor(evs, id)
    ensures Invalids(users, evs, hash, id) + Budget(Run(users, evs, hash), id) <= Budget(users, id)
    decreases |evs|
  {
    if evs != [] {
      StepBudget(users, evs[0], hash, id);
      assert NoRequestFor(evs[1..], id) by {
        forall i | 0 <= i < |evs[1..]| && evs[1..][i].RequestEvent? ensures EventId(evs[1..][i]) != id {
          assert evs[1..][i] == evs[i + 1];
        }
      }
      GuessBudget(Apply(users, evs[0], hash).users, evs[1..], hash, id);
    }
  }

  /** A fresh code allows exactly five wrong guesses. */
  lemma RequestBudget(users: seq<User>, id: string, otp: string, hash: string -> string, now: int)
    requires UniqueIds(users) && id != "" && hash(otp) != ""
    ensures Budget(RequestStep(users, id, otp, hash, now).users, id) == MaxTries
  {
    RequestSpec(users, id, otp, hash, now);
  }

  /** With no guesses left, every verification of `id` is refused, whatever is submitted. */
  lemma SpentBudgetRefuses(users: seq<User>, id: string, code: string, hash: string -> string, now: int)
    requires Budget(users, id) == 0
    ensures VerifyStep(users, id, code, hash, now).reply.Failure?
  {
  }

  /**
   * After a code is issued, once five verifications of the identifier have
   * been answered OTP_INVALID, every later verification fails until a new
   * code is requested.
   */
  lemma LockoutAfterFiveFailures(users: seq<User>, id: string, otp: string, hash: string -> string, t0: int,
                                 evs: seq<Event>, code: string, now: int)
    requires UniqueIds(users) && id != "" && hash(otp) != ""
    requires NoRequestFor(evs, id)
    requires Invalids(RequestStep(users, id, otp, hash, t0).users, evs, hash, id) == MaxTries
    ensures var after := Run(RequestStep(users, id, otp, hash, t0).users, evs, hash);
      VerifyStep(after, id, code, hash, now).reply.Failure?
  {
    var issued := RequestStep(users, id, otp, hash, t0).users;
    RequestBudget(users, id, otp, hash, t0);
    GuessBudget(issued, evs, hash, id);
    SpentBudgetRefuses(Run(issued, evs, hash), id, code, hash, now);
  }

  // ---------------------------------------------------------------- the store

  class UserStore {
    var users: seq<User>

    ghost predicate Valid()
      reads this
    {
      UniqueIds(users)
    }

    constructor ()
      ensures Valid() && users == []
    {
      users := [];
    }

    /** `requestOtp` at time `now` with the generated code `otp`. */
    method RequestOtp(raw: Option<string>, otp: string, hash: string -> string, now: int) returns (r: Result<User, AuthError>)
      requires Valid()
      modifies this
      ensures Valid()
      ensures Step(r, users) == RequestStep(old(users), Normalize(raw), otp, hash, now)
    {
      NormalizeEmpty(raw);
      RequestSpec(users, Normalize(raw), otp, hash, now);
      var id := ToLower(Trim(raw.GetOr("")));
      if Trim(raw.GetOr("")) == "" {
        r := Failure(IdentifierRequired);
        return;
      }
      var found := Find(users, id);
      var u: User;
      if found.None? {
        u := NewUser(id);
        u := u.(otpHash := Some(hash(otp)));
        u := u.(otpExpiresAt := Some(now + OtpTtlMs));
        u := u.(otpTries := 0);
        users := users + [u];
      } else {
        var k := found.value;
        u := users[k];
        u := u.(otpHash := Some(hash(otp)));
        u := u.(otpExpiresAt := Some(now + OtpTtlMs));
        u := u.(otpTries := 0);
        users := users[k := u];
      }
      r := Success(u);
    }

    /** `verifyOtp` at time `now`. */
    method VerifyOtp(identifier: Option<string>, otp: Option<string>, hash: string -> string, now: int) returns (r: Result<User, AuthError>)
      requires Valid()
      modifies this
      ensures Valid()
      ensures Step(r, users) == VerifyStep(old(users), Normalize(identifier), Code(otp), hash, now)
    {
      r := VerifyCode(Normalize(identifier), Code(otp), hash, now);
    }

    /** The checks and updates of `verifyOtp` once the identifier and code are normalized. */
    method VerifyCode(id: string, code: string, hash: string -> string, now: int) returns (r: Result<User, AuthError>)
      requires Valid()
      modifies this
      ensures Valid()
      ensures Step(r, users) == VerifyStep(old(users), id, code, hash, now)
    {
      if id == "" || code == "" {
        return Failure(InvalidInput);
      }
      var found := Find(users, id);
      if found.None? || !HasOtp(users[found.value]) {
        return Failure(OtpRequired);
      }
      var k := found.value;
      var u := users[k];
      if u.otpTries >= MaxTries {
        return Failure(OtpTriesExceeded);
      }
      if u.otpExpiresAt.None? || u.otpExpiresAt.value < now {
        return Failure(OtpExpired);
      }
      var ok := u.otpHash.value == hash(code);
      u := u.(otpTries := u.otpTries + 1);
      if !ok {
        SetTriesKeepsIds(users, k, u);
        users := users[k := u];
        return Failure(OtpInvalid);
      }
      u := u.(otpHash := None, otpExpiresAt := None, otpTries := 0);
      SetTriesKeepsIds(users, k, u);
      users := users[k := u];
      r := Success(u);
    }
  }
}
