/**
 Account lockout: the failure counter shared by the password step and the second factor, and how many
 guesses it leaves an attacker.
 */
module Lockout {
  import opened Text
  import opened Wrappers

  type Id = nat
  type Time = int

  const MAX_INT32: int := 0x7FFF_FFFF
  const MAX_PASSWORD_LENGTH: nat := 4096

  /** Attempts until the lock and how long the lock lasts. */
  datatype Policy = Policy(maxAttempts: int, window: int) {
    predicate Valid() {
      0 < maxAttempts <= MAX_INT32 && window > 0
    }
  }

  datatype Account = Account(count: int, lockedUntil: Option<Time>) {
    predicate Locked(now: Time) {
      lockedUntil.Some? && lockedUntil.value > now
    }
  }

  // ----- The statements -----

  function RegisterFailure(a: Account, maxAttempts: int, lockUntil: Time): Account {
    if a.count + 1 >= maxAttempts then Account(0, Some(lockUntil)) else Account(a.count + 1, a.lockedUntil)
  }

  function ClearFailures(a: Account): Account {
    Account(0, None)
  }

  // ----- Sign-in attempts -----

  /** The password step, or the second-factor step with a genuine ticket; disabled and mfa are the
      account's flags at that moment. */
  datatype Attempt =
    | Password(tooLong: bool, correct: bool, disabled: bool, mfa: bool)
    | Code(correct: bool, disabled: bool, mfa: bool)

  datatype Verdict = Rejected | Failed | Pending | SignedIn

  datatype Tried = Tried(account: Account, verdict: Verdict)

  function Fail(a: Account, now: Time, policy: Policy): Tried {
    Tried(RegisterFailure(a, policy.maxAttempts, now + policy.window), Failed)
  }

  function Try(a: Account, attempt: Attempt, now: Time, policy: Policy): Tried {
    match attempt
    case Password(tooLong, correct, disabled, mfa) =>
      if tooLong || a.Locked(now) then Tried(a, Rejected)
      else if !correct then Fail(a, now, policy)
      else if disabled then Tried(a, Rejected)
      else if mfa then Tried(a, Pending)
      else Tried(ClearFailures(a), SignedIn)
    case Code(correct, disabled, mfa) =>
      if disabled || a.Locked(now) || !mfa then Tried(a, Rejected)
      else if !correct then Fail(a, now, policy)
      else Tried(ClearFailures(a), SignedIn)
  }

  datatype Timed = Timed(attempt: Attempt, at: Time)

  ghost predicate InOrder(attempts: seq<Timed>, from: Time, to: Time)
    decreases |attempts|
  {
    from <= to && (attempts == [] || (from <= attempts[0].at && InOrder(attempts[1..], attempts[0].at, to)))
  }

  function After(a: Account, attempts: seq<Timed>, policy: Policy): Account
    decreases |attempts|
  {
    if attempts == [] then a else After(Try(a, attempts[0].attempt, attempts[0].at, policy).account, attempts[1..], policy)
  }

  /** The verdicts of the attempts, made one after the other. */
  function Verdicts(a: Account, attempts: seq<Timed>, policy: Policy): (v: seq<Verdict>)
    ensures |v| == |attempts|
    decreases |attempts|
  {
    if attempts == [] then [] else
    var tried := Try(a, attempts[0].attempt, attempts[0].at, policy);
    [tried.verdict] + Verdicts(tried.account, attempts[1..], policy)
  }

  function Failures(v: seq<Verdict>): nat {
    if v == [] then 0 else (if v[0] == Failed then 1 else 0) + Failures(v[1..])
  }

  lemma {:induction false} VerdictIsTried(a: Account, attempts: seq<Timed>, policy: Policy, i: nat)
    requires i < |attempts|
    ensures Verdicts(a, attempts, policy)[i] ==
      Try(After(a, attempts[..i], policy), attempts[i].attempt, attempts[i].at, policy).verdict
    decreases |attempts|
  {
    if i > 0 {
      VerdictIsTried(Try(a, attempts[0].attempt, attempts[0].at, policy).account, attempts[1..], policy, i - 1);
      assert attempts[1..][..i - 1] == attempts[..i][1..];
    }
  }

  /** The account is neither locked nor disabled, and what was presented is right. */
  ghost predicate Passes(a: Account, attempt: Attempt, now: Time) {
    && (a.lockedUntil == None || a.lockedUntil.value <= now) && !attempt.disabled && attempt.correct
    && (attempt.Password? ==> !attempt.tooLong)
  }

  /** In any sequence of attempts one signs in exactly when it is the right password of an account without
      a second factor, or the right code of an account with one, and the account is then neither locked nor
      disabled. A password alone never signs an account with a second factor in. */
  lemma SignsInIff(a: Account, attempts: seq<Timed>, policy: Policy, i: nat)
    requires i < |attempts|
    ensures var Timed(attempt, at) := attempts[i];
      var passes := Passes(After(a, attempts[..i], policy), attempt, at);
      && (Verdicts(a, attempts, policy)[i] == SignedIn <==> passes && (attempt.Code? <==> attempt.mfa))
      && (Verdicts(a, attempts, policy)[i] == Pending <==> passes && attempt.Password? && attempt.mfa)
  {
    VerdictIsTried(a, attempts, policy, i);
  }

  /** Which attempts touch the counter: a sign-in clears it and the lock, a wrong password or code counts,
      and everything else, the password step of an account with a second factor among it, leaves both. */
  lemma CounterAfter(a: Account, attempt: Attempt, now: Time, policy: Policy)
    ensures var Tried(after, verdict) := Try(a, attempt, now, policy);
      && (verdict == SignedIn ==> after == Account(0, None))
      && (verdict == Pending || verdict == Rejected ==> after == a)
      && (verdict == Failed ==>
           if a.count + 1 < policy.maxAttempts then after.count == a.count + 1 && after.lockedUntil == a.lockedUntil
           else after.count == 0 && after.lockedUntil == Some(now + policy.window))
  {
  }

  /** A guess is counted exactly when the account is not locked and what was presented is wrong; a code
      is not even looked at while the account is disabled or has no second factor. */
  lemma FailsIff(a: Account, attempts: seq<Timed>, policy: Policy, i: nat)
    requires i < |attempts|
    ensures var Timed(attempt, at) := attempts[i];
      var before := After(a, attempts[..i], policy);
      Verdicts(a, attempts, policy)[i] == Failed <==>
        && (before.lockedUntil == None || before.lockedUntil.value <= at) && !attempt.correct
        && (attempt.Password? ==> !attempt.tooLong) && (attempt.Code? ==> attempt.mfa && !attempt.disabled)
  {
    VerdictIsTried(a, attempts, policy, i);
  }

  // ----- The counter -----

  ghost predicate InRange(a: Account, policy: Policy) {
    0 <= a.count < policy.maxAttempts
  }

  /** The two statements alone keep the counter below the threshold, so in any interleaving of calls
      count + 1 fits the int32 column. */
  lemma StatementsKeepCounterInRange(a: Account, policy: Policy, lockUntil: Time)
    requires policy.Valid() && InRange(a, policy)
    ensures InRange(RegisterFailure(a, policy.maxAttempts, lockUntil), policy) && InRange(ClearFailures(a), policy)
    ensures a.count + 1 <= MAX_INT32
  {
  }

  lemma {:induction false} CounterStaysInRange(a: Account, attempts: seq<Timed>, policy: Policy)
    requires policy.Valid() && InRange(a, policy)
    ensures InRange(After(a, attempts, policy), policy) && After(a, attempts, policy).count + 1 <= MAX_INT32
    decreases |attempts|
  {
    if attempts != [] {
      CounterStaysInRange(Try(a, attempts[0].attempt, attempts[0].at, policy).account, attempts[1..], policy);
    }
  }

  lemma OrderEnd(attempts: seq<Timed>, from: Time, to: Time)
    requires InOrder(attempts, from, to)
    ensures from <= to
  {
  }

  // ----- The service -----

  datatype User = User(account: Account, passwordHash: string, disabled: bool, mfa: bool)

  function Lowered(s: string, lower: char -> char): string {
    seq(|s|, i requires 0 <= i < |s| => lower(s[i]))
  }

  /** An address as it is stored and looked up. */
  function Normalized(email: string, lower: char -> char): string {
    Lowered(TrimSpace(email), lower)
  }

  class SignInService {
    const policy: Policy
    /** password.Verify. */
    const matches: (string, string) -> bool
    /** unicode.ToLower. */
    const lower: char -> char
    var users: map<Id, User>
    var byEmail: map<string, Id>

    constructor (policy: Policy, matches: (string, string) -> bool, lower: char -> char)
      requires policy.Valid()
      ensures this.policy == policy && this.matches == matches && this.lower == lower && users == map[] && byEmail == map[]
    {
      this.policy, this.matches, this.lower, users, byEmail := policy, matches, lower, map[], map[];
    }

    /** Reports whether the account is now locked. */
    method RegisterLoginFailure(id: Id, lockUntil: Time, now: Time) returns (locked: bool)
      requires id in users
      modifies this`users
      ensures var user := old(users)[id];
        users == old(users)[id := user.(account := RegisterFailure(user.account, policy.maxAttempts, lockUntil))]
      ensures locked == users[id].account.Locked(now)
    {
      var account := RegisterFailure(users[id].account, policy.maxAttempts, lockUntil);
      users := users[id := users[id].(account := account)];
      return account.lockedUntil.Some? && account.lockedUntil.value > now;
    }

    method ClearLoginFailures(id: Id)
      requires id in users
      modifies this`users
      ensures users == old(users)[id := old(users)[id].(account := ClearFailures(old(users)[id].account))]
    {
      users := users[id := users[id].(account := ClearFailures(users[id].account))];
    }

    /** The account is known, not locked, and the password is the right one and not too long. */
    ghost predicate RightPassword(email: string, password: string, now: Time)
      requires forall e :: e in byEmail ==> byEmail[e] in users
      reads this
    {
      && Normalized(email, lower) in byEmail && Utf8Length(password) <= 4096
      && var user := users[byEmail[Normalized(email, lower)]];
      && (user.account.lockedUntil == None || user.account.lockedUntil.value <= now)
      && matches(password, user.passwordHash)
    }

    /** A sign-in of an unknown address changes nothing; any other is the attempt Try describes. Addresses
        are trimmed and lower-cased, and passwords measured in bytes. */
    method SignIn(email: string, password: string, now: Time) returns (verdict: Verdict)
      requires forall e :: e in byEmail ==> byEmail[e] in users
      modifies this`users
      ensures Normalized(email, lower) !in byEmail ==> verdict == Rejected && users == old(users)
      ensures Normalized(email, lower) in byEmail ==>
        var id := byEmail[Normalized(email, lower)];
        var user := old(users)[id];
        var attempt := Password(Utf8Length(password) > MAX_PASSWORD_LENGTH, matches(password, user.passwordHash), user.disabled, user.mfa);
        var tried := Try(user.account, attempt, now, policy);
        verdict == tried.verdict && users == old(users)[id := user.(account := tried.account)]
      ensures verdict == SignedIn <==>
        && old(RightPassword(email, password, now))
        && var user := old(users)[byEmail[Normalized(email, lower)]]; !user.disabled && !user.mfa
      ensures verdict == Pending <==>
        && old(RightPassword(email, password, now))
        && var user := old(users)[byEmail[Normalized(email, lower)]]; !user.disabled && user.mfa
      ensures verdict == Pending || verdict == Rejected ==> users == old(users)
      ensures verdict == SignedIn ==>
        var id := byEmail[Normalized(email, lower)];
        users == old(users)[id := old(users)[id].(account := Account(0, None))]
    {
      var address := Normalized(email, lower);
      if Utf8Length(password) > MAX_PASSWORD_LENGTH {
        return Rejected;
      }
      if address !in byEmail {
        return Rejected;
      }
      var id := byEmail[address];
      var user := users[id];
      if user.account.Locked(now) {
        return Rejected;
      }
      if !matches(password, user.passwordHash) {
        var _ := RegisterLoginFailure(id, now + policy.window, now);
        return Failed;
      }
      if user.disabled {
        return Rejected;
      }
      if user.mfa {
        return Pending;
      }
      ClearLoginFailures(id);
      return SignedIn;
    }

    /** valid is what the second-factor verifier says about the code. */
    method CompleteMfaSignIn(id: Id, valid: bool, now: Time) returns (verdict: Verdict)
      modifies this`users
      ensures id !in old(users) ==> verdict == Rejected && users == old(users)
      ensures id in old(users) ==>
        var user := old(users)[id];
        var tried := Try(user.account, Code(valid, user.disabled, user.mfa), now, policy);
        verdict == tried.verdict && users == old(users)[id := user.(account := tried.account)]
      ensures verdict == SignedIn <==>
        && id in old(users) && valid
        && var user := old(users)[id];
           && (user.account.lockedUntil == None || user.account.lockedUntil.value <= now)
           && !user.disabled && user.mfa
      ensures verdict != Pending && (verdict == Rejected ==> users == old(users))
      ensures verdict == SignedIn ==> users == old(users)[id := old(users)[id].(account := Account(0, None))]
    {
      if id !in users {
        return Rejected;
      }
      var user := users[id];
      if user.disabled {
        return Rejected;
      }
      if user.account.Locked(now) {
        return Rejected;
      }
      if !user.mfa {
        return Rejected;
      }
      if !valid {
        var _ := RegisterLoginFailure(id, now + policy.window, now);
        return Failed;
      }
      ClearLoginFailures(id);
      return SignedIn;
    }
  }
}
