/** Locking an account out after too many failed logins, and how fast that lets anyone go on guessing. */
module LoginLockout {
  import opened Outcomes

  datatype Mfa = Mfa(
    secret: Option<string>,
    backupCodes: seq<string>,
    enabled: bool,
    setupRequired: bool,
    setupCompleted: Option<int>)

  datatype User = User(
    passwordHash: Option<string>,
    passwordChanged: bool,
    lastPasswordChange: Option<int>,
    passwordResetRequired: bool,
    failedLoginAttempts: nat,
    accountLockedUntil: Option<int>,
    mfa: Mfa)

  /** `None` leaves the field alone. */
  datatype SecurityUpdate = SecurityUpdate(
    passwordHash: Option<string>,
    passwordChanged: Option<bool>,
    passwordResetRequired: Option<bool>,
    failedLoginAttempts: Option<nat>,
    accountLockedUntil: Option<int>,
    mfaSecret: Option<string>,
    mfaBackupCodes: Option<seq<string>>,
    mfaEnabled: Option<bool>,
    mfaSetupRequired: Option<bool>,
    mfaSetupCompleted: Option<int>)

  const NO_UPDATE := SecurityUpdate(None, None, None, None, None, None, None, None, None, None)

  function GetOr<T>(o: Option<T>, fallback: T): T {
    if o.Some? then o.value else fallback
  }

  function OrElse<T>(o: Option<T>, fallback: Option<T>): Option<T> {
    if o.Some? then o else fallback
  }

  function Updated(u: User, s: SecurityUpdate, now: int): User {
    User(OrElse(s.passwordHash, u.passwordHash),
         GetOr(s.passwordChanged, s.passwordHash.Some? || u.passwordChanged),
         if s.passwordHash.Some? then Some(now) else u.lastPasswordChange,
         GetOr(s.passwordResetRequired, u.passwordResetRequired),
         GetOr(s.failedLoginAttempts, u.failedLoginAttempts),
         OrElse(s.accountLockedUntil, u.accountLockedUntil),
         Mfa(OrElse(s.mfaSecret, u.mfa.secret),
             GetOr(s.mfaBackupCodes, u.mfa.backupCodes),
             GetOr(s.mfaEnabled, u.mfa.enabled),
             GetOr(s.mfaSetupRequired, u.mfa.setupRequired),
             OrElse(s.mfaSetupCompleted, u.mfa.setupCompleted)))
  }

  /** An absent field is left alone and a given one is written; only a new password says more than it gives. */
  lemma UpdatedFields(u: User, s: SecurityUpdate, now: int)
    ensures Updated(u, NO_UPDATE, now) == u
    ensures var v := Updated(u, s, now);
            && (s.passwordHash == None ==>
                  v.passwordHash == u.passwordHash && v.lastPasswordChange == u.lastPasswordChange)
            && (s.passwordHash.Some? ==> v.passwordHash == s.passwordHash && v.lastPasswordChange == Some(now))
            && (s.passwordChanged.Some? ==> v.passwordChanged == s.passwordChanged.value)
            && (s.passwordChanged == None && s.passwordHash.Some? ==> v.passwordChanged)
            && (s.passwordChanged == None && s.passwordHash == None ==> v.passwordChanged == u.passwordChanged)
            && (match s.passwordResetRequired
                case None => v.passwordResetRequired == u.passwordResetRequired
                case Some(b) => v.passwordResetRequired == b)
            && (match s.failedLoginAttempts
                case None => v.failedLoginAttempts == u.failedLoginAttempts
                case Some(n) => v.failedLoginAttempts == n)
            && (match s.accountLockedUntil
                case None => v.accountLockedUntil == u.accountLockedUntil
                case Some(t) => v.accountLockedUntil == Some(t))
            && (match s.mfaSecret case None => v.mfa.secret == u.mfa.secret case Some(x) => v.mfa.secret == Some(x))
            && (match s.mfaBackupCodes
                case None => v.mfa.backupCodes == u.mfa.backupCodes
                case Some(codes) => v.mfa.backupCodes == codes)
            && (match s.mfaEnabled case None => v.mfa.enabled == u.mfa.enabled case Some(b) => v.mfa.enabled == b)
            && (match s.mfaSetupRequired
                case None => v.mfa.setupRequired == u.mfa.setupRequired
                case Some(b) => v.mfa.setupRequired == b)
            && (match s.mfaSetupCompleted
                case None => v.mfa.setupCompleted == u.mfa.setupCompleted
                case Some(t) => v.mfa.setupCompleted == Some(t))
  {
  }

  /** `lockout` is the configured duration in milliseconds. */
  datatype Policy = Policy(maxFailedAttempts: nat, lockout: int)

  datatype LoginResult = Locked | WrongPassword | PasswordAccepted

  datatype LoginError = UserNotFound

  /** One login: when the lock is checked, whether the password is right, and when the failure is written. */
  datatype Login = Login(check: int, matches: bool, write: int)

  predicate IsLocked(u: User, now: int) {
    u.accountLockedUntil.Some? && u.accountLockedUntil.value > now
  }

  function ResultOf(u: User, l: Login): LoginResult {
    if IsLocked(u, l.check) then Locked
    else if u.passwordHash == None || !l.matches then WrongPassword
    else PasswordAccepted
  }

  function UserAfter(u: User, l: Login, policy: Policy): User {
    match ResultOf(u, l)
    case Locked => u
    case WrongPassword =>
      var failed := u.failedLoginAttempts + 1;
      u.(failedLoginAttempts := failed,
         accountLockedUntil :=
           if failed >= policy.maxFailedAttempts then Some(l.write + policy.lockout) else u.accountLockedUntil)
    case PasswordAccepted => u.(failedLoginAttempts := 0)
  }

  // ---- the code in its own form ----

  class Account {
    var passwordHash: Option<string>
    var passwordChanged: bool
    var lastPasswordChange: Option<int>
    var passwordResetRequired: bool
    var failedLoginAttempts: nat
    var accountLockedUntil: Option<int>
    var mfa: Mfa
    /** The user is still stored. */
    var stored: bool

    ghost function View(): User
      reads this
    {
      User(passwordHash, passwordChanged, lastPasswordChange, passwordResetRequired, failedLoginAttempts,
           accountLockedUntil, mfa)
    }

    /** `updateSecurity`: writes the provided fields only; a new password counts as changed unless told otherwise. */
    method UpdateSecurity(s: SecurityUpdate, now: int) returns (found: bool)
      modifies this
      ensures found == stored == old(stored)
      ensures View() == if found then Updated(old(View()), s, now) else old(View())
    {
      if !stored {
        return false;
      }
      found := true;
      WritePassword(s, now);
      if s.passwordResetRequired.Some? {
        passwordResetRequired := s.passwordResetRequired.value;
      }
      if s.failedLoginAttempts.Some? {
        failedLoginAttempts := s.failedLoginAttempts.value;
      }
      if s.accountLockedUntil.Some? {
        accountLockedUntil := s.accountLockedUntil;
      }
      WriteMfa(s);
    }

    method WritePassword(s: SecurityUpdate, now: int)
      modifies this`passwordHash, this`passwordChanged, this`lastPasswordChange
      ensures passwordHash == OrElse(s.passwordHash, old(passwordHash))
      ensures passwordChanged == GetOr(s.passwordChanged, s.passwordHash.Some? || old(passwordChanged))
      ensures lastPasswordChange == if s.passwordHash.Some? then Some(now) else old(lastPasswordChange)
    {
      if s.passwordHash.Some? {
        passwordHash := s.passwordHash;
        passwordChanged := true;
        lastPasswordChange := Some(now);
      }
      if s.passwordChanged.Some? {
        passwordChanged := s.passwordChanged.value;
      }
    }

    method WriteMfa(s: SecurityUpdate)
      modifies this`mfa
      ensures mfa.secret == OrElse(s.mfaSecret, old(mfa.secret))
      ensures mfa.backupCodes == GetOr(s.mfaBackupCodes, old(mfa.backupCodes))
      ensures mfa.enabled == GetOr(s.mfaEnabled, old(mfa.enabled))
      ensures mfa.setupRequired == GetOr(s.mfaSetupRequired, old(mfa.setupRequired))
      ensures mfa.setupCompleted == OrElse(s.mfaSetupCompleted, old(mfa.setupCompleted))
    {
      var m := mfa;
      if s.mfaSecret.Some? {
        m := m.(secret := s.mfaSecret);
      }
      if s.mfaBackupCodes.Some? {
        m := m.(backupCodes := s.mfaBackupCodes.value);
      }
      if s.mfaEnabled.Some? {
        m := m.(enabled := s.mfaEnabled.value);
      }
      if s.mfaSetupRequired.Some? {
        m := m.(setupRequired := s.mfaSetupRequired.value);
      }
      if s.mfaSetupCompleted.Some? {
        m := m.(setupCompleted := s.mfaSetupCompleted);
      }
      mfa := m;
    }

    /** The lockout part of `loginWithEmailPassword`. */
    method LoginWithPassword(l: Login, policy: Policy) returns (r: Result<LoginResult, LoginError>)
      modifies this
      ensures stored == old(stored)
      ensures stored ==> r == Ok(ResultOf(old(View()), l)) && View() == UserAfter(old(View()), l, policy)
      ensures stored ==>
                var locked := old(accountLockedUntil).Some? && old(accountLockedUntil).value > l.check;
                var failed := old(failedLoginAttempts) + 1;
                && (r == Ok(Locked) <==> locked)
                && (locked ==> View() == old(View()))
                && (r == Ok(PasswordAccepted) <==> !locked && old(passwordHash).Some? && l.matches)
                && (r == Ok(PasswordAccepted) ==>
                      failedLoginAttempts == 0 && accountLockedUntil == old(accountLockedUntil))
                && (r == Ok(WrongPassword) ==>
                      && failedLoginAttempts == failed
                      && accountLockedUntil == if failed >= policy.maxFailedAttempts
                                               then Some(l.write + policy.lockout) else old(accountLockedUntil))
                && View().(failedLoginAttempts := old(failedLoginAttempts),
                           accountLockedUntil := old(accountLockedUntil)) == old(View())
      ensures !stored ==> r == Err(UserNotFound) && View() == old(View())
    {
      if !stored {
        return Err(UserNotFound);
      }
      if accountLockedUntil.Some? && accountLockedUntil.value > l.check {
        return Ok(Locked);
      }
      if passwordHash == None || !l.matches {
        var failedAttempts := failedLoginAttempts + 1;
        var isLockout := failedAttempts >= policy.maxFailedAttempts;
        var _ := UpdateSecurity(NO_UPDATE.(
          failedLoginAttempts := Some(failedAttempts),
          accountLockedUntil := if isLockout then Some(l.write + policy.lockout) else None), l.write);
        return Ok(WrongPassword);
      }
      if failedLoginAttempts > 0 {
        var _ := UpdateSecurity(NO_UPDATE.(failedLoginAttempts := Some(0)), l.write);
      }
      r := Ok(PasswordAccepted);
    }
  }

  // ---- runs ----

  /** The clock never goes back, within a login or from one to the next. */
  predicate Clocked(run: seq<Login>) {
    && (forall i :: 0 <= i < |run| ==> run[i].check <= run[i].write)
    && (forall i, j :: 0 <= i < j < |run| ==> run[i].write <= run[j].check)
  }

  /** One more login goes on from the last one. */
  lemma ClockedOneMore(run: seq<Login>, l: Login)
    ensures Clocked(run + [l])
       <==> Clocked(run) && l.check <= l.write && (run != [] ==> run[|run| - 1].write <= l.check)
  {
    var more := run + [l];
    assert forall i :: 0 <= i < |run| ==> more[i] == run[i];
    if Clocked(more) {
      assert more[|run|] == l;
      assert run != [] ==> more[|run| - 1].write <= more[|run|].check;
      forall i, j | 0 <= i < j < |run| ensures run[i].write <= run[j].check {
        assert more[i].write <= more[j].check;
      }
      forall i | 0 <= i < |run| ensures run[i].check <= run[i].write {
        assert more[i].check <= more[i].write;
      }
    }
    if Clocked(run) && l.check <= l.write && (run != [] ==> run[|run| - 1].write <= l.check) {
      forall i, j | 0 <= i < j < |more| ensures more[i].write <= more[j].check {
        if j == |run| && i < |run| - 1 {
          assert run[i].write <= run[|run| - 1].check <= run[|run| - 1].write;
        }
      }
    }
  }

  /** The times of the failed password comparisons of a run. */
  function FailureTimes(u: User, run: seq<Login>, policy: Policy): seq<int>
    decreases run
  {
    if run == [] then []
    else (if ResultOf(u, run[0]) == WrongPassword then [run[0].write] else [])
         + FailureTimes(UserAfter(u, run[0], policy), run[1..], policy)
  }

  predicate NobodyGetsIn(u: User, run: seq<Login>, policy: Policy)
    decreases run
  {
    run == [] || (ResultOf(u, run[0]) != PasswordAccepted
                  && NobodyGetsIn(UserAfter(u, run[0], policy), run[1..], policy))
  }

  /** From a state locked at `t` with the count exhausted, the next failure comes no sooner than the lock's end. */
  lemma {:induction false} NextFailureWaits(u: User, run: seq<Login>, policy: Policy, t: int)
    requires Clocked(run) && NobodyGetsIn(u, run, policy)
    requires u.accountLockedUntil == Some(t)
    requires FailureTimes(u, run, policy) != []
    ensures FailureTimes(u, run, policy)[0] >= t
  {
    if ResultOf(u, run[0]) != WrongPassword {
      NextFailureWaits(u, run[1..], policy, t);
    }
  }

  /** Consecutive failures, once the count has reached the maximum, are a lockout apart. */
  lemma {:induction false} FailuresAreApart(u: User, run: seq<Login>, policy: Policy, i: nat)
    requires Clocked(run) && NobodyGetsIn(u, run, policy)
    requires i + 1 < |FailureTimes(u, run, policy)|
    requires u.failedLoginAttempts + i + 1 >= policy.maxFailedAttempts
    ensures var ts := FailureTimes(u, run, policy); ts[i + 1] >= ts[i] + policy.lockout
    decreases run
  {
    var u' := UserAfter(u, run[0], policy);
    if ResultOf(u, run[0]) == WrongPassword {
      if i == 0 {
        NextFailureWaits(u', run[1..], policy, run[0].write + policy.lockout);
      } else {
        FailuresAreApart(u', run[1..], policy, i - 1);
      }
    } else {
      FailuresAreApart(u', run[1..], policy, i);
    }
  }

  /**
   Rate bound.  In any run with a forward clock in which nobody gets in, whatever the account's state at its start,
   once the failure count has reached the maximum with the i-th failure the j-th comes at least j - i lockouts later.
   */
  lemma {:induction false} RateBound(u: User, run: seq<Login>, policy: Policy, i: nat, j: nat)
    requires Clocked(run) && NobodyGetsIn(u, run, policy)
    requires i <= j < |FailureTimes(u, run, policy)|
    requires u.failedLoginAttempts + i + 1 >= policy.maxFailedAttempts
    ensures var ts := FailureTimes(u, run, policy); ts[j] >= ts[i] + (j - i) * policy.lockout
  {
    if i < j {
      RateBound(u, run, policy, i, j - 1);
      FailuresAreApart(u, run, policy, j - 1);
      assert (j - i) * policy.lockout == (j - 1 - i) * policy.lockout + policy.lockout;
    }
  }

  /** From a zero count: failures number max, max + 1, ... are a lockout apart each (counting from one). */
  lemma RateBoundFromZero(u: User, run: seq<Login>, policy: Policy, n: nat)
    requires Clocked(run) && NobodyGetsIn(u, run, policy)
    requires u.failedLoginAttempts == 0 && 1 <= policy.maxFailedAttempts <= n <= |FailureTimes(u, run, policy)|
    ensures var ts := FailureTimes(u, run, policy);
            var max := policy.maxFailedAttempts;
            ts[n - 1] >= ts[max - 1] + (n - max) * policy.lockout
  {
    RateBound(u, run, policy, policy.maxFailedAttempts - 1, n - 1);
  }
}
