/**
 * The login lockout (src/auth/authService.ts:17-18, 163-198, 201-205, 228-239).
 * A sign-in attempt reads the clock when it checks the lock and again when it
 * records a failure; the comparison happens in between.
 */
module Lockout {
  import opened Wrappers

  datatype User = User(id: string, passwordHash: Option<string>, failedLoginAttempts: nat, lockedUntil: Option<int>)

  type Users = map<string, User>

  const LOCKOUT_THRESHOLD := 5
  const LOCKOUT_DURATION_MS := 15 * 60 * 1000

  datatype Outcome = SignedIn(userId: string) | InvalidCredentials | AccountLocked(until: int)

  /** What the submitted password was compared with: nothing, the fixed dummy hash, or the account's own. */
  datatype Compared = Nothing | Dummy | Own

  /** `matches` says whether the password is the one behind the account's hash. */
  datatype Attempt = Attempt(email: string, matches: bool, checked: int, compared: int, recorded: int)

  predicate Locked(user: User, now: int) {
    user.lockedUntil.Some? && user.lockedUntil.value > now
  }

  function RecordFailure(user: User, now: int): User {
    var attempts := user.failedLoginAttempts + 1;
    if attempts >= LOCKOUT_THRESHOLD then
      user.(failedLoginAttempts := 0, lockedUntil := Some(now + LOCKOUT_DURATION_MS))
    else
      user.(failedLoginAttempts := attempts, lockedUntil := None)
  }

  function Answer(users: Users, a: Attempt): (Outcome, Compared) {
    if a.email !in users then (InvalidCredentials, Dummy)
    else
      var user := users[a.email];
      if Locked(user, a.checked) then (AccountLocked(user.lockedUntil.value), Nothing)
      else if user.passwordHash.None? then (InvalidCredentials, Dummy)
      else (if a.matches then SignedIn(user.id) else InvalidCredentials, Own)
  }

  function After(users: Users, a: Attempt): Users {
    if Answer(users, a).1 != Own then users
    else
      var user := users[a.email];
      users[a.email := if a.matches then user.(failedLoginAttempts := 0, lockedUntil := None)
                       else RecordFailure(user, a.recorded)]
  }

  ghost predicate CountersBelow(users: Users) {
    forall email :: email in users ==> users[email].failedLoginAttempts < LOCKOUT_THRESHOLD
  }

  class AuthService {
    var users: Users

    constructor (users: Users)
      ensures this.users == users
    {
      this.users := users;
    }

    method VerifyCredentials(a: Attempt) returns (outcome: Outcome, compared: Compared)
      modifies this
      ensures users == After(old(users), a)
      ensures (outcome, compared) == Answer(old(users), a)
      ensures old(CountersBelow(users)) ==> CountersBelow(users)
    {
      if a.email !in users {
        return InvalidCredentials, Dummy;
      }
      var user := users[a.email];
      if user.lockedUntil.Some? && user.lockedUntil.value > a.checked {
        return AccountLocked(user.lockedUntil.value), Nothing;
      }
      if user.passwordHash.None? {
        return InvalidCredentials, Dummy;
      }
      if !a.matches {
        RecordFailedLogin(a.email, user.failedLoginAttempts, a.recorded);
        return InvalidCredentials, Own;
      }
      if user.failedLoginAttempts > 0 || user.lockedUntil.Some? {
        users := users[a.email := user.(failedLoginAttempts := 0, lockedUntil := None)];
      }
      assert users == users[a.email := users[a.email]];
      return SignedIn(user.id), Own;
    }

    /**
     * Counts a failure. The account is then refused unseen exactly when this was the fifth and
     * fifteen minutes have not passed since.
     */
    method RecordFailedLogin(email: string, currentAttempts: nat, now: int)
      requires email in users && currentAttempts == users[email].failedLoginAttempts
      modifies this
      ensures users == old(users)[email := RecordFailure(old(users)[email], now)]
      ensures forall a: Attempt :: a.email == email ==>
                (Answer(users, a).1 == Nothing
                 <==> currentAttempts + 1 >= LOCKOUT_THRESHOLD && a.checked < now + LOCKOUT_DURATION_MS)
      ensures forall a: Attempt :: a.email != email ==> Answer(users, a) == Answer(old(users), a)
      ensures old(CountersBelow(users)) ==> CountersBelow(users)
    {
      var attempts := currentAttempts + 1;
      var lockedUntil := if attempts >= LOCKOUT_THRESHOLD then Some(now + LOCKOUT_DURATION_MS) else None;
      users := users[email := users[email].(failedLoginAttempts := if lockedUntil.Some? then 0 else attempts,
                                            lockedUntil := lockedUntil)];
    }
  }

  // ----- Whole runs -----

  /** Requests one at a time, the clock never going back. */
  predicate Chronological(attempts: seq<Attempt>) {
    && (forall i :: 0 <= i < |attempts| ==> attempts[i].checked <= attempts[i].compared <= attempts[i].recorded)
    && (forall i, j :: 0 <= i < j < |attempts| ==> attempts[i].recorded <= attempts[j].checked)
  }

  /** No attempt on this account is answered with a sign-in, whatever passwords are tried. */
  predicate NoneSignIn(users: Users, attempts: seq<Attempt>, email: string)
    decreases |attempts|
  {
    attempts != [] ==>
      && (attempts[0].email == email ==> !Answer(users, attempts[0]).0.SignedIn?)
      && NoneSignIn(After(users, attempts[0]), attempts[1..], email)
  }

  function Run(users: Users, attempts: seq<Attempt>): Users
    decreases |attempts|
  {
    if attempts == [] then users else Run(After(users, attempts[0]), attempts[1..])
  }

  /** How often the account's own hash was compared in [from, from + 15 minutes). */
  function Comparisons(users: Users, attempts: seq<Attempt>, email: string, from: int): nat
    decreases |attempts|
  {
    if attempts == [] then 0
    else
      var a := attempts[0];
      (if a.email == email && from <= a.compared < from + LOCKOUT_DURATION_MS && Answer(users, a).1 == Own then 1 else 0)
      + Comparisons(After(users, a), attempts[1..], email, from)
  }

  /** Whatever is tried, the stored counter stays below five and no other account changes. */
  lemma {:induction false} CountersStayBelow(users: Users, attempts: seq<Attempt>, email: string)
    requires CountersBelow(users)
    ensures CountersBelow(Run(users, attempts)) && Run(users, attempts).Keys == users.Keys
    ensures email in users && (forall i :: 0 <= i < |attempts| ==> attempts[i].email != email) ==>
              Run(users, attempts)[email] == users[email]
    decreases |attempts|
  {
    if attempts != [] {
      CountersStayBelow(After(users, attempts[0]), attempts[1..], email);
    }
  }

  /** Past the interval nothing counts. */
  lemma {:induction false} NoneAfter(users: Users, attempts: seq<Attempt>, email: string, from: int)
    requires forall i :: 0 <= i < |attempts| ==> attempts[i].compared >= from + LOCKOUT_DURATION_MS
    ensures Comparisons(users, attempts, email, from) == 0
    decreases |attempts|
  {
    if attempts != [] {
      NoneAfter(After(users, attempts[0]), attempts[1..], email, from);
    }
  }

  /** An account locked for the rest of the interval is not compared in it. */
  lemma {:induction false} NoneWhileLocked(users: Users, attempts: seq<Attempt>, email: string, from: int)
    requires Chronological(attempts) && email in users
    requires users[email].lockedUntil.Some? && users[email].lockedUntil.value >= from + LOCKOUT_DURATION_MS
    ensures Comparisons(users, attempts, email, from) == 0
    decreases |attempts|
  {
    if attempts != [] {
      var a := attempts[0];
      if a.email == email && !Locked(users[email], a.checked) {
        NoneAfter(users, attempts, email, from);
      } else {
        NoneWhileLocked(After(users, a), attempts[1..], email, from);
      }
    }
  }

  lemma {:induction false} FewFrom(users: Users, attempts: seq<Attempt>, email: string, from: int)
    requires Chronological(attempts) && NoneSignIn(users, attempts, email)
    requires email in users && users[email].failedLoginAttempts < LOCKOUT_THRESHOLD
    requires forall i :: 0 <= i < |attempts| ==> attempts[i].compared >= from
    ensures Comparisons(users, attempts, email, from) <= LOCKOUT_THRESHOLD - users[email].failedLoginAttempts
    decreases |attempts|
  {
    if attempts != [] {
      var a := attempts[0];
      var next := After(users, a);
      if a.email == email && next[email].lockedUntil == Some(a.recorded + LOCKOUT_DURATION_MS) && next != users {
        NoneWhileLocked(next, attempts[1..], email, from);
      } else {
        FewFrom(next, attempts[1..], email, from);
      }
    }
  }

  /** Without a sign-in, an account's password is compared at most five times in any fifteen minutes. */
  lemma {:induction false} AtMostFiveComparisons(users: Users, attempts: seq<Attempt>, email: string, from: int)
    requires Chronological(attempts) && NoneSignIn(users, attempts, email) && CountersBelow(users)
    ensures Comparisons(users, attempts, email, from) <= LOCKOUT_THRESHOLD
    decreases |attempts|
  {
    if attempts != [] {
      if email !in users {
        NeverCompared(users, attempts, email, from);
      } else if attempts[0].compared >= from {
        assert forall i :: 1 <= i < |attempts| ==> attempts[0].recorded <= attempts[i].checked;
        FewFrom(users, attempts, email, from);
      } else {
        CountersStayBelow(users, [attempts[0]], email);
        assert Run(users, [attempts[0]]) == After(users, attempts[0]);
        AtMostFiveComparisons(After(users, attempts[0]), attempts[1..], email, from);
      }
    }
  }

  lemma {:induction false} NeverCompared(users: Users, attempts: seq<Attempt>, email: string, from: int)
    requires email !in users
    ensures Comparisons(users, attempts, email, from) == 0
    decreases |attempts|
  {
    if attempts != [] {
      NeverCompared(After(users, attempts[0]), attempts[1..], email, from);
    }
  }

  // ----- When an attempt is refused unseen -----

  /** Failed attempts in a row on one account, none of them refused. */
  function Failures(email: string, times: seq<int>): (attempts: seq<Attempt>)
    ensures |attempts| == |times|
    ensures forall i :: 0 <= i < |times| ==> attempts[i] == Attempt(email, false, times[i], times[i], times[i])
  {
    seq(|times|, i requires 0 <= i < |times| => Attempt(email, false, times[i], times[i], times[i]))
  }

  lemma {:induction false} FailuresCount(users: Users, email: string, times: seq<int>)
    requires email in users && users[email].passwordHash.Some? && users[email].lockedUntil.None?
    requires users[email].failedLoginAttempts + |times| < LOCKOUT_THRESHOLD
    ensures Run(users, Failures(email, times))
            == users[email := users[email].(failedLoginAttempts := users[email].failedLoginAttempts + |times|)]
    decreases |times|
  {
    if times == [] {
      assert users == users[email := users[email]];
    } else {
      assert Failures(email, times)[1..] == Failures(email, times[1..]);
      FailuresCount(After(users, Failures(email, times)[0]), email, times[1..]);
    }
  }

  /** After a failure that was not refused and is not the fifth, no lock is stored, whatever was stored before. */
  lemma FirstFailure(users: Users, email: string, times: seq<int>)
    requires email in users && users[email].passwordHash.Some? && users[email].failedLoginAttempts + 1 < LOCKOUT_THRESHOLD
    requires times != [] && !Locked(users[email], times[0])
    ensures var counted := users[email].(failedLoginAttempts := users[email].failedLoginAttempts + 1, lockedUntil := None);
            Run(users, Failures(email, times)) == Run(users[email := counted], Failures(email, times[1..]))
  {
    assert Failures(email, times)[1..] == Failures(email, times[1..]);
  }

  /**
   * After the failures in a row that make five with those already counted, the first of them not
   * refused, the account is refused, even with the right password and without a look at it,
   * exactly until fifteen minutes after the last.
   */
  lemma FifthFailureLocks(users: Users, email: string, times: seq<int>, a: Attempt)
    requires email in users && users[email].passwordHash.Some? && users[email].failedLoginAttempts < LOCKOUT_THRESHOLD
    requires |times| == LOCKOUT_THRESHOLD - users[email].failedLoginAttempts
    requires !Locked(users[email], times[0]) && a.email == email
    ensures Answer(Run(users, Failures(email, times)), a).1 == Nothing
            <==> a.checked < times[|times| - 1] + LOCKOUT_DURATION_MS
  {
    if |times| == 1 {
      assert Failures(email, times)[1..] == [];
      assert Run(users, Failures(email, times)) == After(users, Failures(email, times)[0]);
    } else {
      FirstFailure(users, email, times);
      var after := users[email := users[email].(failedLoginAttempts := users[email].failedLoginAttempts + 1, lockedUntil := None)];
      var rest, n := times[1..], |times| - 2;
      FailuresCount(after, email, rest[..n]);
      assert Failures(email, rest) == Failures(email, rest[..n]) + [Failures(email, rest)[n]];
      RunAppended(after, Failures(email, rest[..n]), Failures(email, rest)[n]);
    }
  }

  lemma {:induction false} RunAppended(users: Users, attempts: seq<Attempt>, last: Attempt)
    ensures Run(users, attempts + [last]) == After(Run(users, attempts), last)
    decreases |attempts|
  {
    if attempts == [] {
      assert attempts + [last] == [last];
    } else {
      assert (attempts + [last])[1..] == attempts[1..] + [last];
      RunAppended(After(users, attempts[0]), attempts[1..], last);
    }
  }

  // ----- What a sign-in needs, and what it leaves -----

  /** An attempt signs in exactly with the right password of a known account that has one and is not locked, as that account. */
  lemma SignedInExactly(users: Users, a: Attempt, userId: string)
    ensures Answer(users, a).0 == SignedIn(userId)
            <==> && a.email in users && users[a.email].passwordHash.Some? && a.matches && users[a.email].id == userId
                 && (users[a.email].lockedUntil.Some? ==> users[a.email].lockedUntil.value <= a.checked)
  {
  }

  /** The attempts on one account. */
  function OnAccount(attempts: seq<Attempt>, email: string): (r: seq<Attempt>)
    ensures forall i :: 0 <= i < |r| ==> r[i] in attempts && r[i].email == email
  {
    if attempts == [] then []
    else (if attempts[0].email == email then [attempts[0]] else []) + OnAccount(attempts[1..], email)
  }

  /** An account sees only the attempts on it. */
  lemma {:induction false} OnlyOwnAttempts(users: Users, others: Users, attempts: seq<Attempt>, email: string)
    requires email in users && email in others && users[email] == others[email]
    ensures email in Run(users, attempts) && email in Run(others, OnAccount(attempts, email))
    ensures Run(users, attempts)[email] == Run(others, OnAccount(attempts, email))[email]
    decreases |attempts|
  {
    if attempts != [] {
      var a, rest := attempts[0], OnAccount(attempts[1..], email);
      if a.email == email {
        assert OnAccount(attempts, email)[0] == a && OnAccount(attempts, email)[1..] == rest;
        OnlyOwnAttempts(After(users, a), After(others, a), attempts[1..], email);
      } else {
        assert OnAccount(attempts, email) == rest;
        OnlyOwnAttempts(After(users, a), others, attempts[1..], email);
      }
    }
  }

  /** Wrong passwords on one account that is not locked any more. */
  lemma {:induction false} WrongPasswords(users: Users, attempts: seq<Attempt>, email: string)
    requires email in users && users[email].passwordHash.Some?
    requires users[email].lockedUntil.None? || (attempts != [] && !Locked(users[email], attempts[0].checked))
    requires users[email].failedLoginAttempts + |attempts| <= LOCKOUT_THRESHOLD && users[email].failedLoginAttempts < LOCKOUT_THRESHOLD
    requires forall i :: 0 <= i < |attempts| ==> attempts[i].email == email && !attempts[i].matches
    ensures email in Run(users, attempts)
    ensures var user, after := users[email], Run(users, attempts)[email];
            && after.id == user.id && after.passwordHash == user.passwordHash
            && after.lockedUntil == if user.failedLoginAttempts + |attempts| == LOCKOUT_THRESHOLD
                                    then Some(attempts[|attempts| - 1].recorded + LOCKOUT_DURATION_MS) else None
    decreases |attempts|
  {
    if |attempts| == 1 {
      assert Run(After(users, attempts[0]), attempts[1..]) == After(users, attempts[0]);
    } else if attempts != [] {
      WrongPasswords(After(users, attempts[0]), attempts[1..], email);
    }
  }

  /** From no failures counted and no lock in force: what a later attempt is answered after wrong passwords. */
  lemma AfterWrongPasswords(users: Users, attempts: seq<Attempt>, later: Attempt)
    requires later.email in users && users[later.email].passwordHash.Some? && users[later.email].failedLoginAttempts == 0
    requires |OnAccount(attempts, later.email)| <= 5
    requires users[later.email].lockedUntil.None?
             || (OnAccount(attempts, later.email) != [] && !Locked(users[later.email], OnAccount(attempts, later.email)[0].checked))
    requires forall i :: 0 <= i < |attempts| && attempts[i].email == later.email ==> !attempts[i].matches
    ensures var wrong, answer := OnAccount(attempts, later.email), Answer(Run(users, attempts), later).0;
            if |wrong| == 5 && later.checked < wrong[4].recorded + 15 * 60 * 1000 then answer == AccountLocked(wrong[4].recorded + 15 * 60 * 1000)
            else answer == if later.matches then SignedIn(users[later.email].id) else InvalidCredentials
  {
    hide After, OnAccount, Run;
    var wrong := OnAccount(attempts, later.email);
    OnlyOwnAttempts(users, users, attempts, later.email);
    forall i | 0 <= i < |wrong|
      ensures !wrong[i].matches
    {
      var k :| 0 <= k < |attempts| && attempts[k] == wrong[i];
    }
    WrongPasswords(users, wrong, later.email);
  }

  /**
   * Whatever was counted before it, a sign-in leaves five new failures: up to four wrong passwords
   * lock nothing, the fifth locks the account exactly until fifteen minutes after it was recorded,
   * and otherwise the right password signs the same user in. What others do meanwhile changes nothing.
   */
  lemma FreshAfterSignIn(users: Users, a: Attempt, attempts: seq<Attempt>, later: Attempt)
    requires Answer(users, a).0.SignedIn? && later.email == a.email
    requires |OnAccount(attempts, a.email)| <= 5
    requires forall i :: 0 <= i < |attempts| && attempts[i].email == a.email ==> !attempts[i].matches
    ensures var wrong, answer := OnAccount(attempts, a.email), Answer(Run(users, [a] + attempts), later).0;
            if |wrong| == 5 && later.checked < wrong[4].recorded + 15 * 60 * 1000 then answer == AccountLocked(wrong[4].recorded + 15 * 60 * 1000)
            else answer == if later.matches then Answer(users, a).0 else InvalidCredentials
  {
    assert After(users, a)[a.email].failedLoginAttempts == 0 && After(users, a)[a.email].lockedUntil.None?;
    hide OnAccount, After;
    assert ([a] + attempts)[0] == a && ([a] + attempts)[1..] == attempts;
    AfterWrongPasswords(After(users, a), attempts, later);
  }

  /** Once a lock has run out it takes five new failures to lock the account again, as after a sign-in. */
  lemma FreshAfterLock(users: Users, a: Attempt, attempts: seq<Attempt>, later: Attempt)
    requires Answer(users, a).1 == Own && !a.matches && later.email == a.email
    requires After(users, a)[a.email].lockedUntil.Some?
    requires 1 <= |OnAccount(attempts, a.email)| <= 5
    requires After(users, a)[a.email].lockedUntil.value <= OnAccount(attempts, a.email)[0].checked
    requires forall i :: 0 <= i < |attempts| && attempts[i].email == a.email ==> !attempts[i].matches
    ensures var wrong, answer := OnAccount(attempts, a.email), Answer(Run(users, [a] + attempts), later).0;
            if |wrong| == 5 && later.checked < wrong[4].recorded + 15 * 60 * 1000 then answer == AccountLocked(wrong[4].recorded + 15 * 60 * 1000)
            else answer == if later.matches then SignedIn(users[a.email].id) else InvalidCredentials
  {
    assert After(users, a)[a.email].failedLoginAttempts == 0;
    hide OnAccount;
    assert ([a] + attempts)[0] == a && ([a] + attempts)[1..] == attempts;
    AfterWrongPasswords(After(users, a), attempts, later);
  }
}
