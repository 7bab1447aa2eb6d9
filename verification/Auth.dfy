/**
  Login with its failure counter and lock window, and the rotation of refresh
  tokens. Times are nanoseconds. Whether a password matches the stored hash is
  an input, and so is every reading of the clock. A signed token is its claims.
*/
module Auth {
  import opened Basics

  const SECOND := 1_000_000_000
  const MAX_LOGIN_FAIL_COUNT := 5
  const LOCK_DURATION := 30 * 60 * SECOND

  datatype User = User(
    id: int, username: string, enabled: bool, lastLogin: Option<int>, failCount: int, lockedUntil: Option<int>)

  datatype Outcome = InvalidCredential | UserDisabled | UserLocked | LoginFailed | LoggedIn

  // ----- the user row

  function UpdateLastLogin(u: User, now: int): User {
    u.(lastLogin := Some(now), failCount := 0)
  }

  function IncrementLoginFail(u: User): User {
    u.(failCount := u.failCount + 1)
  }

  function LockUser(u: User, until: int): User {
    u.(lockedUntil := Some(until))
  }

  /** The lock is in force at that moment. */
  predicate LockedAt(u: User, now: int) {
    u.lockedUntil.Some? && u.lockedUntil.value > now
  }

  /**
    One login on an existing account: the lock is checked at `checkAt`, whatever is written is written at `writeAt`.
  */
  function Judged(u: User, matches: bool, checkAt: int): Outcome {
    if !u.enabled then UserDisabled
    else if LockedAt(u, checkAt) then UserLocked
    else if matches then LoggedIn
    else InvalidCredential
  }

  function AfterLogin(u: User, matches: bool, checkAt: int, writeAt: int): User {
    match Judged(u, matches, checkAt)
    case LoggedIn => UpdateLastLogin(u, writeAt)
    case InvalidCredential =>
      var counted := IncrementLoginFail(u);
      if u.failCount + 1 >= MAX_LOGIN_FAIL_COUNT then LockUser(counted, writeAt + LOCK_DURATION) else counted
    case _ => u
  }

  // ----- lockout over whole runs

  /** One login attempt on the account; `enabled` is what the row says about it at that time. */
  datatype Attempt = Attempt(enabled: bool, matches: bool, checkAt: int, writeAt: int)

  /** Attempts follow one another. */
  ghost predicate InSequence(attempts: seq<Attempt>) {
    (forall i | 0 <= i < |attempts| :: attempts[i].checkAt <= attempts[i].writeAt) &&
    (forall i, j | 0 <= i < j < |attempts| :: attempts[i].writeAt <= attempts[j].checkAt)
  }

  function Play(u: User, attempts: seq<Attempt>): User {
    if attempts == [] then u
    else
      var a := attempts[|attempts| - 1];
      AfterLogin(Play(u, attempts[..|attempts| - 1]).(enabled := a.enabled), a.matches, a.checkAt, a.writeAt)
  }

  /** The times of the wrong passwords that were evaluated since the last success. */
  function Failures(u: User, attempts: seq<Attempt>): seq<int> {
    if attempts == [] then []
    else
      var rest, a := attempts[..|attempts| - 1], attempts[|attempts| - 1];
      match Judged(Play(u, rest).(enabled := a.enabled), a.matches, a.checkAt)
      case LoggedIn => []
      case InvalidCredential => Failures(u, rest) + [a.checkAt]
      case _ => Failures(u, rest)
  }

  predicate Fresh(u: User) {
    u.failCount == 0
  }

  ghost predicate Spaced(f: seq<int>) {
    forall i, j | MAX_LOGIN_FAIL_COUNT - 1 <= i <= j < |f| :: f[j] - f[i] >= (j - i) * LOCK_DURATION
  }

  /** From the fifth failure on, the lock reaches at least the lock duration beyond the last failure. */
  ghost predicate LockCovers(u: User, f: seq<int>) {
    |f| >= MAX_LOGIN_FAIL_COUNT ==> u.lockedUntil.Some? && u.lockedUntil.value >= f[|f| - 1] + LOCK_DURATION
  }

  lemma SpacedAppend(f: seq<int>, t: int)
    requires Spaced(f) && (|f| >= MAX_LOGIN_FAIL_COUNT ==> t >= f[|f| - 1] + LOCK_DURATION)
    ensures Spaced(f + [t])
  {
    var g := f + [t];
    forall i, j | MAX_LOGIN_FAIL_COUNT - 1 <= i <= j < |g|
      ensures g[j] - g[i] >= (j - i) * LOCK_DURATION
    {
      if i < j == |f| {
        assert f[|f| - 1] - f[i] >= (|f| - 1 - i) * LOCK_DURATION;
      }
    }
  }

  /** The counter counts the failures since the last success, and they are as far apart as the lock promises. */
  lemma {:induction false} LockoutInvariant(u: User, attempts: seq<Attempt>)
    requires Fresh(u) && InSequence(attempts)
    ensures Play(u, attempts).failCount == |Failures(u, attempts)|
    ensures LockCovers(Play(u, attempts), Failures(u, attempts))
    ensures Spaced(Failures(u, attempts))
  {
    if attempts == [] {
    } else {
      var rest, a := attempts[..|attempts| - 1], attempts[|attempts| - 1];
      LockoutInvariant(u, rest);
      if Judged(Play(u, rest).(enabled := a.enabled), a.matches, a.checkAt) == InvalidCredential {
        SpacedAppend(Failures(u, rest), a.checkAt);
      }
    }
  }

  /** n evaluated failures in a row, n > 5, span at least (n - 5) lock durations from the fifth to the last. */
  lemma LockoutSpan(u: User, attempts: seq<Attempt>)
    requires Fresh(u) && InSequence(attempts)
    ensures var f := Failures(u, attempts);
            |f| > 5 ==> f[|f| - 1] - f[4] >= (|f| - 5) * 1_800_000_000_000
  {
    LockoutInvariant(u, attempts);
  }

  /** What the attempt at that place of the run is answered. */
  function OutcomeAt(u: User, attempts: seq<Attempt>, i: nat): Outcome
    requires i < |attempts|
  {
    var a := attempts[i];
    Judged(Play(u, attempts[..i]).(enabled := a.enabled), a.matches, a.checkAt)
  }

  lemma PlayStep(u: User, attempts: seq<Attempt>, i: nat)
    requires i < |attempts|
    ensures var a := attempts[i];
            Play(u, attempts[..i + 1]) ==
            AfterLogin(Play(u, attempts[..i]).(enabled := a.enabled), a.matches, a.checkAt, a.writeAt)
  {
    assert attempts[..i + 1][..i] == attempts[..i];
  }

  /** The lock that the failure at i sets stays until it ends. */
  lemma {:induction false} LockHolds(u: User, attempts: seq<Attempt>, i: nat, j: nat)
    requires Fresh(u) && InSequence(attempts) && i < j <= |attempts|
    requires OutcomeAt(u, attempts, i) == InvalidCredential && |Failures(u, attempts[..i + 1])| >= 5
    requires j < |attempts| ==> attempts[j].checkAt < attempts[i].writeAt + 1_800_000_000_000
    requires forall k | i < k < j :: attempts[k].checkAt < attempts[i].writeAt + 1_800_000_000_000
    ensures Play(u, attempts[..j]).lockedUntil == Some(attempts[i].writeAt + 1_800_000_000_000)
  {
    PlayStep(u, attempts, j - 1);
    if j == i + 1 {
      LockoutInvariant(u, attempts[..i + 1]);
      assert attempts[..i + 1][..i] == attempts[..i];
    } else {
      LockHolds(u, attempts, i, j - 1);
    }
  }

  /**
    The lock: after the fifth wrong password since the last success, and after each further one, no login on the account
    succeeds whose check comes less than 30 minutes later, not even with the right password.
  */
  lemma LockedOut(u: User, attempts: seq<Attempt>, i: nat, j: nat)
    requires Fresh(u) && InSequence(attempts) && i < j < |attempts|
    requires OutcomeAt(u, attempts, i) == InvalidCredential && |Failures(u, attempts[..i + 1])| >= 5
    requires attempts[j].checkAt < attempts[i].writeAt + 1_800_000_000_000
    ensures OutcomeAt(u, attempts, j) == if attempts[j].enabled then UserLocked else UserDisabled
  {
    forall k | i < k < j
      ensures attempts[k].checkAt < attempts[i].writeAt + 1_800_000_000_000
    {
      assert attempts[k].checkAt <= attempts[k].writeAt <= attempts[j].checkAt;
    }
    LockHolds(u, attempts, i, j);
  }

  /**
    What counts as a failure since the last success: a wrong password on an account that was enabled and not locked.
  */
  lemma FailureStep(u: User, attempts: seq<Attempt>, i: nat)
    requires i < |attempts|
    ensures var before, a := Play(u, attempts[..i]), attempts[i];
            var open := a.enabled && (before.lockedUntil.None? || before.lockedUntil.value <= a.checkAt);
            Failures(u, attempts[..i + 1]) ==
            if open && a.matches then []
            else if open then Failures(u, attempts[..i]) + [a.checkAt] else Failures(u, attempts[..i])
  {
    assert attempts[..i + 1][..i] == attempts[..i];
  }

  /** The fastest way to fail n times: five at once, then one as soon as each lock ends. */
  function Fastest(n: nat): seq<Attempt> {
    if n == 0 then [] else Fastest(n - 1) + [Attempt(true, false, FastestTime(n - 1), FastestTime(n - 1))]
  }

  function FastestTime(k: nat): int {
    if k < 5 then 0 else (k - 4) * LOCK_DURATION
  }

  lemma {:induction false} FastestIsInSequence(n: nat)
    ensures |Fastest(n)| == n && InSequence(Fastest(n))
    ensures forall k | 0 <= k < n :: Fastest(n)[k].checkAt == Fastest(n)[k].writeAt == FastestTime(k)
  {
    if n == 0 {
    } else {
      FastestIsInSequence(n - 1);
      assert forall k: nat | k < n :: FastestTime(k) <= FastestTime(n - 1);
    }
  }

  function FastestTimes(n: nat): seq<int> {
    if n == 0 then [] else FastestTimes(n - 1) + [FastestTime(n - 1)]
  }

  lemma {:induction false} FastestTimesAt(n: nat)
    ensures |FastestTimes(n)| == n && forall k | 0 <= k < n :: FastestTimes(n)[k] == FastestTime(k)
  {
    if n == 0 {
    } else {
      FastestTimesAt(n - 1);
    }
  }

  /** A wrong password on an open account that is not locked is one more failure. */
  lemma FailsAgain(u: User, attempts: seq<Attempt>, at: int)
    requires !LockedAt(Play(u, attempts), at)
    ensures var after := attempts + [Attempt(true, false, at, at)];
            Failures(u, after) == Failures(u, attempts) + [at] &&
            Play(u, after) == AfterLogin(Play(u, attempts).(enabled := true), false, at, at)
  {
    var a := Attempt(true, false, at, at);
    var after := attempts + [a];
    assert after[..|after| - 1] == attempts && after[|after| - 1] == a;
  }

  /** After these attempts all n of them have failed, at these times, and the lock ends when the next one is due. */
  ghost predicate AllFailed(u: User, attempts: seq<Attempt>, times: seq<int>, n: nat) {
    Failures(u, attempts) == times && Play(u, attempts).failCount == n &&
    Play(u, attempts).lockedUntil == if n < 5 then None else Some(FastestTime(n))
  }

  lemma FailsNext(u: User, attempts: seq<Attempt>, times: seq<int>, n: nat)
    requires AllFailed(u, attempts, times, n)
    ensures AllFailed(u, attempts + [Attempt(true, false, FastestTime(n), FastestTime(n))], times + [FastestTime(n)],
                      n + 1)
  {
    FailsAgain(u, attempts, FastestTime(n));
  }

  lemma {:induction false} FastestAllFail(u: User, n: nat)
    requires Fresh(u) && u.lockedUntil == None
    ensures AllFailed(u, Fastest(n), FastestTimes(n), n)
  {
    if n == 0 {
    } else {
      FastestAllFail(u, n - 1);
      FailsNext(u, Fastest(n - 1), FastestTimes(n - 1), n - 1);
    }
  }

  /** The bound is sharp: n > 5 failures can be had within exactly (n - 5) lock durations after the fifth. */
  lemma LockoutBoundIsSharp(u: User, n: nat)
    requires Fresh(u) && u.lockedUntil == None && n > 5
    ensures var f := Failures(u, Fastest(n));
            InSequence(Fastest(n)) && |f| == n && f[n - 1] - f[4] == (n - 5) * LOCK_DURATION
  {
    FastestIsInSequence(n);
    FastestAllFail(u, n);
    FastestTimesAt(n);
  }

  /** The stored counter is a 32-bit column; a run would have to go on for a hundred thousand years to fill it. */
  lemma CounterStaysSmall(u: User, attempts: seq<Attempt>)
    requires Fresh(u) && InSequence(attempts)
    requires forall i, j | 0 <= i <= j < |Failures(u, attempts)| ::
               Failures(u, attempts)[j] - Failures(u, attempts)[i] < 100_000 * 365 * 24 * 3600 * SECOND
    ensures Play(u, attempts).failCount < 0x8000_0000
  {
    LockoutInvariant(u, attempts);
    LockoutSpan(u, attempts);
  }

  // ----- tokens

  datatype Kind = Access | Refresh

  datatype Claims = Claims(userID: int, username: string, kind: Kind, issuedAt: int, expiresAt: int)

  /** A string that verifies under the manager's key is its claims; any other string is not accepted. */
  datatype Token = Signed(claims: Claims) | Unsigned(text: string)

  /** The life of a refresh token, a whole number of seconds. */
  datatype Config = Config(refreshSeconds: int)

  datatype Rotation = TokenExpired | RefreshTokenUsed | RefreshFailed | Rotated(token: Token)

  datatype Slot = Slot(token: Token, expiresAt: int)

  type Slots = map<int, Slot>

  /** Numeric dates are whole seconds. */
  function Sec(t: int): int {
    t / SECOND
  }

  function MintRefresh(cfg: Config, userID: int, username: string, now: int): Token {
    Signed(Claims(userID, username, Refresh, Sec(now), Sec(now + cfg.refreshSeconds * SECOND)))
  }

  predicate ParsesAsRefresh(token: Token, now: int) {
    token.Signed? && now < token.claims.expiresAt * SECOND && token.claims.kind == Refresh
  }

  predicate RefreshAccepted(slots: Slots, token: Token, now: int) {
    ParsesAsRefresh(token, now) &&
    token.claims.userID in slots && now < slots[token.claims.userID].expiresAt &&
    slots[token.claims.userID].token == token
  }

  function StoreFresh(cfg: Config, slots: Slots, userID: int, username: string, now: int): Slots {
    slots[userID := Slot(MintRefresh(cfg, userID, username, now), now + cfg.refreshSeconds * SECOND)]
  }

  /**
    A token that has just been stored is accepted until it expires, whole seconds after the second it was minted in.
  */
  lemma StoredUntilExpiry(cfg: Config, slots: Slots, id: int, name: string, mintAt: int, now: int)
    requires cfg.refreshSeconds >= 0
    ensures var after := StoreFresh(cfg, slots, id, name, mintAt);
            id in after && after[id].token.Signed? && after[id].token.claims.username == name &&
            (RefreshAccepted(after, after[id].token, now) <==>
             now < (mintAt / 1_000_000_000 + cfg.refreshSeconds) * 1_000_000_000)
    ensures forall other | other in slots && other != id ::
              other in StoreFresh(cfg, slots, id, name, mintAt) &&
              StoreFresh(cfg, slots, id, name, mintAt)[other] == slots[other]
  {
    assert Sec(mintAt + cfg.refreshSeconds * SECOND) == Sec(mintAt) + cfg.refreshSeconds;
  }

  // ----- rotation over whole runs

  /** `stored`: writing the new token succeeds. `deleted`: deleting the old one does; a failed delete is only logged. */
  datatype Event =
    | Login(userID: int, username: string, mintAt: int, stored: bool)   // a login with the right password
    | Rotate(token: Token, parseAt: int, mintAt: int, stored: bool)     // a call of RefreshToken
    | Logout(userID: int, deleted: bool)

  function After(cfg: Config, events: seq<Event>): Slots {
    if events == [] then map[]
    else
      var slots, e := After(cfg, events[..|events| - 1]), events[|events| - 1];
      match e
      case Login(id, name, now, stored) => if stored then StoreFresh(cfg, slots, id, name, now) else slots
      case Rotate(token, parseAt, now, stored) =>
        if RefreshAccepted(slots, token, parseAt) && stored
        then StoreFresh(cfg, slots, token.claims.userID, token.claims.username, now) else slots
      case Logout(id, deleted) => if deleted then slots - {id} else slots
  }

  /** The call succeeds. */
  predicate AcceptedAt(cfg: Config, events: seq<Event>, i: nat)
    requires i < |events|
  {
    events[i].Rotate? && events[i].stored &&
    RefreshAccepted(After(cfg, events[..i]), events[i].token, events[i].parseAt)
  }

  predicate MintsAt(cfg: Config, events: seq<Event>, i: nat, userID: int)
    requires i < |events|
  {
    (events[i].Login? && events[i].stored && events[i].userID == userID) ||
    (AcceptedAt(cfg, events, i) && events[i].token.claims.userID == userID)
  }

  /** No two tokens of one user are minted in the same second. */
  ghost predicate DistinctSeconds(cfg: Config, events: seq<Event>) {
    forall i, j, id | 0 <= i < j < |events| && MintsAt(cfg, events, i, id) && MintsAt(cfg, events, j, id) ::
      Sec(events[i].mintAt) != Sec(events[j].mintAt)
  }

  lemma AfterStep(cfg: Config, events: seq<Event>, n: nat)
    requires n < |events|
    ensures After(cfg, events[..n + 1]) ==
            match events[n]
            case Login(id, name, now, stored) =>
              if stored then StoreFresh(cfg, After(cfg, events[..n]), id, name, now) else After(cfg, events[..n])
            case Rotate(token, parseAt, now, _) =>
              if AcceptedAt(cfg, events, n)
              then StoreFresh(cfg, After(cfg, events[..n]), token.claims.userID, token.claims.username, now)
              else After(cfg, events[..n])
            case Logout(id, deleted) => if deleted then After(cfg, events[..n]) - {id} else After(cfg, events[..n])
  {
    assert events[..n + 1][..n] == events[..n];
  }

  /** The stored token of a user was minted by an earlier event, in the second it carries. */
  lemma {:induction false} SlotOrigin(cfg: Config, events: seq<Event>, n: nat, id: int) returns (k: nat)
    requires n <= |events| && id in After(cfg, events[..n])
    ensures k < n && MintsAt(cfg, events, k, id)
    ensures var token := After(cfg, events[..n])[id].token;
            token.Signed? && token == MintRefresh(cfg, id, token.claims.username, events[k].mintAt)
  {
    AfterStep(cfg, events, n - 1);
    if MintsAt(cfg, events, n - 1, id) {
      k := n - 1;
    } else {
      k := SlotOrigin(cfg, events, n - 1, id);
    }
  }

  /** If no two of a user's tokens are minted in one second, a token once accepted is never again the stored one. */
  lemma {:induction false} SpentStaysSpent(cfg: Config, events: seq<Event>, i: nat, n: nat)
    requires DistinctSeconds(cfg, events) && i < n <= |events| && AcceptedAt(cfg, events, i)
    ensures var id := events[i].token.claims.userID;
            id in After(cfg, events[..n]) ==> After(cfg, events[..n])[id].token != events[i].token
  {
    var token := events[i].token;
    var id := token.claims.userID;
    var k := SlotOrigin(cfg, events, i, id);
    AfterStep(cfg, events, n - 1);
    if MintsAt(cfg, events, n - 1, id) {
      assert Sec(events[k].mintAt) != Sec(events[n - 1].mintAt);
    } else {
      SpentStaysSpent(cfg, events, i, n - 1);
    }
  }

  /** Then every refresh token is accepted at most once, whatever the clock does. */
  lemma DistinctSecondsSuffice(cfg: Config, events: seq<Event>, i: nat, j: nat)
    requires DistinctSeconds(cfg, events) && i < j < |events|
    requires AcceptedAt(cfg, events, i) && AcceptedAt(cfg, events, j)
    ensures events[i].token != events[j].token
  {
    SpentStaysSpent(cfg, events, i, j);
  }

  // ----- the exact condition, on a clock that does not go back

  function ReadsFrom(e: Event): int
    requires !e.Logout?
  {
    if e.Rotate? then e.parseAt else e.mintAt
  }

  ghost predicate InOrder(events: seq<Event>) {
    (forall i | 0 <= i < |events| && events[i].Rotate? :: events[i].parseAt <= events[i].mintAt) &&
    (forall i, j | 0 <= i < j < |events| && !events[i].Logout? && !events[j].Logout? ::
       events[i].mintAt <= ReadsFrom(events[j]))
  }

  /** After a token of a user was minted, the stored one is never from an earlier second. */
  lemma {:induction false} NeverFromBefore(cfg: Config, events: seq<Event>, i: nat, n: nat, id: int)
    requires InOrder(events) && i < n <= |events| && MintsAt(cfg, events, i, id) && id in After(cfg, events[..n])
    ensures var token := After(cfg, events[..n])[id].token;
            token.Signed? && Sec(events[i].mintAt) <= token.claims.issuedAt
  {
    AfterStep(cfg, events, n - 1);
    if MintsAt(cfg, events, n - 1, id) {
      assert i < n - 1 ==> events[i].mintAt <= ReadsFrom(events[n - 1]);
    } else {
      NeverFromBefore(cfg, events, i, n - 1, id);
    }
  }

  /** A token that is accepted was minted before, is not from the future, and lives for at least a second. */
  lemma AcceptedToken(cfg: Config, events: seq<Event>, i: nat)
    requires InOrder(events) && i < |events| && AcceptedAt(cfg, events, i)
    ensures var c := events[i].token.claims;
            c.issuedAt <= Sec(events[i].mintAt) && c.expiresAt == c.issuedAt + cfg.refreshSeconds &&
            c.kind == Refresh && cfg.refreshSeconds > 0
  {
    var k := SlotOrigin(cfg, events, i, events[i].token.claims.userID);
    assert events[k].mintAt <= ReadsFrom(events[i]);
    assert Sec(events[k].mintAt + cfg.refreshSeconds * SECOND) == Sec(events[k].mintAt) + cfg.refreshSeconds;
  }

  /** Whoever rotates into a later second than that of the token spends it: it is never accepted again. */
  lemma AcceptedOnce(cfg: Config, events: seq<Event>, i: nat, j: nat)
    requires InOrder(events) && i < j < |events| && AcceptedAt(cfg, events, i) && AcceptedAt(cfg, events, j)
    requires Sec(events[i].mintAt) != events[i].token.claims.issuedAt
    ensures events[i].token != events[j].token
  {
    var id := events[i].token.claims.userID;
    AcceptedToken(cfg, events, i);
    if events[j].token.claims.userID == id {
      NeverFromBefore(cfg, events, i, j, id);
    }
  }

  /** The run, which ends with an accepted token, can go on to accept it a second time. */
  ghost predicate Reusable(cfg: Config, events: seq<Event>)
    requires events != [] && events[|events| - 1].Rotate?
  {
    exists more: seq<Event>, j: nat :: AcceptedAgain(cfg, events, more, j)
  }

  ghost predicate AcceptedAgain(cfg: Config, events: seq<Event>, more: seq<Event>, j: nat)
    requires events != [] && events[|events| - 1].Rotate?
  {
    InOrder(events + more) && |events| <= j < |events| + |more| && AcceptedAt(cfg, events + more, j) &&
    (events + more)[j].token == events[|events| - 1].token
  }

  lemma RepeatAtOnce(cfg: Config, events: seq<Event>)
    requires InOrder(events) && events != [] && AcceptedAt(cfg, events, |events| - 1)
    requires Sec(events[|events| - 1].mintAt) == events[|events| - 1].token.claims.issuedAt
    ensures Reusable(cfg, events)
  {
    var n, last := |events|, events[|events| - 1];
    var more := [Rotate(last.token, last.mintAt, last.mintAt, true)];
    var all := events + more;
    AcceptedToken(cfg, events, n - 1);
    AfterStep(cfg, events, n - 1);
    assert events[..n] == events == all[..n];
    var k := SlotOrigin(cfg, events, n - 1, last.token.claims.userID);
    SameSecondSameToken(cfg, last.token.claims.userID, last.token.claims.username, events[k].mintAt, last.mintAt);
    forall i, j | 0 <= i < j < |all| && !all[i].Logout? && !all[j].Logout?
      ensures all[i].mintAt <= ReadsFrom(all[j])
    {
      assert i < n - 1 && j == n ==> events[i].mintAt <= ReadsFrom(events[n - 1]);
    }
    assert AcceptedAgain(cfg, events, more, n);
  }

  /** Exactly when an accepted token can be accepted again: its successor was minted in the same second as itself. */
  lemma ReusableIff(cfg: Config, events: seq<Event>)
    requires InOrder(events) && events != [] && AcceptedAt(cfg, events, |events| - 1)
    ensures Reusable(cfg, events) <==> Sec(events[|events| - 1].mintAt) == events[|events| - 1].token.claims.issuedAt
  {
    var n, last := |events|, events[|events| - 1];
    if Sec(last.mintAt) == last.token.claims.issuedAt {
      RepeatAtOnce(cfg, events);
    } else if Reusable(cfg, events) {
      var more: seq<Event>, j: nat :| AcceptedAgain(cfg, events, more, j);
      var all := events + more;
      assert all[..n - 1] == events[..n - 1] && all[n - 1] == last;
      AcceptedOnce(cfg, all, n - 1, j);
    }
  }

  lemma {:induction false} SlotStays(cfg: Config, events: seq<Event>, i: nat, j: nat, id: int)
    requires i <= j <= |events|
    requires forall k | i <= k < j :: !MintsAt(cfg, events, k, id) && !(events[k].Logout? && events[k].userID == id)
    ensures id in After(cfg, events[..i]) <==> id in After(cfg, events[..j])
    ensures id in After(cfg, events[..i]) ==> After(cfg, events[..j])[id] == After(cfg, events[..i])[id]
  {
    if i == j {
    } else {
      SlotStays(cfg, events, i, j - 1, id);
      AfterStep(cfg, events, j - 1);
    }
  }

  /**
    Over runs: the token that event i stores is accepted until it expires, unless another one or a logout comes
    first.
  */
  lemma AcceptedUntilExpiry(cfg: Config, events: seq<Event>, i: nat, j: nat, id: int, now: int)
    requires cfg.refreshSeconds >= 0 && i < j <= |events| && MintsAt(cfg, events, i, id)
    requires forall k | i < k < j :: !MintsAt(cfg, events, k, id) && !(events[k].Logout? && events[k].userID == id)
    ensures id in After(cfg, events[..i + 1])
    ensures RefreshAccepted(After(cfg, events[..j]), After(cfg, events[..i + 1])[id].token, now) <==>
            now < (events[i].mintAt / 1_000_000_000 + cfg.refreshSeconds) * 1_000_000_000
  {
    AfterStep(cfg, events, i);
    var before := After(cfg, events[..i]);
    var name := if events[i].Login? then events[i].username else events[i].token.claims.username;
    StoredUntilExpiry(cfg, before, id, name, events[i].mintAt, now);
    SlotStays(cfg, events, i + 1, j, id);
  }

  /** At any moment at most one refresh token of a user is acceptable. */
  lemma OneAcceptable(slots: Slots, a: Token, b: Token, now: int)
    requires RefreshAccepted(slots, a, now) && RefreshAccepted(slots, b, now)
    ensures a.claims.userID == b.claims.userID <==> a == b
  {
  }

  lemma {:induction false} LoggedOutStays(cfg: Config, events: seq<Event>, i: nat, n: nat, id: int)
    requires i < n <= |events| && events[i] == Logout(id, true)
    requires forall k | i < k < n :: !(events[k].Login? && events[k].userID == id)
    ensures id !in After(cfg, events[..n])
  {
    AfterStep(cfg, events, n - 1);
    if n - 1 > i {
      LoggedOutStays(cfg, events, i, n - 1, id);
    }
  }

  /** After a logout whose delete succeeds no refresh token of the user is accepted until the next login. */
  lemma NothingAfterLogout(cfg: Config, events: seq<Event>, i: nat, j: nat, id: int)
    requires i < j < |events| && events[i] == Logout(id, true)
    requires forall k | i < k < j :: !(events[k].Login? && events[k].userID == id)
    ensures AcceptedAt(cfg, events, j) ==> events[j].token.claims.userID != id
  {
    LoggedOutStays(cfg, events, i, j, id);
  }

  /** Exactly when a token is still good after a logout: it was before, and the delete failed. */
  lemma LogoutExact(cfg: Config, events: seq<Event>, deleted: bool, token: Token, now: int)
    requires token.Signed?
    ensures RefreshAccepted(After(cfg, events + [Logout(token.claims.userID, deleted)]), token, now) <==>
            !deleted && RefreshAccepted(After(cfg, events), token, now)
  {
    assert (events + [Logout(token.claims.userID, deleted)])[..|events|] == events;
  }

  /** Two tokens of one user are the same string exactly when they are minted in the same second. */
  lemma SameSecondSameToken(cfg: Config, id: int, name: string, a: int, b: int)
    ensures MintRefresh(cfg, id, name, a) == MintRefresh(cfg, id, name, b) <==> Sec(a) == Sec(b)
  {
    assert Sec(a + cfg.refreshSeconds * SECOND) == Sec(a) + cfg.refreshSeconds;
    assert Sec(b + cfg.refreshSeconds * SECOND) == Sec(b) + cfg.refreshSeconds;
  }

  /** A token that is accepted twice: a login and two rotations within one second. */
  lemma SameSecondReuse()
    ensures var cfg := Config(60);
            var token := MintRefresh(cfg, 7, "ann", 0);
            var events := [Login(7, "ann", 0, true), Rotate(token, 1, 2, true), Rotate(token, 3, 4, true)];
            InOrder(events) && AcceptedAt(cfg, events, 1) && AcceptedAt(cfg, events, 2)
  {
    var cfg := Config(60);
    var token := MintRefresh(cfg, 7, "ann", 0);
    var events := [Login(7, "ann", 0, true), Rotate(token, 1, 2, true), Rotate(token, 3, 4, true)];
    assert events[..0] == [];
    AfterStep(cfg, events, 0);
    AfterStep(cfg, events, 1);
  }

  // ----- the service

  class AuthService {
    const cfg: Config
    var users: map<string, User>
    var slots: Slots

    constructor (cfg: Config, users: map<string, User>)
      ensures this.cfg == cfg && this.users == users && slots == map[]
    {
      this.cfg, this.users, slots := cfg, users, map[];
    }

    /** Only the account of that address is touched; only a success mints and stores a token. */
    method Login(email: string, matches: bool, checkAt: int, writeAt: int, stored: bool)
      returns (outcome: Outcome, token: Option<Token>)
      modifies this
      ensures outcome == LoggedIn || outcome == LoginFailed <==>
              email in old(users) && old(users)[email].enabled &&
              (old(users)[email].lockedUntil.None? || old(users)[email].lockedUntil.value <= checkAt) && matches
      ensures outcome == LoggedIn ==> stored
      ensures outcome == LoginFailed ==> !stored
      ensures outcome == UserDisabled <==> email in old(users) && !old(users)[email].enabled
      ensures outcome == UserLocked <==>
              email in old(users) && old(users)[email].enabled && old(users)[email].lockedUntil.Some? &&
              old(users)[email].lockedUntil.value > checkAt
      ensures outcome == InvalidCredential <==>
              email !in old(users) || (old(users)[email].enabled &&
              (old(users)[email].lockedUntil.None? || old(users)[email].lockedUntil.value <= checkAt) && !matches)
      ensures email !in old(users) || outcome == UserDisabled || outcome == UserLocked ==> users == old(users)
      ensures email in old(users) && outcome == InvalidCredential ==>
                var u := old(users)[email];
                var until := if u.failCount + 1 >= 5 then Some(writeAt + 1_800_000_000_000) else u.lockedUntil;
                users == old(users)[email := u.(failCount := u.failCount + 1, lockedUntil := until)]
      ensures outcome == LoggedIn || outcome == LoginFailed ==>
                users == old(users)[email := old(users)[email].(lastLogin := Some(writeAt), failCount := 0)]
      ensures email in old(users) ==>
                users == old(users)[email := AfterLogin(old(users)[email], matches, checkAt, writeAt)]
      ensures outcome == LoggedIn ==>
                var u := old(users)[email];
                slots == StoreFresh(cfg, old(slots), u.id, u.username, writeAt) && token == Some(slots[u.id].token) &&
                slots[u.id] ==
                Slot(Signed(Claims(u.id, u.username, Refresh, writeAt / 1_000_000_000,
                                   (writeAt + cfg.refreshSeconds * 1_000_000_000) / 1_000_000_000)),
                     writeAt + cfg.refreshSeconds * 1_000_000_000)
      ensures outcome != LoggedIn ==> slots == old(slots) && token == None
    {
      token := None;
      if email !in users {
        return InvalidCredential, None;
      }
      var user := users[email];
      if !user.enabled {
        assert users == users[email := user];
        return UserDisabled, None;
      }
      if user.lockedUntil.Some? && user.lockedUntil.value > checkAt {
        assert users == users[email := user];
        return UserLocked, None;
      }
      if !matches {
        users := users[email := IncrementLoginFail(users[email])];
        if user.failCount + 1 >= MAX_LOGIN_FAIL_COUNT {
          users := users[email := LockUser(users[email], writeAt + LOCK_DURATION)];
        }
        return InvalidCredential, None;
      }
      users := users[email := UpdateLastLogin(users[email], writeAt)];
      var minted := MintRefresh(cfg, user.id, user.username, writeAt);
      if !stored {
        return LoginFailed, None;
      }
      slots := slots[user.id := Slot(minted, writeAt + cfg.refreshSeconds * SECOND)];
      return LoggedIn, Some(minted);
    }

    /** A token that does not parse, or is not the one stored for its user, changes nothing. */
    method RefreshToken(token: Token, parseAt: int, mintAt: int, stored: bool) returns (result: Rotation)
      modifies this`slots
      ensures result == TokenExpired <==> !ParsesAsRefresh(token, parseAt)
      ensures result == TokenExpired <==>
              !(token.Signed? && token.claims.kind == Refresh && parseAt < token.claims.expiresAt * 1_000_000_000)
      ensures result == RefreshTokenUsed <==>
              token.Signed? && token.claims.kind == Refresh && parseAt < token.claims.expiresAt * 1_000_000_000 &&
              !(token.claims.userID in old(slots) && parseAt < old(slots)[token.claims.userID].expiresAt &&
                old(slots)[token.claims.userID].token == token)
      ensures result.Rotated? <==> RefreshAccepted(old(slots), token, parseAt) && stored
      ensures result == RefreshFailed <==> RefreshAccepted(old(slots), token, parseAt) && !stored
      ensures !result.Rotated? ==> slots == old(slots)
      ensures result.Rotated? ==>
                slots == StoreFresh(cfg, old(slots), token.claims.userID, token.claims.username, mintAt) &&
                result.token == slots[token.claims.userID].token &&
                slots[token.claims.userID] ==
                Slot(Signed(Claims(token.claims.userID, token.claims.username, Refresh, mintAt / 1_000_000_000,
                                   (mintAt + cfg.refreshSeconds * 1_000_000_000) / 1_000_000_000)),
                     mintAt + cfg.refreshSeconds * 1_000_000_000)
    {
      if !ParsesAsRefresh(token, parseAt) {
        return TokenExpired;
      }
      var id := token.claims.userID;
      if id !in slots || parseAt >= slots[id].expiresAt || slots[id].token != token {
        return RefreshTokenUsed;
      }
      var next := MintRefresh(cfg, id, token.claims.username, mintAt);
      if !stored {
        return RefreshFailed;
      }
      slots := slots[id := Slot(next, mintAt + cfg.refreshSeconds * SECOND)];
      result := Rotated(next);
    }

    /** Afterwards no token of the user is acceptable at any time, unless the delete fails; other users keep theirs. */
    method Logout(userID: int, deleted: bool)
      modifies this`slots
      ensures forall token, now :: RefreshAccepted(slots, token, now) <==>
                RefreshAccepted(old(slots), token, now) && (token.claims.userID != userID || !deleted)
      ensures slots == if deleted then old(slots) - {userID} else old(slots)
    {
      if deleted {
        slots := slots - {userID};
      }
    }
  }
}
