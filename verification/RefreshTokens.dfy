/**
 * Rotating refresh tokens: each login starts a family, each refresh spends one token and issues
 * its successor, and a token presented twice revokes the whole family. A password reset, claimed
 * once, revokes every family of its user.
 *
 * A token is identified with its stored hash; generated hashes and family ids are fresh.
 */
module RefreshTokens {
  import opened Base

  type Hash = string

  datatype Record = Record(user: int, family: int, expiresAt: int, used: bool, revoked: bool) {
    predicate Live() {
      !used && !revoked
    }
  }

  type Table = map<Hash, Record>

  // ----- The repository's updates -----

  function MarkUsed(t: Table, h: Hash): Table {
    if h in t then t[h := t[h].(used := true)] else t
  }

  function RevokeFamily(t: Table, family: int): Table {
    map h | h in t :: if t[h].family == family then t[h].(revoked := true) else t[h]
  }

  function RevokeAllForUser(t: Table, user: int): Table {
    map h | h in t :: if t[h].user == user then t[h].(revoked := true) else t[h]
  }

  const RETENTION := 7 * 24 * 60 * 60

  function DeleteExpired(t: Table, now: int): Table {
    map h | h in t && t[h].expiresAt >= now - RETENTION :: t[h]
  }

  // ----- What a refresh decides -----

  datatype Verdict = Unknown | Revoked | Reused | Expired | NoSuchUser | Inactive | Accept

  /** `users` says of each existing user whether the account is active. */
  function Judge(t: Table, users: map<int, bool>, h: Hash, now: int): Verdict {
    if h !in t then Unknown
    else if t[h].revoked then Revoked
    else if t[h].used then Reused
    else if t[h].expiresAt <= now then Expired
    else if t[h].user !in users then NoSuchUser
    else if !users[t[h].user] then Inactive
    else Accept
  }

  // ----- Password resets -----

  datatype Reset = Reset(user: int, expiresAt: int, used: bool)

  type Resets = map<int, Reset>

  predicate Claimable(resets: Resets, id: int, now: int) {
    id in resets && !resets[id].used && resets[id].expiresAt > now
  }

  /** Claiming a reset, like asking for another, spends every one the user holds. */
  function SpendAll(resets: Resets, user: int): Resets {
    map id | id in resets :: if resets[id].user == user then resets[id].(used := true) else resets[id]
  }

  // ----- The state machine -----

  /** `hashes` and `families` record every value ever generated, including those since deleted. */
  datatype State = State(tokens: Table, users: map<int, bool>, resets: Resets, hashes: set<Hash>, families: set<int>)

  /**
   * Each service call writes to the token table before it answers. `written` and `revoked` are false
   * when that write fails; `issued` is false when signing or storing the new token fails after it.
   */
  datatype Action =
    | Issue(user: int, family: int, hash: Hash, expiresAt: int)
    | Refresh(presented: Hash, now: int, next: Hash, expiresAt: int, written: bool, issued: bool)
    | Logout(presented: Hash, written: bool)
    | StoreReset(id: int, user: int, expiresAt: int)
    | ClaimReset(id: int, now: int, revoked: bool)
    | SetUser(user: int, active: Option<bool>)
    | Purge(now: int)

  const EMPTY := State(map[], map[], map[], {}, {})

  predicate Allowed(s: State, a: Action) {
    match a
    case Issue(_, family, hash, _) => family !in s.families && hash !in s.hashes
    case Refresh(_, _, next, _, _, _) => next !in s.hashes
    case StoreReset(id, _, _) => id !in s.resets
    case _ => true
  }

  function Insert(s: State, h: Hash, r: Record): State {
    s.(tokens := s.tokens[h := r], hashes := s.hashes + {h}, families := s.families + {r.family})
  }

  function Next(s: State, a: Action): State {
    match a
    case Issue(user, family, hash, expiresAt) => Insert(s, hash, Record(user, family, expiresAt, false, false))
    case Refresh(h, now, next, expiresAt, written, issued) =>
      if written then AfterRefresh(s, h, now, next, expiresAt, issued) else s
    case Logout(h, written) =>
      if written && h in s.tokens then s.(tokens := RevokeFamily(s.tokens, s.tokens[h].family)) else s
    case StoreReset(id, user, expiresAt) =>
      s.(resets := SpendAll(s.resets, user)[id := Reset(user, expiresAt, false)])
    case ClaimReset(id, now, revoked) =>
      if Claimable(s.resets, id, now) then AfterClaim(s, s.resets[id].user, revoked) else s
    case SetUser(user, active) =>
      s.(users := if active.Some? then s.users[user := active.value] else s.users - {user})
    case Purge(now) => s.(tokens := DeleteExpired(s.tokens, now))
  }

  /** The claim and the new password are in place before the revocation is tried. */
  function AfterClaim(s: State, user: int, revoked: bool): State {
    var claimed := s.(resets := SpendAll(s.resets, user));
    if revoked then claimed.(tokens := RevokeAllForUser(s.tokens, user)) else claimed
  }

  function AfterRefresh(s: State, h: Hash, now: int, next: Hash, expiresAt: int, issued: bool): State {
    match Judge(s.tokens, s.users, h, now)
    case Reused => s.(tokens := RevokeFamily(s.tokens, s.tokens[h].family))
    case Inactive => s.(tokens := RevokeAllForUser(s.tokens, s.tokens[h].user))
    case Accept =>
      var spent := s.(tokens := MarkUsed(s.tokens, h));
      if issued
      then Insert(spent, next, Record(s.tokens[h].user, s.tokens[h].family, expiresAt, false, false))
      else spent
    case _ => s
  }

  ghost function After(s: State, run: seq<Action>): State
    decreases |run|
  {
    if run == [] then s else After(Next(s, run[0]), run[1..])
  }

  ghost predicate ValidRun(s: State, run: seq<Action>)
    decreases |run|
  {
    run == [] || (Allowed(s, run[0]) && ValidRun(Next(s, run[0]), run[1..]))
  }

  // ----- The service -----

  datatype AuthError = InvalidCredentials | InvalidToken | Unavailable

  datatype Credential = Credential(user: int, active: bool, hasPassword: bool)

  datatype Session = Session(user: int, refreshToken: Hash)

  class AuthService {
    var tokens: Table
    var users: map<int, bool>
    var resets: Resets
    var refreshTtl: int
    ghost var hashes: set<Hash>
    ghost var families: set<int>

    ghost function View(): State
      reads this
    {
      State(tokens, users, resets, hashes, families)
    }

    constructor (refreshTtl: int)
      ensures View() == EMPTY && this.refreshTtl == refreshTtl
    {
      tokens, users, resets, hashes, families := map[], map[], map[], {}, {};
      this.refreshTtl := refreshTtl;
    }

    /** Signing the access token or storing the refresh token can fail; then nothing is stored. */
    method IssueInFamily(user: int, family: int, hash: Hash, now: int, works: bool)
      returns (r: Result<Session, AuthError>)
      requires hash !in hashes
      modifies this`tokens, this`hashes, this`families
      ensures users == old(users) && refreshTtl == old(refreshTtl)
      ensures r == if works then Ok(Session(user, hash)) else Err(Unavailable)
      ensures View() ==
        if works then Insert(old(View()), hash, Record(user, family, now + refreshTtl, false, false)) else old(View())
      ensures tokens ==
        if works then old(tokens)[hash := Record(user, family, now + refreshTtl, false, false)] else old(tokens)
    {
      if !works {
        return Err(Unavailable);
      }
      tokens := tokens[hash := Record(user, family, now + refreshTtl, false, false)];
      hashes, families := hashes + {hash}, families + {family};
      return Ok(Session(user, hash));
    }

    /** An unknown address, an inactive account and a wrong password fail alike. */
    method Login(found: Option<Credential>, matched: bool, family: int, hash: Hash, now: int, works: bool)
      returns (r: Result<Session, AuthError>)
      requires hash !in hashes && family !in families
      modifies this`tokens, this`hashes, this`families
      ensures var ok := found.Some? && found.value.active && found.value.hasPassword && matched;
        && (!ok ==> r == Err(InvalidCredentials))
        && (ok && !works ==> r == Err(Unavailable))
        && (!(ok && works) ==> View() == old(View()))
        && (ok && works ==>
          && r == Ok(Session(found.value.user, hash))
          && View() == Next(old(View()), Issue(found.value.user, family, hash, now + refreshTtl))
          && tokens == old(tokens)[hash := Record(found.value.user, family, now + refreshTtl, false, false)])
    {
      if found.None? || !found.value.active || !found.value.hasPassword || !matched {
        return Err(InvalidCredentials);
      }
      r := IssueInFamily(found.value.user, family, hash, now, works);
    }

    /** `writes` is false when marking the token used, or revoking what it stands for, fails. */
    method Rotate(presented: Hash, now: int, next: Hash, writes: bool, works: bool)
      returns (r: Result<Session, AuthError>)
      requires next !in hashes
      modifies this`tokens, this`hashes, this`families
      ensures View() == Next(old(View()), Refresh(presented, now, next, now + refreshTtl, writes, works))
      ensures r ==
        match Judge(old(tokens), old(users), presented, now)
        case Accept =>
          if writes && works then Ok(Session(old(tokens)[presented].user, next)) else Err(Unavailable)
        case Reused => Err(if writes then InvalidToken else Unavailable)
        case Inactive => Err(if writes then InvalidToken else Unavailable)
        case _ => Err(InvalidToken)
      ensures r.Ok? <==>
        && writes && works && presented in old(tokens)
        && var record := old(tokens)[presented];
          && !record.used && !record.revoked && record.expiresAt > now
          && record.user in old(users) && old(users)[record.user]
      ensures r.Ok? ==>
        var record := old(tokens)[presented];
        && r == Ok(Session(record.user, next))
        && tokens == old(tokens)[presented := record.(used := true)]
            [next := Record(record.user, record.family, now + refreshTtl, false, false)]
    {
      if presented !in tokens {
        return Err(InvalidToken);
      }
      var record := tokens[presented];
      if record.revoked {
        return Err(InvalidToken);
      }
      if record.used {
        if !writes {
          return Err(Unavailable);
        }
        tokens := RevokeFamily(tokens, record.family);
        return Err(InvalidToken);
      }
      if record.expiresAt <= now {
        return Err(InvalidToken);
      }
      if record.user !in users {
        return Err(InvalidToken);
      }
      if !users[record.user] {
        if !writes {
          return Err(Unavailable);
        }
        tokens := RevokeAllForUser(tokens, record.user);
        return Err(InvalidToken);
      }
      if !writes {
        return Err(Unavailable);
      }
      tokens := MarkUsed(tokens, presented);
      r := IssueInFamily(record.user, record.family, next, now, works);
    }

    /** Unknown tokens succeed silently. */
    method EndSession(presented: Hash, writes: bool) returns (r: Result<(), AuthError>)
      modifies this`tokens
      ensures View() == Next(old(View()), Logout(presented, writes))
      ensures if presented in old(tokens) && !writes then r == Err(Unavailable) else r.Ok?
    {
      if presented in tokens {
        if !writes {
          return Err(Unavailable);
        }
        tokens := RevokeFamily(tokens, tokens[presented].family);
      }
      return Ok(());
    }

    /** An older link or code of the user's stops working. */
    method KeepReset(id: int, user: int, expiresAt: int)
      requires id !in resets
      modifies this`resets
      ensures View() == Next(old(View()), StoreReset(id, user, expiresAt))
    {
      resets := SpendAll(resets, user);
      resets := resets[id := Reset(user, expiresAt, false)];
    }

    /**
     * `found` is the reset the lookup came up with; by now it may have been spent or run out.
     * `revokes` is false when the revocation fails, which is after the new password has been set.
     */
    method FinishReset(found: Option<int>, now: int, revokes: bool) returns (r: Result<(), AuthError>)
      modifies this`tokens, this`resets
      ensures View() ==
        if found.Some? then Next(old(View()), ClaimReset(found.value, now, revokes)) else old(View())
      ensures
        if found.None? || !Claimable(old(resets), found.value, now) then r == Err(InvalidToken)
        else if revokes then r.Ok?
        else r == Err(Unavailable)
      ensures r.Ok? <==>
        && revokes && found.Some? && found.value in old(resets)
        && !old(resets)[found.value].used && old(resets)[found.value].expiresAt > now
    {
      if found.None? || !Claimable(resets, found.value, now) {
        return Err(InvalidToken);
      }
      var user := resets[found.value].user;
      resets := SpendAll(resets, user);
      if !revokes {
        return Err(Unavailable);
      }
      tokens := RevokeAllForUser(tokens, user);
      return Ok(());
    }
  }

  // ----- What every reachable state satisfies -----

  ghost predicate Recorded(s: State) {
    forall h :: h in s.tokens ==> h in s.hashes && s.tokens[h].family in s.families
  }

  ghost predicate SameFamily(s: State, g: Hash, h: Hash) {
    g in s.tokens && h in s.tokens && s.tokens[g].family == s.tokens[h].family
  }

  /** Each family has one owner, is revoked as a whole or not at all, and holds at most one live token. */
  ghost predicate FamiliesIntact(s: State) {
    forall g, h :: SameFamily(s, g, h) ==>
      && s.tokens[g].user == s.tokens[h].user
      && (s.tokens[g].revoked <==> s.tokens[h].revoked)
      && (s.tokens[g].Live() && s.tokens[h].Live() ==> g == h)
  }

  ghost predicate Inv(s: State) {
    Recorded(s) && FamiliesIntact(s)
  }

  lemma RevokingFamilyKeepsInv(s: State, family: int)
    requires Inv(s)
    ensures Inv(s.(tokens := RevokeFamily(s.tokens, family)))
  {
    var t := s.(tokens := RevokeFamily(s.tokens, family));
    assert forall g, h :: SameFamily(t, g, h) ==> SameFamily(s, g, h);
  }

  lemma RevokingUserKeepsInv(s: State, user: int)
    requires Inv(s)
    ensures Inv(s.(tokens := RevokeAllForUser(s.tokens, user)))
  {
    var t := s.(tokens := RevokeAllForUser(s.tokens, user));
    assert forall g, h :: SameFamily(t, g, h) ==> SameFamily(s, g, h);
  }

  /** Room for a new token: its family is new, or is its user's, not revoked, and has no live token. */
  ghost predicate Vacant(s: State, user: int, family: int) {
    forall h :: h in s.tokens && s.tokens[h].family == family ==>
      s.tokens[h].user == user && s.tokens[h].used && !s.tokens[h].revoked
  }

  lemma InsertingKeepsInv(s: State, hash: Hash, user: int, family: int, expiresAt: int)
    requires Inv(s) && hash !in s.hashes && Vacant(s, user, family)
    ensures Inv(Insert(s, hash, Record(user, family, expiresAt, false, false)))
  {
    var t := Insert(s, hash, Record(user, family, expiresAt, false, false));
    assert forall g, h :: SameFamily(t, g, h) && g != hash && h != hash ==> SameFamily(s, g, h);
  }

  lemma SpendingKeepsInv(s: State, h: Hash)
    requires Inv(s) && h in s.tokens && s.tokens[h].Live()
    ensures var t := s.(tokens := MarkUsed(s.tokens, h));
      Inv(t) && Vacant(t, s.tokens[h].user, s.tokens[h].family)
  {
    var t := s.(tokens := MarkUsed(s.tokens, h));
    assert forall g, k :: SameFamily(t, g, k) ==> SameFamily(s, g, k);
    forall g | g in t.tokens && t.tokens[g].family == s.tokens[h].family
      ensures t.tokens[g].user == s.tokens[h].user && t.tokens[g].used && !t.tokens[g].revoked
    {
      assert SameFamily(s, g, h);
    }
  }

  lemma RefreshKeepsInv(s: State, h: Hash, now: int, next: Hash, expiresAt: int, issued: bool)
    requires Inv(s) && next !in s.hashes
    ensures Inv(AfterRefresh(s, h, now, next, expiresAt, issued))
  {
    match Judge(s.tokens, s.users, h, now)
    case Reused => RevokingFamilyKeepsInv(s, s.tokens[h].family);
    case Inactive => RevokingUserKeepsInv(s, s.tokens[h].user);
    case Accept =>
      SpendingKeepsInv(s, h);
      if issued {
        InsertingKeepsInv(s.(tokens := MarkUsed(s.tokens, h)), next, s.tokens[h].user, s.tokens[h].family, expiresAt);
      }
    case _ =>
  }

  /** Nothing but the tokens and the generated values matters here. */
  lemma SameTokensKeepInv(s: State, t: State)
    requires Inv(s) && t.tokens == s.tokens && t.hashes == s.hashes && t.families == s.families
    ensures Inv(t)
  {
    assert forall g, h :: SameFamily(t, g, h) ==> SameFamily(s, g, h);
  }

  lemma PurgingKeepsInv(s: State, now: int)
    requires Inv(s)
    ensures Inv(s.(tokens := DeleteExpired(s.tokens, now)))
  {
    var t := s.(tokens := DeleteExpired(s.tokens, now));
    assert forall g, h :: SameFamily(t, g, h) ==> SameFamily(s, g, h);
  }

  lemma StepKeepsInv(s: State, a: Action)
    requires Inv(s) && Allowed(s, a)
    ensures Inv(Next(s, a))
  {
    match a
    case Issue(user, family, hash, expiresAt) => InsertingKeepsInv(s, hash, user, family, expiresAt);
    case Refresh(h, now, next, expiresAt, written, issued) =>
      if written {
        RefreshKeepsInv(s, h, now, next, expiresAt, issued);
      }
    case Logout(h, written) =>
      if written && h in s.tokens {
        RevokingFamilyKeepsInv(s, s.tokens[h].family);
      }
    case ClaimReset(id, now, revoked) =>
      if Claimable(s.resets, id, now) {
        var claimed := AfterClaim(s, s.resets[id].user, false);
        SameTokensKeepInv(s, claimed);
        if revoked {
          RevokingUserKeepsInv(claimed, s.resets[id].user);
        }
      }
    case Purge(now) => PurgingKeepsInv(s, now);
    case _ => SameTokensKeepInv(s, Next(s, a));
  }

  lemma EmptyIsIntact()
    ensures Inv(EMPTY)
  {
  }

  /** In every state any run reaches. */
  lemma {:induction false} ReachableStatesAreIntact(s: State, run: seq<Action>)
    requires Inv(s) && ValidRun(s, run)
    ensures Inv(After(s, run))
    decreases |run|
  {
    if run != [] {
      StepKeepsInv(s, run[0]);
      ReachableStatesAreIntact(Next(s, run[0]), run[1..]);
    }
  }

  /** In particular from an empty table. */
  lemma IntactFromEmpty(run: seq<Action>)
    requires ValidRun(EMPTY, run)
    ensures Inv(After(EMPTY, run))
  {
    EmptyIsIntact();
    ReachableStatesAreIntact(EMPTY, run);
  }

  // ----- Dead families stay dead -----

  ghost predicate Dead(s: State, family: int) {
    forall h :: h in s.tokens && s.tokens[h].family == family ==> !s.tokens[h].Live()
  }

  lemma DeadStep(s: State, a: Action, family: int)
    requires Inv(s) && Allowed(s, a) && family in s.families && Dead(s, family)
    ensures family in Next(s, a).families && Dead(Next(s, a), family)
  {
  }

  lemma {:induction false} DeadFamiliesStayDead(s: State, run: seq<Action>, family: int)
    requires Inv(s) && ValidRun(s, run) && family in s.families && Dead(s, family)
    ensures Dead(After(s, run), family)
    decreases |run|
  {
    if run != [] {
      StepKeepsInv(s, run[0]);
      DeadStep(s, run[0], family);
      DeadFamiliesStayDead(Next(s, run[0]), run[1..], family);
    }
  }

  /** In every run from here the family stays dead. */
  ghost predicate DeadForGood(s: State, family: int) {
    forall run :: ValidRun(s, run) ==> Dead(After(s, run), family)
  }

  lemma DeadForGoodIff(s: State, family: int)
    requires Inv(s) && family in s.families
    ensures DeadForGood(s, family) <==> Dead(s, family)
  {
    if Dead(s, family) {
      forall run | ValidRun(s, run) ensures Dead(After(s, run), family) {
        DeadFamiliesStayDead(s, run, family);
      }
    } else {
      assert ValidRun(s, []) && After(s, []) == s;
    }
  }

  /** Presenting a spent token kills its family for good, unless the revocation fails and something lives in it. */
  lemma ReuseKillsFamily(s: State, a: Action)
    requires Inv(s) && Allowed(s, a) && a.Refresh? && a.presented in s.tokens && s.tokens[a.presented].used
    ensures var family := s.tokens[a.presented].family;
      DeadForGood(Next(s, a), family) <==> a.written || Dead(s, family)
  {
    var h, family := a.presented, s.tokens[a.presented].family;
    StepKeepsInv(s, a);
    assert forall g :: g in s.tokens && s.tokens[g].family == family ==> SameFamily(s, g, h);
    DeadForGoodIff(Next(s, a), family);
  }

  /** Logging out kills the family of the token presented for good, with the same exception. */
  lemma LogoutKillsFamily(s: State, h: Hash, written: bool)
    requires Inv(s) && h in s.tokens
    ensures var family := s.tokens[h].family;
      DeadForGood(Next(s, Logout(h, written)), family) <==> written || Dead(s, family)
  {
    StepKeepsInv(s, Logout(h, written));
    DeadForGoodIff(Next(s, Logout(h, written)), s.tokens[h].family);
  }

  // ----- A user without sessions stays out until the next login -----

  ghost predicate SignedOut(s: State, user: int) {
    forall h :: h in s.tokens && s.tokens[h].user == user ==> !s.tokens[h].Live()
  }

  ghost predicate NoLogin(run: seq<Action>, user: int) {
    forall i :: 0 <= i < |run| ==> !(run[i].Issue? && run[i].user == user)
  }

  lemma {:induction false} SignedOutUntilLogin(s: State, run: seq<Action>, user: int)
    requires Inv(s) && ValidRun(s, run) && SignedOut(s, user) && NoLogin(run, user)
    ensures SignedOut(After(s, run), user)
    decreases |run|
  {
    if run != [] {
      StepKeepsInv(s, run[0]);
      assert !(run[0].Issue? && run[0].user == user);
      assert SignedOut(Next(s, run[0]), user);
      assert forall i :: 0 <= i < |run[1..]| ==> run[1..][i] == run[i + 1];
      SignedOutUntilLogin(Next(s, run[0]), run[1..], user);
    }
  }

  /** A known token that is neither used nor revoked and has not run out. */
  ghost predicate Current(s: State, h: Hash, now: int) {
    h in s.tokens && !s.tokens[h].used && !s.tokens[h].revoked && now < s.tokens[h].expiresAt
  }

  /** A step that revokes everything the user has. */
  ghost predicate RevokesAll(s: State, a: Action, user: int) {
    || (a.ClaimReset? && a.revoked && Claimable(s.resets, a.id, a.now) && s.resets[a.id].user == user)
    || (a.Refresh? && a.written && Current(s, a.presented, a.now) && s.tokens[a.presented].user == user
        && user in s.users && !s.users[user])
  }

  /** A password reset, like a refresh by a deactivated user, ends every session the user has. */
  lemma ResetSignsOut(s: State, a: Action, user: int, run: seq<Action>)
    requires Inv(s) && Allowed(s, a) && RevokesAll(s, a, user)
    requires ValidRun(Next(s, a), run) && NoLogin(run, user)
    ensures SignedOut(After(Next(s, a), run), user)
  {
    StepKeepsInv(s, a);
    SignedOutUntilLogin(Next(s, a), run, user);
  }

  // ----- No token is accepted twice -----

  ghost predicate Accepted(s: State, a: Action, h: Hash) {
    && a.Refresh? && a.written && a.presented == h && Current(s, h, a.now)
    && s.tokens[h].user in s.users && s.users[s.tokens[h].user]
  }

  ghost predicate Spent(s: State, h: Hash) {
    h in s.hashes && (h in s.tokens ==> s.tokens[h].used)
  }

  lemma {:induction false} SpentStaysSpent(s: State, run: seq<Action>, h: Hash)
    requires Inv(s) && ValidRun(s, run) && Spent(s, h)
    ensures Spent(After(s, run), h)
    decreases |run|
  {
    if run != [] {
      StepKeepsInv(s, run[0]);
      assert Spent(Next(s, run[0]), h);
      SpentStaysSpent(Next(s, run[0]), run[1..], h);
    }
  }

  /** Between one acceptance and any later moment of any run, the token is never acceptable again. */
  lemma AcceptedAtMostOnce(s: State, first: Action, between: seq<Action>, second: Action, h: Hash)
    requires Inv(s) && Allowed(s, first) && Accepted(s, first, h)
    requires ValidRun(Next(s, first), between)
    ensures !Accepted(After(Next(s, first), between), second, h)
  {
    StepKeepsInv(s, first);
    assert Spent(Next(s, first), h);
    SpentStaysSpent(Next(s, first), between, h);
  }

  /** A refresh that succeeds leaves its family with exactly one live token: the one it returned. */
  lemma RotationHandsOver(s: State, a: Action)
    requires Inv(s) && Allowed(s, a) && a.Refresh? && Accepted(s, a, a.presented)
    ensures var t, family := Next(s, a), s.tokens[a.presented].family;
      if a.issued
      then forall h :: h in t.tokens && t.tokens[h].family == family ==> (t.tokens[h].Live() <==> h == a.next)
      else Dead(t, family)
  {
    var t, family := Next(s, a), s.tokens[a.presented].family;
    forall h | h in t.tokens && t.tokens[h].family == family && h != a.next ensures !t.tokens[h].Live() {
      assert h in s.tokens && SameFamily(s, h, a.presented);
    }
  }

  // ----- What one step does to one token -----

  /** The step is one that ends sessions, and the token belongs to one of those. */
  ghost predicate Revokes(s: State, a: Action, r: Record) {
    match a
    case Logout(h, written) => written && h in s.tokens && r.family == s.tokens[h].family
    case Refresh(h, now, _, _, written, _) =>
      && written && h in s.tokens
      && if s.tokens[h].used then !s.tokens[h].revoked && r.family == s.tokens[h].family
         else Current(s, h, now) && r.user == s.tokens[h].user && r.user in s.users && !s.users[r.user]
    case ClaimReset(id, now, revoked) =>
      && revoked && id in s.resets && !s.resets[id].used && now < s.resets[id].expiresAt
      && r.user == s.resets[id].user
    case _ => false
  }

  /**
   * A stored token goes only to a purge, a week after it ran out; it is spent only by its own
   * acceptance and revoked only with its session; its owner, family and expiry never change.
   */
  lemma TokenFate(s: State, a: Action, h: Hash)
    requires Inv(s) && Allowed(s, a) && h in s.tokens
    ensures var r, t := s.tokens[h], Next(s, a).tokens;
      && (h in t <==> !(a.Purge? && r.expiresAt < a.now - 7 * 24 * 60 * 60))
      && (h in t ==> t[h] == r.(used := r.used || Accepted(s, a, h), revoked := r.revoked || Revokes(s, a, r)))
  {
  }

  /** A token appears only by a login or a refresh that is accepted, and what it says is theirs. */
  lemma TokenOrigin(s: State, a: Action, h: Hash)
    requires Inv(s) && Allowed(s, a) && h !in s.tokens
    ensures var t := Next(s, a).tokens;
      h in t <==>
        || (a.Issue? && a.hash == h && t[h] == Record(a.user, a.family, a.expiresAt, false, false))
        || (a.Refresh? && a.next == h && a.issued && Accepted(s, a, a.presented)
            && t[h] == Record(s.tokens[a.presented].user, s.tokens[a.presented].family, a.expiresAt, false, false))
  {
  }

  /** A reset is spent only when its user's newer one is stored or one of the user's is claimed. */
  lemma ResetFate(s: State, a: Action, id: int)
    requires Allowed(s, a) && id in s.resets
    ensures id in Next(s, a).resets
    ensures Next(s, a).resets[id] == s.resets[id].(used :=
      || s.resets[id].used
      || (a.StoreReset? && a.user == s.resets[id].user)
      || (a.ClaimReset? && a.id in s.resets && !s.resets[a.id].used && a.now < s.resets[a.id].expiresAt
          && s.resets[a.id].user == s.resets[id].user))
  {
  }

  /** A reset appears only by being stored, unspent and with the terms it is stored with. */
  lemma ResetOrigin(s: State, a: Action, id: int)
    requires Allowed(s, a) && id !in s.resets
    ensures id in Next(s, a).resets <==> a.StoreReset? && a.id == id
    ensures id in Next(s, a).resets ==> Next(s, a).resets[id] == Reset(a.user, a.expiresAt, false)
  {
  }

  // ----- Nothing is accepted that has run out -----

  /** The token was generated before, and as long as it is stored it keeps its owner, family and expiry. */
  ghost predicate KeepsTerms(s: State, h: Hash, r: Record) {
    && h in s.hashes
    && (h in s.tokens ==> s.tokens[h] == r.(used := s.tokens[h].used, revoked := s.tokens[h].revoked))
  }

  lemma {:induction false} TermsAreKept(s: State, run: seq<Action>, h: Hash, r: Record)
    requires Inv(s) && ValidRun(s, run) && KeepsTerms(s, h, r)
    ensures KeepsTerms(After(s, run), h, r)
    decreases |run|
  {
    if run != [] {
      StepKeepsInv(s, run[0]);
      if h in s.tokens { TokenFate(s, run[0], h); } else { TokenOrigin(s, run[0], h); }
      assert KeepsTerms(Next(s, run[0]), h, r);
      TermsAreKept(Next(s, run[0]), run[1..], h, r);
    }
  }

  /**
   * At no later moment of any run is a token exchanged once the expiry it was given has come, or
   * while its owner is not an active user then: no new token appears, and it is not spent.
   */
  lemma NothingStaleIsExchanged(s: State, run: seq<Action>, a: Action, h: Hash)
    requires Inv(s) && ValidRun(s, run) && h in s.tokens && a.Refresh? && a.presented == h
    requires Allowed(After(s, run), a)
    requires var user := s.tokens[h].user;
      a.now >= s.tokens[h].expiresAt || user !in After(s, run).users || !After(s, run).users[user]
    ensures Next(After(s, run), a).tokens.Keys == After(s, run).tokens.Keys
    ensures h in After(s, run).tokens ==> (Next(After(s, run), a).tokens[h].used <==> After(s, run).tokens[h].used)
  {
    ReachableStatesAreIntact(s, run);
    TermsAreKept(s, run, h, s.tokens[h]);
    var u := After(s, run);
    assert !Accepted(u, a, h);
    forall g ensures g in Next(u, a).tokens <==> g in u.tokens {
      if g in u.tokens { TokenFate(u, a, g); } else { TokenOrigin(u, a, g); }
    }
    if h in u.tokens { TokenFate(u, a, h); }
  }

  // ----- Which tokens can ever be accepted again -----

  ghost predicate Retired(s: State, h: Hash) {
    h in s.hashes && (h in s.tokens ==> s.tokens[h].revoked)
  }

  lemma {:induction false} RetiredStaysRetired(s: State, run: seq<Action>, h: Hash)
    requires Inv(s) && ValidRun(s, run) && Retired(s, h)
    ensures Retired(After(s, run), h)
    decreases |run|
  {
    if run != [] {
      StepKeepsInv(s, run[0]);
      assert Retired(Next(s, run[0]), h);
      RetiredStaysRetired(Next(s, run[0]), run[1..], h);
    }
  }

  ghost predicate EverAccepted(s: State, h: Hash) {
    exists run, a :: AcceptedAfter(s, run, a, h)
  }

  ghost predicate AcceptedAfter(s: State, run: seq<Action>, a: Action, h: Hash) {
    ValidRun(s, run) && Accepted(After(s, run), a, h)
  }

  /** A stored token can still be accepted, in some run from here, exactly if it is neither used nor revoked. */
  lemma EverAcceptedIffLive(s: State, h: Hash)
    requires Inv(s) && h in s.tokens
    ensures EverAccepted(s, h) <==> s.tokens[h].Live()
  {
    var record := s.tokens[h];
    if record.Live() {
      var activate := SetUser(record.user, Some(true));
      var a := Refresh(h, record.expiresAt - 1, "", record.expiresAt, true, true);
      assert [activate][1..] == [];
      assert ValidRun(Next(s, activate), []);
      assert AcceptedAfter(s, [activate], a, h);
    } else {
      forall run, a ensures !AcceptedAfter(s, run, a, h) {
        if ValidRun(s, run) {
          if record.used {
            SpentStaysSpent(s, run, h);
          } else {
            RetiredStaysRetired(s, run, h);
          }
        }
      }
    }
  }

  // ----- Resets over runs -----

  ghost predicate Claims(s: State, a: Action, id: int) {
    a.ClaimReset? && a.id == id && Claimable(s.resets, id, a.now)
  }

  lemma {:induction false} SpentResetStaysSpent(s: State, run: seq<Action>, id: int)
    requires ValidRun(s, run) && id in s.resets && s.resets[id].used
    ensures id in After(s, run).resets && After(s, run).resets[id].used
    decreases |run|
  {
    if run != [] {
      assert id in Next(s, run[0]).resets && Next(s, run[0]).resets[id].used;
      SpentResetStaysSpent(Next(s, run[0]), run[1..], id);
    }
  }

  /** Once a reset is claimed, no reset its user held then is ever claimed, itself included. */
  lemma ClaimedAtMostOnce(s: State, first: Action, id: int, between: seq<Action>, second: Action, other: int)
    requires Claims(s, first, id) && ValidRun(Next(s, first), between)
    requires other in s.resets && s.resets[other].user == s.resets[id].user
    ensures !Claims(After(Next(s, first), between), second, other)
  {
    SpentResetStaysSpent(Next(s, first), between, other);
  }

  predicate Outstanding(s: State, id: int) {
    id in s.resets && !s.resets[id].used
  }

  /** A user never holds two resets that could both be claimed. */
  ghost predicate OneReset(s: State) {
    forall i, j :: Outstanding(s, i) && Outstanding(s, j) && s.resets[i].user == s.resets[j].user ==> i == j
  }

  lemma OneResetStep(s: State, a: Action)
    requires OneReset(s) && Allowed(s, a)
    ensures OneReset(Next(s, a))
  {
  }

  lemma {:induction false} OneResetAtATime(s: State, run: seq<Action>)
    requires OneReset(s) && ValidRun(s, run)
    ensures OneReset(After(s, run))
    decreases |run|
  {
    if run != [] {
      OneResetStep(s, run[0]);
      OneResetAtATime(Next(s, run[0]), run[1..]);
    }
  }

  /**
   * Of the tokens stored when a reset is claimed, its user's can be accepted in some later run,
   * later logins included, exactly if they were live and the revocation failed; everybody else's
   * exactly if they could be before.
   */
  lemma ResetRetiresTokensIff(s: State, a: Action, id: int, h: Hash)
    requires Inv(s) && Claims(s, a, id) && h in s.tokens
    ensures EverAccepted(Next(s, a), h) <==>
      s.tokens[h].Live() && (s.tokens[h].user == s.resets[id].user ==> !a.revoked)
    ensures s.tokens[h].user != s.resets[id].user ==> (EverAccepted(Next(s, a), h) <==> EverAccepted(s, h))
  {
    StepKeepsInv(s, a);
    EverAcceptedIffLive(s, h);
    EverAcceptedIffLive(Next(s, a), h);
  }

  /**
   * A reset whose revocation failed cannot be repeated: in no later state is anything the user held
   * claimable. Meanwhile refresh says of every token what it said before, and every token that was
   * live can still be accepted.
   */
  lemma FailedResetIsFinal(s: State, a: Action, id: int, run: seq<Action>)
    requires Inv(s) && Claims(s, a, id) && !a.revoked && ValidRun(Next(s, a), run)
    ensures forall other, now :: other in s.resets && s.resets[other].user == s.resets[id].user ==>
      !Claimable(After(Next(s, a), run).resets, other, now)
    ensures forall h, now :: Judge(Next(s, a).tokens, Next(s, a).users, h, now) == Judge(s.tokens, s.users, h, now)
    ensures forall h :: h in s.tokens ==> (EverAccepted(Next(s, a), h) <==> s.tokens[h].Live())
  {
    forall other, now: int | other in s.resets && s.resets[other].user == s.resets[id].user
      ensures !Claimable(After(Next(s, a), run).resets, other, now)
    {
      SpentResetStaysSpent(Next(s, a), run, other);
    }
    forall h | h in s.tokens ensures EverAccepted(Next(s, a), h) <==> s.tokens[h].Live() {
      ResetRetiresTokensIff(s, a, id, h);
    }
  }
}
