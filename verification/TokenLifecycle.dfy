/** Sessions and passwords: login, refresh-token, logout, reset-password and change-password, and the token
    revocations of admin/update-user and admin/delete-user. The admin and the user variants differ in names only;
    an account here is either. Each use case is one atomic step with one clock reading; JWT and bcrypt checks come
    in as their verdicts. */
module TokenLifecycle {
  import opened Common

  const LIFETIME := 7 * 86_400_000

  datatype Token = Token(owner: int, expiresAt: int, revokedAt: Option<int>)

  datatype Account = Account(hash: string, active: bool, deleted: bool)

  datatype Reason = Change | Forgot

  /** A row of the old-passwords table, in insertion order. */
  datatype OldPassword = OldPassword(owner: int, hash: string, reason: Reason)

  type Tokens = map<string, Token>

  /** The tables, the Redis reset tokens, and three histories the code does not keep: the login each token
      descends from, the tokens refreshed so far, and the hashes ever set. */
  datatype State = State(tokens: Tokens, accounts: map<int, Account>, oldPasswords: seq<OldPassword>,
                         resets: map<string, int>,
                         origin: map<string, string>, refreshed: seq<string>, hashLog: seq<(int, string)>)

  datatype Event =
    | Create(account: int, hash: string, active: bool)
    | SetActive(account: int, active: bool, now: int)
    | DeleteAccount(account: int, now: int)
    | AskReset(resetToken: string, account: int)
    | ResetExpires(resetToken: string)
    | Login(account: int, passwordOk: bool, tokenId: string, now: int)
    | Refresh(tokenId: string, subject: int, hashOk: bool, newId: string, now: int)
    | Logout(tokenId: string, now: int)
    | Reset(resetToken: string, confirmed: bool, hash: string, now: int)
    | ChangePassword(account: int, confirmed: bool, passwordOk: bool, hash: string, current: string, logoutAll: bool,
                     now: int)

  predicate IsValid(t: Token, now: int) {
    !(t.expiresAt < now) && t.revokedAt == None
  }

  predicate ValidIn(tokens: Tokens, id: string, now: int) {
    id in tokens && IsValid(tokens[id], now)
  }

  function ValidOf(tokens: Tokens, owner: int, now: int): set<string> {
    set id | id in tokens && tokens[id].owner == owner && IsValid(tokens[id], now)
  }

  function Revoke(tokens: Tokens, id: string, now: int): Tokens {
    if id in tokens then tokens[id := tokens[id].(revokedAt := Some(now))] else tokens
  }

  /** The loop over all tokens of an account, sparing one. */
  function RevokeAll(tokens: Tokens, owner: int, spared: Option<string>, now: int): Tokens {
    map id | id in tokens ::
      if tokens[id].owner == owner && Some(id) != spared then tokens[id].(revokedAt := Some(now)) else tokens[id]
  }

  /** The update `{ userId, revokedAt: null }`. */
  function RevokeOpen(tokens: Tokens, owner: int, now: int): Tokens {
    map id | id in tokens ::
      if tokens[id].owner == owner && tokens[id].revokedAt == None then tokens[id].(revokedAt := Some(now))
      else tokens[id]
  }

  /** `findById` and `findByEmail`: deleted accounts are not found. */
  predicate Exists(s: State, account: int) {
    account in s.accounts && !s.accounts[account].deleted
  }

  /** New token ids are random UUIDs and new accounts get new keys. A signed refresh token names the account its
      pair was generated for. */
  predicate Possible(s: State, e: Event) {
    match e
    case Create(account, _, _) => account !in s.accounts
    case Login(_, _, tokenId, _) => tokenId !in s.tokens
    case Refresh(tokenId, subject, _, newId, _) =>
      newId !in s.tokens && (tokenId in s.tokens ==> s.tokens[tokenId].owner == subject)
    case _ => true
  }

  /** Whether a use case gets past its checks. */
  predicate Succeeds(s: State, e: Event) {
    match e
    case Create(_, _, _) => true
    case SetActive(account, _, _) => Exists(s, account)
    case DeleteAccount(account, _) => Exists(s, account)
    case AskReset(_, account) => account in s.accounts
    case ResetExpires(_) => true
    case Login(account, passwordOk, _, _) => Exists(s, account) && s.accounts[account].active && passwordOk
    case Refresh(tokenId, subject, hashOk, _, now) =>
      ValidIn(s.tokens, tokenId, now) && hashOk && Exists(s, subject) && s.accounts[subject].active
    case Logout(tokenId, _) => tokenId in s.tokens
    case Reset(resetToken, confirmed, _, _) =>
      confirmed && resetToken in s.resets && Exists(s, s.resets[resetToken]) && s.accounts[s.resets[resetToken]].active
    case ChangePassword(account, confirmed, passwordOk, _, _, _, _) => confirmed && Exists(s, account) && passwordOk
  }

  function WithPassword(s: State, account: int, hash: string, reason: Reason): State
    requires account in s.accounts
  {
    s.(oldPasswords := s.oldPasswords + [OldPassword(account, s.accounts[account].hash, reason)],
       accounts := s.accounts[account := s.accounts[account].(hash := hash)],
       hashLog := s.hashLog + [(account, hash)])
  }

  function After(s: State, e: Event): State {
    if !Succeeds(s, e) then s
    else
      match e
      case Create(account, hash, active) =>
        s.(accounts := s.accounts[account := Account(hash, active, false)], hashLog := s.hashLog + [(account, hash)])
      case SetActive(account, active, now) =>
        s.(accounts := s.accounts[account := s.accounts[account].(active := active)],
           tokens := if s.accounts[account].active && !active then RevokeOpen(s.tokens, account, now) else s.tokens)
      case DeleteAccount(account, now) =>
        s.(accounts := s.accounts[account := s.accounts[account].(active := false, deleted := true)],
           tokens := RevokeOpen(s.tokens, account, now))
      case AskReset(resetToken, account) => s.(resets := s.resets[resetToken := account])
      case ResetExpires(resetToken) => s.(resets := s.resets - {resetToken})
      case Login(account, _, tokenId, now) =>
        s.(tokens := s.tokens[tokenId := Token(account, now + LIFETIME, None)], origin := s.origin[tokenId := tokenId])
      case Refresh(tokenId, subject, _, newId, now) =>
        s.(tokens := Revoke(s.tokens, tokenId, now)[newId := Token(subject, now + LIFETIME, None)],
           origin := s.origin[newId := if tokenId in s.origin then s.origin[tokenId] else tokenId],
           refreshed := s.refreshed + [tokenId])
      case Logout(tokenId, now) => s.(tokens := Revoke(s.tokens, tokenId, now))
      case Reset(resetToken, _, hash, now) =>
        var account := s.resets[resetToken];
        WithPassword(s, account, hash, Forgot)
          .(tokens := RevokeAll(s.tokens, account, None, now), resets := s.resets - {resetToken})
      case ChangePassword(account, _, _, hash, current, logoutAll, now) =>
        WithPassword(s, account, hash, Change)
          .(tokens := if logoutAll then RevokeAll(s.tokens, account, Some(current), now) else s.tokens)
  }

  const INITIAL := State(map[], map[], [], map[], map[], [], [])

  // ----- One step -----

  /** Once invalid, always invalid: neither a later moment nor any step makes an existing token valid again. */
  lemma InvalidStaysInvalid(s: State, e: Event, id: string, t: int, later: int)
    requires Possible(s, e) && id in s.tokens && !ValidIn(s.tokens, id, t) && t <= later
    ensures id in After(s, e).tokens && !ValidIn(After(s, e).tokens, id, later)
    ensures s.tokens[id].revokedAt.Some? ==> After(s, e).tokens[id].revokedAt.Some?
    ensures After(s, e).tokens[id].(revokedAt := None) == s.tokens[id].(revokedAt := None)
  {}

  /** Refreshing exchanges one valid token for another: the account keeps as many, the old one is dead, and no
      other account notices. */
  lemma RefreshKeepsTheNumber(s: State, e: Event, owner: int)
    requires e.Refresh? && Possible(s, e) && Succeeds(s, e)
    ensures var s' := After(s, e);
            |ValidOf(s'.tokens, owner, e.now)| == |ValidOf(s.tokens, owner, e.now)|
            && !ValidIn(s'.tokens, e.tokenId, e.now) && ValidIn(s'.tokens, e.newId, e.now)
            && (owner != s.tokens[e.tokenId].owner ==>
                  ValidOf(s'.tokens, owner, e.now) == ValidOf(s.tokens, owner, e.now))
  {
    var s' := After(s, e);
    if owner == s.tokens[e.tokenId].owner {
      assert ValidOf(s'.tokens, owner, e.now) == ValidOf(s.tokens, owner, e.now) - {e.tokenId} + {e.newId};
    } else {
      assert ValidOf(s'.tokens, owner, e.now) == ValidOf(s.tokens, owner, e.now);
    }
  }

  /** A reset ends every session of the account and of no other; changing the password with logoutAll spares
      at most the session it was made from; without it no session ends. */
  lemma PasswordStepSessions(s: State, e: Event, owner: int, t: int)
    requires (e.Reset? || e.ChangePassword?) && Succeeds(s, e)
    ensures var account := if e.Reset? then s.resets[e.resetToken] else e.account;
            var was, now := ValidOf(s.tokens, owner, t), ValidOf(After(s, e).tokens, owner, t);
            now == if owner != account then was
                   else if e.Reset? then {}
                   else if e.logoutAll then was * {e.current}
                   else was
  {}

  // ----- Whole runs -----

  predicate IsRun(es: seq<Event>)
    decreases |es|, 1
  {
    es == []
    || (var n := |es| - 1; IsRun(es[..n]) && Possible(RunState(es[..n]), es[n]))
  }

  function RunState(es: seq<Event>): State
    requires IsRun(es)
    decreases |es|, 2
  {
    if es == [] then INITIAL else After(RunState(es[..|es| - 1]), es[|es| - 1])
  }

  predicate SameLineage(s: State, i: string, j: string) {
    i in s.tokens && j in s.tokens && i in s.origin && j in s.origin && s.origin[i] == s.origin[j]
  }

  /** Every token descends from a login. */
  ghost predicate OriginsKnown(s: State) {
    s.origin.Keys == s.tokens.Keys && forall i :: i in s.tokens ==> s.origin[i] in s.tokens
  }

  /** Tokens of one lineage have one owner, and at most one of them is not revoked. */
  ghost predicate LineagesSingle(s: State) {
    forall i, j :: SameLineage(s, i, j) ==>
      s.tokens[i].owner == s.tokens[j].owner
      && (s.tokens[i].revokedAt == None && s.tokens[j].revokedAt == None ==> i == j)
  }

  predicate IsRevoked(s: State, id: string) {
    id in s.tokens && s.tokens[id].revokedAt.Some?
  }

  /** Every refreshed token is revoked, and was refreshed once. */
  ghost predicate RefreshedOnce(s: State) {
    (forall k :: 0 <= k < |s.refreshed| ==> IsRevoked(s, s.refreshed[k])) && Distinct(s.refreshed)
  }

  ghost predicate LineagesLinear(s: State) {
    OriginsKnown(s) && LineagesSingle(s) && RefreshedOnce(s)
  }

  lemma KeysKept(s: State, e: Event)
    requires s.origin.Keys == s.tokens.Keys && Possible(s, e)
    ensures After(s, e).origin.Keys == After(s, e).tokens.Keys
  {}

  lemma OriginsKnownKept(s: State, e: Event)
    requires OriginsKnown(s) && Possible(s, e)
    ensures OriginsKnown(After(s, e))
  {
    hide After, Possible, Succeeds;
    var s' := After(s, e);
    KeysKept(s, e);
    forall i | i in s'.tokens ensures s'.origin[i] in s'.tokens {
      if i in s.tokens {
        OldTokenKept(s, e, i);
        OldTokenKept(s, e, s.origin[i]);
      } else {
        NewTokenOnly(s, e, i);
        if e.Refresh? {
          RefreshLinks(s, e);
          OldTokenKept(s, e, s.origin[e.tokenId]);
        }
      }
    }
  }

  lemma RevokedKept(s: State, e: Event, id: string)
    requires IsRevoked(s, id) && Possible(s, e)
    ensures IsRevoked(After(s, e), id)
  {}

  lemma RefreshedOnceKept(s: State, e: Event)
    requires RefreshedOnce(s) && Possible(s, e)
    ensures RefreshedOnce(After(s, e))
  {
    var s' := After(s, e);
    forall k | 0 <= k < |s.refreshed| ensures IsRevoked(s', s.refreshed[k]) {
      RevokedKept(s, e, s.refreshed[k]);
    }
    if e.Refresh? && Succeeds(s, e) {
      assert !IsRevoked(s, e.tokenId) && IsRevoked(s', e.tokenId);
    }
  }

  /** What a step does to one existing token and its lineage. */
  lemma OldTokenKept(s: State, e: Event, i: string)
    requires s.origin.Keys == s.tokens.Keys && Possible(s, e) && i in s.tokens
    ensures var s' := After(s, e);
            i in s'.tokens && i in s'.origin && s'.origin[i] == s.origin[i]
            && s'.tokens[i].owner == s.tokens[i].owner
            && (s'.tokens[i].revokedAt == None ==> s.tokens[i].revokedAt == None)
  {
    match e
    case Login(_, _, _, _) =>
    case Refresh(_, _, _, _, _) =>
    case _ =>
  }

  /** A refreshed token hands its lineage and owner on, and is revoked. */
  lemma RefreshLinks(s: State, e: Event)
    requires s.origin.Keys == s.tokens.Keys && Possible(s, e) && e.Refresh? && Succeeds(s, e)
    ensures var s' := After(s, e);
            e.tokenId in s.tokens && e.newId !in s.tokens && e.newId in s'.tokens && e.newId in s'.origin
            && s'.origin[e.newId] == s.origin[e.tokenId] && s'.tokens[e.newId].owner == s.tokens[e.tokenId].owner
            && IsRevoked(s', e.tokenId)
  {}

  lemma NewTokenOnly(s: State, e: Event, i: string)
    requires s.origin.Keys == s.tokens.Keys && Possible(s, e) && i in After(s, e).tokens && i !in s.tokens
    ensures Succeeds(s, e)
    ensures (e.Refresh? && i == e.newId)
            || (e.Login? && i == e.tokenId && i in After(s, e).origin && After(s, e).origin[i] == i)
  {}

  lemma OldPairKept(s: State, e: Event, i: string, j: string)
    requires s.origin.Keys == s.tokens.Keys && LineagesSingle(s) && Possible(s, e)
    requires SameLineage(After(s, e), i, j) && i in s.tokens && j in s.tokens
    ensures var s' := After(s, e);
            s'.tokens[i].owner == s'.tokens[j].owner
            && (s'.tokens[i].revokedAt == None && s'.tokens[j].revokedAt == None ==> i == j)
  {
    hide After, Succeeds, Possible;
    OldTokenKept(s, e, i);
    OldTokenKept(s, e, j);
    assert SameLineage(s, i, j);
  }

  /** A new token shares a lineage with an old one only as its refresh, and then the old ones are revoked. */
  lemma NewPairKept(s: State, e: Event, i: string, j: string)
    requires OriginsKnown(s) && LineagesSingle(s) && Possible(s, e)
    requires SameLineage(After(s, e), i, j) && i in s.tokens && j !in s.tokens
    ensures var s' := After(s, e); s'.tokens[i].owner == s'.tokens[j].owner && s'.tokens[i].revokedAt.Some?
  {
    hide After, Succeeds, Possible;
    OldTokenKept(s, e, i);
    NewTokenOnly(s, e, j);
    if e.Refresh? {
      RefreshLinks(s, e);
      assert SameLineage(s, i, e.tokenId);
      if i != e.tokenId && After(s, e).tokens[i].revokedAt == None {
        StillOpen(s, e);
      }
    }
  }

  /** Only a token that is not revoked can be refreshed. */
  lemma StillOpen(s: State, e: Event)
    requires e.Refresh? && Succeeds(s, e)
    ensures e.tokenId in s.tokens && s.tokens[e.tokenId].revokedAt == None
  {}

  lemma LineagesLinearKept(s: State, e: Event)
    requires LineagesLinear(s) && Possible(s, e)
    ensures LineagesLinear(After(s, e))
  {
    hide After, Possible, Succeeds;
    var s' := After(s, e);
    OriginsKnownKept(s, e);
    RefreshedOnceKept(s, e);
    forall i, j | SameLineage(s', i, j)
      ensures s'.tokens[i].owner == s'.tokens[j].owner
      ensures s'.tokens[i].revokedAt == None && s'.tokens[j].revokedAt == None ==> i == j
    {
      if i in s.tokens && j in s.tokens {
        OldPairKept(s, e, i, j);
      } else if i in s.tokens {
        NewPairKept(s, e, i, j);
      } else if j in s.tokens {
        NewPairKept(s, e, j, i);
      } else {
        NewTokenOnly(s, e, i);
        NewTokenOnly(s, e, j);
      }
    }
  }

  /** In every run each login's chain of refreshes has at most one valid token at any time, and no refresh
      token is ever accepted twice. */
  lemma {:induction false} LineagesStayLinear(es: seq<Event>)
    requires IsRun(es)
    ensures LineagesLinear(RunState(es))
    ensures var s := RunState(es);
            forall i, j, t :: SameLineage(s, i, j) && ValidIn(s.tokens, i, t) && ValidIn(s.tokens, j, t) ==> i == j
    decreases |es|
  {
    if es != [] {
      LineagesStayLinear(es[..|es| - 1]);
      LineagesLinearKept(RunState(es[..|es| - 1]), es[|es| - 1]);
    }
  }

  /** A token that was invalid once is invalid at every later time of every longer run. */
  lemma {:induction false} DeadTokensStayDead(es: seq<Event>, n: nat, id: string, t: int, later: int)
    requires IsRun(es) && n <= |es| && IsRun(es[..n]) && t <= later
    requires var s := RunState(es[..n]); id in s.tokens && !ValidIn(s.tokens, id, t)
    ensures id in RunState(es).tokens && !ValidIn(RunState(es).tokens, id, later)
    decreases |es|
  {
    if n == |es| {
      assert es[..n] == es;
    } else {
      var m := |es| - 1;
      assert es[..m][..n] == es[..n];
      DeadTokensStayDead(es[..m], n, id, t, later);
      InvalidStaysInvalid(RunState(es[..m]), es[m], id, later, later);
    }
  }

  /** The run up to and including event n. */
  lemma {:induction false} PrefixAfter(es: seq<Event>, n: nat)
    requires IsRun(es) && n < |es|
    ensures IsRun(es[..n]) && Possible(RunState(es[..n]), es[n])
    ensures IsRun(es[..n + 1]) && RunState(es[..n + 1]) == After(RunState(es[..n]), es[n])
    decreases |es|
  {
    hide After, Possible;
    var m := |es| - 1;
    if n == m {
      assert es[..n + 1] == es;
    } else {
      PrefixAfter(es[..m], n);
      assert es[..m][..n] == es[..n] && es[..m][..n + 1] == es[..n + 1] && es[..m][n] == es[n];
    }
  }

  /** A token that event n of a run revokes is invalid at the end of the run, at every time. */
  lemma RevokedForGood(es: seq<Event>, n: nat, id: string, t: int)
    requires IsRun(es) && n < |es| && IsRun(es[..n]) && IsRevoked(After(RunState(es[..n]), es[n]), id)
    ensures id in RunState(es).tokens && !ValidIn(RunState(es).tokens, id, t)
  {
    hide After, Possible;
    PrefixAfter(es, n);
    DeadTokensStayDead(es, n + 1, id, t, t);
  }

  /** After a reset no earlier token of that account is valid, in any later state, at any time. */
  lemma ResetEndsSessionsForGood(es: seq<Event>, n: nat, id: string, t: int)
    requires IsRun(es) && n < |es| && IsRun(es[..n]) && es[n].Reset? && Succeeds(RunState(es[..n]), es[n])
    requires var s := RunState(es[..n]); id in s.tokens && s.tokens[id].owner == s.resets[es[n].resetToken]
    ensures id in RunState(es).tokens && !ValidIn(RunState(es).tokens, id, t)
  {
    RevokedForGood(es, n, id, t);
  }

  /** From a successful reset on, the same reset token is refused in every later state, until another request for a
      reset happens to produce the same string. */
  lemma {:induction false} ResetTokenIsConsumed(es: seq<Event>, n: nat)
    requires IsRun(es) && n < |es| && IsRun(es[..n]) && es[n].Reset? && Succeeds(RunState(es[..n]), es[n])
    requires forall i :: n < i < |es| && es[i].AskReset? ==> es[i].resetToken != es[n].resetToken
    ensures es[n].resetToken !in RunState(es).resets
    ensures forall hash, now :: !Succeeds(RunState(es), Reset(es[n].resetToken, true, hash, now))
    decreases |es|
  {
    var m := |es| - 1;
    if n < m {
      assert es[..m][..n] == es[..n];
      assert forall i :: 0 <= i < m ==> es[..m][i] == es[i];
      ResetTokenIsConsumed(es[..m], n);
      OnlyAskingAdds(RunState(es[..m]), es[m], es[n].resetToken);
    }
  }

  lemma OnlyAskingAdds(s: State, e: Event, resetToken: string)
    requires resetToken !in s.resets && (e.AskReset? ==> e.resetToken != resetToken)
    ensures resetToken !in After(s, e).resets
  {}

  /** After a change of password with logoutAll, the only earlier token of that account that can be valid in any
      later state, at any time, is the one the change was made with. */
  lemma ChangeEndsOtherSessionsForGood(es: seq<Event>, n: nat, id: string, t: int)
    requires IsRun(es) && n < |es| && IsRun(es[..n])
    requires es[n].ChangePassword? && es[n].logoutAll && Succeeds(RunState(es[..n]), es[n])
    requires var s := RunState(es[..n]); id in s.tokens && s.tokens[id].owner == es[n].account
    requires ValidIn(RunState(es).tokens, id, t)
    ensures id == es[n].current
  {
    if id != es[n].current {
      RevokedForGood(es, n, id, t);
    }
  }

  /** An account that is not active, a deleted one included, has no open token. */
  ghost predicate InactiveLoggedOut(s: State) {
    forall id :: id in s.tokens && s.tokens[id].owner in s.accounts && !s.accounts[s.tokens[id].owner].active ==>
      s.tokens[id].revokedAt.Some?
  }

  /** Every token belongs to an account. */
  ghost predicate OwnersKnown(s: State) {
    forall id :: id in s.tokens ==> s.tokens[id].owner in s.accounts
  }

  lemma OwnersKnownKept(s: State, e: Event)
    requires OwnersKnown(s) && Possible(s, e)
    ensures OwnersKnown(After(s, e))
  {}

  lemma InactiveLoggedOutKept(s: State, e: Event)
    requires OwnersKnown(s) && InactiveLoggedOut(s) && Possible(s, e)
    ensures InactiveLoggedOut(After(s, e))
  {}

  /** In every run an account that was deactivated or deleted has no valid token until it is activated again. */
  lemma {:induction false} InactiveStayLoggedOut(es: seq<Event>)
    requires IsRun(es)
    ensures OwnersKnown(RunState(es)) && InactiveLoggedOut(RunState(es))
    ensures var s := RunState(es);
            forall a, t :: a in s.accounts && !s.accounts[a].active ==> ValidOf(s.tokens, a, t) == {}
    decreases |es|
  {
    hide After, Possible;
    if es != [] {
      var n := |es| - 1;
      InactiveStayLoggedOut(es[..n]);
      OwnersKnownKept(RunState(es[..n]), es[n]);
      InactiveLoggedOutKept(RunState(es[..n]), es[n]);
    }
  }

  // ----- What starts and ends a session, and changes a password -----

  predicate InUse(s: State, account: int) {
    account in s.accounts && s.accounts[account].active && !s.accounts[account].deleted
  }

  /** A login with the right password to an account in use, or a refresh of a token that is neither revoked nor
      expired, with the right secret, for an account in use. */
  predicate Starts(s: State, e: Event, id: string) {
    match e
    case Login(account, passwordOk, tokenId, _) => tokenId == id && passwordOk && InUse(s, account)
    case Refresh(tokenId, subject, hashOk, newId, now) =>
      newId == id && hashOk && InUse(s, subject)
      && tokenId in s.tokens && s.tokens[tokenId].revokedAt == None && now <= s.tokens[tokenId].expiresAt
    case _ => false
  }

  /** A logout or refresh of this very token; a confirmed reset of its account's password with a live reset token, or
      a confirmed change of it, with the right password and from another session, that asks for it; and the
      deactivation or deletion of the account. */
  predicate Ends(s: State, e: Event, id: string)
    requires id in s.tokens
  {
    var owner := s.tokens[id].owner;
    match e
    case Logout(tokenId, _) => tokenId == id
    case Refresh(tokenId, _, _, newId, _) => tokenId == id && Starts(s, e, newId)
    case Reset(resetToken, _, _, _) => ChangesPassword(s, e, owner)
    case ChangePassword(_, _, _, _, current, logoutAll, _) => ChangesPassword(s, e, owner) && logoutAll && current != id
    case SetActive(account, active, _) => account == owner && InUse(s, account) && !active
    case DeleteAccount(account, _) => account == owner && account in s.accounts && !s.accounts[account].deleted
    case _ => false
  }

  predicate ChangesPassword(s: State, e: Event, account: int) {
    account in s.accounts && !s.accounts[account].deleted
    && match e
       case ChangePassword(a, confirmed, passwordOk, _, _, _, _) => a == account && confirmed && passwordOk
       case Reset(resetToken, confirmed, _, _) =>
         confirmed && resetToken in s.resets && s.resets[resetToken] == account && s.accounts[account].active
       case _ => false
  }

  /** Exactly these steps make a token, for seven days, and exactly these revoke one. */
  lemma TokenStep(s: State, e: Event, id: string)
    requires Possible(s, e)
    ensures var s' := After(s, e);
            (id in s'.tokens <==> id in s.tokens || Starts(s, e, id))
            && (id !in s.tokens && Starts(s, e, id) ==>
                  s'.tokens[id] == Token(if e.Login? then e.account else e.subject, e.now + 604_800_000, None))
            && (id in s.tokens ==>
                  s'.tokens[id].owner == s.tokens[id].owner && s'.tokens[id].expiresAt == s.tokens[id].expiresAt
                  && (s'.tokens[id].revokedAt == None <==> s.tokens[id].revokedAt == None && !Ends(s, e, id))
                  && (s.tokens[id].revokedAt == None && Ends(s, e, id) ==> s'.tokens[id].revokedAt == Some(e.now)))
  {}

  /** What each use case answers. */
  lemma SuccessIff(s: State, e: Event)
    requires Possible(s, e)
    ensures e.Login? ==> (Succeeds(s, e) <==> e.passwordOk && InUse(s, e.account))
    ensures e.Refresh? ==> (Succeeds(s, e) <==> Starts(s, e, e.newId))
    ensures e.Logout? ==> (Succeeds(s, e) <==> e.tokenId in s.tokens)
    ensures e.Reset? ==> (Succeeds(s, e) <==> e.resetToken in s.resets && ChangesPassword(s, e, s.resets[e.resetToken]))
    ensures e.ChangePassword? ==> (Succeeds(s, e) <==> ChangesPassword(s, e, e.account))
    ensures e.SetActive? ==> (Succeeds(s, e) <==> e.account in s.accounts && !s.accounts[e.account].deleted)
    ensures e.DeleteAccount? ==> (Succeeds(s, e) <==> e.account in s.accounts && !s.accounts[e.account].deleted)
  {}

  /** Event i makes this token. */
  ghost predicate Born(es: seq<Event>, i: int, id: string) {
    0 <= i < |es| && IsRun(es[..i]) && id !in RunState(es[..i]).tokens && Starts(RunState(es[..i]), es[i], id)
  }

  ghost predicate EndedAt(es: seq<Event>, j: int, id: string) {
    0 <= j < |es| && IsRun(es[..j]) && id in RunState(es[..j]).tokens && Ends(RunState(es[..j]), es[j], id)
  }

  /** The whole life of a token: made by event i, expiring seven days later, and not ended by a later event exactly
      as long as it is not revoked. */
  ghost predicate LivedSince(es: seq<Event>, i: int, id: string, t: Token) {
    Born(es, i, id)
    && (es[i].Login? ==> t.owner == es[i].account) && (es[i].Refresh? ==> t.owner == es[i].subject)
    && t.expiresAt == StartTime(es[i]) + 604_800_000
    && (t.revokedAt == None <==> forall j :: i < j < |es| ==> !EndedAt(es, j, id))
  }

  function StartTime(e: Event): int {
    if e.Login? || e.Refresh? then e.now else 0
  }

  lemma {:induction false} TokenLife(es: seq<Event>, id: string)
    requires IsRun(es) && id in RunState(es).tokens
    ensures exists i :: LivedSince(es, i, id, RunState(es).tokens[id])
    decreases |es|
  {
    hide After, Possible, Starts, Ends;
    var m := |es| - 1;
    var before := RunState(es[..m]);
    TokenStep(before, es[m], id);
    forall j | 0 <= j < m ensures EndedAt(es, j, id) <==> EndedAt(es[..m], j, id) {
      assert es[..m][j] == es[j] && es[..m][..j] == es[..j];
    }
    if id in before.tokens {
      TokenLife(es[..m], id);
      var i :| LivedSince(es[..m], i, id, before.tokens[id]);
      assert es[..m][i] == es[i] && es[..m][..i] == es[..i];
      assert EndedAt(es, m, id) <==> Ends(before, es[m], id);
      assert LivedSince(es, i, id, RunState(es).tokens[id]);
    } else {
      StartsIs(before, es[m], id);
      assert LivedSince(es, m, id, RunState(es).tokens[id]);
    }
  }

  lemma StartsIs(s: State, e: Event, id: string)
    requires Starts(s, e, id)
    ensures e.Login? || e.Refresh?
  {}

  /** In every run, at every time: a token is valid if and only if it was made by a login or refresh that met the
      conditions, at most seven days ago, and no event since ended it. */
  lemma TokenIsValidIff(es: seq<Event>, id: string, t: int)
    requires IsRun(es)
    ensures ValidIn(RunState(es).tokens, id, t) <==>
              exists i :: Born(es, i, id) && t <= StartTime(es[i]) + 604_800_000
                          && forall j :: i < j < |es| ==> !EndedAt(es, j, id)
  {
    hide Ends, Starts;
    var tokens := RunState(es).tokens;
    if id in tokens {
      TokenLife(es, id);
      var i :| LivedSince(es, i, id, tokens[id]);
      forall k | Born(es, k, id) ensures k == i {
        BornOnce(es, i, k, id);
      }
    }
    if i :| Born(es, i, id) {
      BornStays(es, i, id);
    }
  }

  lemma {:induction false} BornStays(es: seq<Event>, i: int, id: string)
    requires IsRun(es) && Born(es, i, id)
    ensures id in RunState(es).tokens
    decreases |es|
  {
    hide After, Possible, Starts, Ends;
    var m := |es| - 1;
    TokenStep(RunState(es[..m]), es[m], id);
    if i < m {
      assert es[..m][i] == es[i] && es[..m][..i] == es[..i];
      BornStays(es[..m], i, id);
    }
  }

  lemma BornOnce(es: seq<Event>, i: int, k: int, id: string)
    requires IsRun(es) && Born(es, i, id) && Born(es, k, id)
    ensures i == k
  {
    hide Starts;
    var first, later := if i < k then i else k, if i < k then k else i;
    if first < later {
      assert es[..later][first] == es[first] && es[..later][..first] == es[..first];
      BornStays(es[..later], first, id);
    }
  }

  /** In every run each lineage begins with a login that had the right password, to an account in use then, which owns
      all tokens of the lineage. */
  lemma {:induction false} LineagesBeginWithLogins(es: seq<Event>, id: string)
    requires IsRun(es) && id in RunState(es).tokens
    ensures var s := RunState(es);
            id in s.origin
            && exists i ::
                 Born(es, i, s.origin[id]) && es[i].Login? && es[i].tokenId == s.origin[id] && es[i].passwordOk
                 && es[i].account == s.tokens[id].owner && InUse(RunState(es[..i]), es[i].account)
    decreases |es|
  {
    hide After, Possible, Ends;
    var m := |es| - 1;
    var before, s := RunState(es[..m]), RunState(es);
    LineagesStayLinear(es[..m]);
    TokenStep(before, es[m], id);
    if id in before.tokens {
      OldTokenKept(before, es[m], id);
      LineagesBeginWithLogins(es[..m], id);
      LoginStays(es, id, before.origin[id], before.tokens[id].owner);
    } else if es[m].Login? {
      OriginOfLogin(before, es[m]);
      assert Born(es, m, s.origin[id]);
    } else {
      var former := es[m].tokenId;
      SuccessIff(before, es[m]);
      RefreshLinks(before, es[m]);
      LineagesBeginWithLogins(es[..m], former);
      LoginStays(es, former, before.origin[former], before.tokens[former].owner);
    }
  }

  lemma OriginOfLogin(s: State, e: Event)
    requires e.Login? && Starts(s, e, e.tokenId)
    ensures e.tokenId in After(s, e).origin && After(s, e).origin[e.tokenId] == e.tokenId
  {}

  lemma LoginStays(es: seq<Event>, id: string, origin: string, owner: int)
    requires es != []
    requires var es0 := es[..|es| - 1];
             exists i :: Born(es0, i, origin) && es0[i].Login? && es0[i].tokenId == origin && es0[i].passwordOk
                         && es0[i].account == owner && InUse(RunState(es0[..i]), owner)
    ensures exists i :: Born(es, i, origin) && es[i].Login? && es[i].tokenId == origin && es[i].passwordOk
                        && es[i].account == owner && InUse(RunState(es[..i]), owner)
  {
    hide Starts;
    var es0 := es[..|es| - 1];
    var i :| Born(es0, i, origin) && es0[i].Login? && es0[i].tokenId == origin && es0[i].passwordOk
             && es0[i].account == owner && InUse(RunState(es0[..i]), owner);
    assert es0[i] == es[i] && es0[..i] == es[..i];
    assert Born(es, i, origin);
  }

  /** In every run a password changes exactly at these events, which keep the old one with its reason. */
  lemma PasswordChangesIff(es: seq<Event>, n: nat, account: int)
    requires IsRun(es) && n < |es| && IsRun(es[..n]) && IsRun(es[..n + 1]) && account in RunState(es[..n]).accounts
    ensures var s, s', e := RunState(es[..n]), RunState(es[..n + 1]), es[n];
            account in s'.accounts
            && if ChangesPassword(s, e, account) then
                 s'.accounts[account] == s.accounts[account].(hash := e.hash)
                 && s'.oldPasswords
                    == s.oldPasswords
                       + [OldPassword(account, s.accounts[account].hash, if e.Reset? then Forgot else Change)]
               else s'.accounts[account].hash == s.accounts[account].hash
                    && (s'.oldPasswords == s.oldPasswords || exists a :: a != account && ChangesPassword(s, e, a))
  {
    PrefixAfter(es, n);
    hide IsRun, RunState;
    PasswordStep(RunState(es[..n]), es[n], account);
  }

  lemma PasswordStep(s: State, e: Event, account: int)
    requires Possible(s, e) && account in s.accounts
    ensures var s' := After(s, e);
            account in s'.accounts
            && if ChangesPassword(s, e, account) then
                 s'.accounts[account] == s.accounts[account].(hash := e.hash)
                 && s'.oldPasswords
                    == s.oldPasswords
                       + [OldPassword(account, s.accounts[account].hash, if e.Reset? then Forgot else Change)]
               else s'.accounts[account].hash == s.accounts[account].hash
                    && (s'.oldPasswords == s.oldPasswords || exists a :: a != account && ChangesPassword(s, e, a))
  {
    if e.Reset? && Succeeds(s, e) {
      assert ChangesPassword(s, e, s.resets[e.resetToken]);
    }
    if e.ChangePassword? && Succeeds(s, e) {
      assert ChangesPassword(s, e, e.account);
    }
  }

  /** An account is active, or deleted, as the last of these events said. */
  lemma StatusStep(s: State, e: Event, account: int)
    requires Possible(s, e)
    ensures var s' := After(s, e);
            (account in s'.accounts <==> account in s.accounts || (e.Create? && e.account == account))
            && (e.Create? && e.account == account ==> s'.accounts[account] == Account(e.hash, e.active, false))
            && (account in s.accounts ==>
                  var a, b := s.accounts[account], s'.accounts[account];
                  b.deleted == (a.deleted || (e.DeleteAccount? && e.account == account))
                  && b.active == if !a.deleted && e.DeleteAccount? && e.account == account then false
                                 else if !a.deleted && e.SetActive? && e.account == account then e.active
                                 else a.active)
  {}

  /** Event i asked for this reset token, and no later event used it, let it expire or asked for it again. */
  ghost predicate AskedAt(es: seq<Event>, i: int, resetToken: string, account: int) {
    0 <= i < |es| && es[i] == AskReset(resetToken, account)
    && forall j :: i < j < |es| && IsRun(es[..j]) ==>
         match es[j]
         case AskReset(r, a) => r == resetToken ==> a !in RunState(es[..j]).accounts
         case ResetExpires(r) => r != resetToken
         case Reset(r, _, _, _) => r == resetToken ==> !ChangesPassword(RunState(es[..j]), es[j], account)
         case _ => true
  }

  lemma {:induction false} ResetTokensWereAsked(es: seq<Event>, resetToken: string)
    requires IsRun(es) && resetToken in RunState(es).resets
    ensures exists i :: AskedAt(es, i, resetToken, RunState(es).resets[resetToken])
    decreases |es|
  {
    hide Possible;
    var m := |es| - 1;
    var e, before, account := es[m], RunState(es[..m]), RunState(es).resets[resetToken];
    if e == AskReset(resetToken, account) && account in before.accounts {
      assert AskedAt(es, m, resetToken, account);
    } else {
      ResetsStep(before, e, resetToken);
      ResetTokensWereAsked(es[..m], resetToken);
      var i :| AskedAt(es[..m], i, resetToken, account);
      assert forall j :: 0 <= j < m ==> es[..m][j] == es[j] && es[..m][..j] == es[..j];
      assert AskedAt(es, i, resetToken, account);
    }
  }

  lemma ResetsStep(s: State, e: Event, resetToken: string)
    requires resetToken in After(s, e).resets
    requires !(e.AskReset? && e.resetToken == resetToken && e.account in s.accounts)
    ensures resetToken in s.resets && After(s, e).resets[resetToken] == s.resets[resetToken]
    ensures e.ResetExpires? ==> e.resetToken != resetToken
    ensures e.Reset? && e.resetToken == resetToken ==> !ChangesPassword(s, e, s.resets[resetToken])
  {}

  // ----- Password history -----

  function OldHashes(rows: seq<OldPassword>, account: int): seq<string> {
    if rows == [] then []
    else
      var r := rows[|rows| - 1];
      OldHashes(rows[..|rows| - 1], account) + if r.owner == account then [r.hash] else []
  }

  function SetHashes(log: seq<(int, string)>, account: int): seq<string> {
    if log == [] then []
    else
      var f := log[|log| - 1];
      SetHashes(log[..|log| - 1], account) + if f.0 == account then [f.1] else []
  }

  predicate HistoryComplete(s: State, account: int) {
    if account in s.accounts then
      OldHashes(s.oldPasswords, account) + [s.accounts[account].hash] == SetHashes(s.hashLog, account)
    else OldHashes(s.oldPasswords, account) == [] == SetHashes(s.hashLog, account)
  }

  lemma HistoriesGrow(rows: seq<OldPassword>, r: OldPassword, log: seq<(int, string)>, f: (int, string), account: int)
    ensures OldHashes(rows + [r], account) == OldHashes(rows, account) + if r.owner == account then [r.hash] else []
    ensures SetHashes(log + [f], account) == SetHashes(log, account) + if f.0 == account then [f.1] else []
  {
    assert (rows + [r])[..|rows|] == rows && (log + [f])[..|log|] == log;
  }

  lemma HistoryKept(s: State, e: Event, account: int)
    requires Possible(s, e) && HistoryComplete(s, account)
    ensures HistoryComplete(After(s, e), account)
  {
    hide OldHashes, SetHashes;
    var s' := After(s, e);
    if s'.hashLog != s.hashLog {
      var f := s'.hashLog[|s.hashLog|];
      var r := if e.Create? then OldPassword(0, "", Change) else s'.oldPasswords[|s.oldPasswords|];
      HistoriesGrow(s.oldPasswords, r, s.hashLog, f, account);
    }
  }

  /** In every run the old-password rows of an account, in order, followed by its current hash, are all the
      hashes it was ever given. */
  lemma {:induction false} HistoriesStayComplete(es: seq<Event>, account: int)
    requires IsRun(es)
    ensures HistoryComplete(RunState(es), account)
    decreases |es|
  {
    if es != [] {
      HistoriesStayComplete(es[..|es| - 1], account);
      HistoryKept(RunState(es[..|es| - 1]), es[|es| - 1], account);
    }
  }

  // ----- The use cases -----

  class TokenService {
    var tokens: Tokens
    var accounts: map<int, Account>
    var oldPasswords: seq<OldPassword>
    var resets: map<string, int>
    ghost var origin: map<string, string>
    ghost var refreshed: seq<string>
    ghost var hashLog: seq<(int, string)>

    ghost function Abs(): State
      reads this
    {
      State(tokens, accounts, oldPasswords, resets, origin, refreshed, hashLog)
    }

    constructor ()
      ensures Abs() == INITIAL
    {
      tokens, accounts, oldPasswords, resets := map[], map[], [], map[];
      origin, refreshed, hashLog := map[], [], [];
    }

    method LoginUseCase(account: int, passwordOk: bool, tokenId: string, now: int) returns (ok: bool)
      requires tokenId !in tokens
      modifies this
      ensures var e := Login(account, passwordOk, tokenId, now);
              ok == Succeeds(old(Abs()), e) && Abs() == After(old(Abs()), e)
    {
      if account !in accounts || accounts[account].deleted || !accounts[account].active || !passwordOk {
        return false;
      }
      var expiresAt := now + LIFETIME;
      tokens := tokens[tokenId := Token(account, expiresAt, None)];
      origin := origin[tokenId := tokenId];
      ok := true;
    }

    method RefreshUseCase(tokenId: string, subject: int, hashOk: bool, newId: string, now: int) returns (ok: bool)
      requires newId !in tokens && (tokenId in tokens ==> tokens[tokenId].owner == subject)
      modifies this
      ensures var e := Refresh(tokenId, subject, hashOk, newId, now);
              ok == Succeeds(old(Abs()), e) && Abs() == After(old(Abs()), e)
    {
      if tokenId !in tokens {
        return false;
      }
      var record := tokens[tokenId];
      if !IsValid(record, now) || !hashOk {
        return false;
      }
      if subject !in accounts || accounts[subject].deleted || !accounts[subject].active {
        return false;
      }
      var expiresAt := now + LIFETIME;
      tokens := tokens[tokenId := record.(revokedAt := Some(now))];
      tokens := tokens[newId := Token(subject, expiresAt, None)];
      origin := origin[newId := if tokenId in origin then origin[tokenId] else tokenId];
      refreshed := refreshed + [tokenId];
      ok := true;
    }

    method LogoutUseCase(tokenId: string, now: int) returns (ok: bool)
      modifies this
      ensures var e := Logout(tokenId, now); ok == Succeeds(old(Abs()), e) && Abs() == After(old(Abs()), e)
    {
      if tokenId !in tokens {
        return false;
      }
      tokens := tokens[tokenId := tokens[tokenId].(revokedAt := Some(now))];
      ok := true;
    }

    /** The loop over `allTokens`, one UPDATE each. */
    method RevokeTokens(allTokens: set<string>, spared: Option<string>, now: int)
      requires allTokens <= tokens.Keys
      modifies this`tokens
      ensures tokens == map id | id in old(tokens) ::
                if id in allTokens && Some(id) != spared then old(tokens)[id].(revokedAt := Some(now))
                else old(tokens)[id]
    {
      var todo := allTokens;
      while todo != {}
        invariant todo <= allTokens && tokens.Keys == old(tokens).Keys
        invariant forall id :: id in tokens ==>
          tokens[id] == if id in allTokens - todo && Some(id) != spared
                        then old(tokens)[id].(revokedAt := Some(now)) else old(tokens)[id]
        decreases todo
      {
        var id :| id in todo;
        if Some(id) != spared {
          tokens := tokens[id := tokens[id].(revokedAt := Some(now))];
        }
        todo := todo - {id};
      }
    }

    method ResetPasswordUseCase(resetToken: string, confirmed: bool, hash: string, now: int) returns (ok: bool)
      modifies this
      ensures var e := Reset(resetToken, confirmed, hash, now);
              ok == Succeeds(old(Abs()), e) && Abs() == After(old(Abs()), e)
    {
      if !confirmed || resetToken !in resets {
        return false;
      }
      var account := resets[resetToken];
      if account !in accounts || accounts[account].deleted || !accounts[account].active {
        return false;
      }
      var allTokens := set id | id in tokens && tokens[id].owner == account;
      oldPasswords := oldPasswords + [OldPassword(account, accounts[account].hash, Forgot)];
      accounts := accounts[account := accounts[account].(hash := hash)];
      hashLog := hashLog + [(account, hash)];
      RevokeTokens(allTokens, None, now);
      assert tokens == RevokeAll(old(tokens), account, None, now);
      resets := resets - {resetToken};
      ok := true;
    }

    method ChangePasswordUseCase(account: int, confirmed: bool, passwordOk: bool, hash: string, current: string,
                                 logoutAll: bool, now: int) returns (ok: bool)
      modifies this
      ensures var e := ChangePassword(account, confirmed, passwordOk, hash, current, logoutAll, now);
              ok == Succeeds(old(Abs()), e) && Abs() == After(old(Abs()), e)
    {
      if !confirmed || account !in accounts || accounts[account].deleted || !passwordOk {
        return false;
      }
      var allTokens := set id | id in tokens && tokens[id].owner == account;
      oldPasswords := oldPasswords + [OldPassword(account, accounts[account].hash, Change)];
      accounts := accounts[account := accounts[account].(hash := hash)];
      hashLog := hashLog + [(account, hash)];
      if logoutAll {
        RevokeTokens(allTokens, Some(current), now);
        assert tokens == RevokeAll(old(tokens), account, Some(current), now);
      }
      ok := true;
    }

    /** One UPDATE of all open tokens of a user. */
    method RevokeOpenTokens(account: int, now: int)
      modifies this`tokens
      ensures tokens == RevokeOpen(old(tokens), account, now)
    {
      tokens := map id | id in tokens ::
        if tokens[id].owner == account && tokens[id].revokedAt == None then tokens[id].(revokedAt := Some(now))
        else tokens[id];
    }

    /** The activation part of the admins' `UpdateUserUseCase.execute`. */
    method UpdateUserUseCase(account: int, active: bool, now: int) returns (ok: bool)
      modifies this
      ensures var e := SetActive(account, active, now); ok == Succeeds(old(Abs()), e) && Abs() == After(old(Abs()), e)
    {
      if account !in accounts || accounts[account].deleted {
        return false;
      }
      var willBeInactive := !active && accounts[account].active;
      accounts := accounts[account := accounts[account].(active := active)];
      if willBeInactive {
        RevokeOpenTokens(account, now);
      }
      ok := true;
    }

    method DeleteUserUseCase(account: int, now: int) returns (ok: bool)
      modifies this
      ensures var e := DeleteAccount(account, now); ok == Succeeds(old(Abs()), e) && Abs() == After(old(Abs()), e)
    {
      if account !in accounts || accounts[account].deleted {
        return false;
      }
      accounts := accounts[account := accounts[account].(active := false, deleted := true)];
      RevokeOpenTokens(account, now);
      ok := true;
    }
  }
}
