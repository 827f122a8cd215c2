/** One-time passwords, registration and change of phone: request-otp-phone, verify-otp, register and the phone
    part of update-profile, over the `otp_requests` table. Every handler is one atomic step with one clock
    reading; random codes, tokens and new row ids come in as parameters. */
module OtpLifecycle {
  import opened Common
  import opened PhoneUtil

  const TOKEN_LIFETIME := 120_000

  datatype Config = Config(expiryMinutes: int, windowMinutes: int, maxRequests: int) {
    function Expiry(): int {
      expiryMinutes * 60_000
    }

    function Window(): int {
      windowMinutes * 60_000
    }
  }

  datatype OtpRequest = OtpRequest(
    phone: string, otp: string, requestCount: int, lastRequestAt: int, expiresAt: int,
    verifiedAt: Option<int>, userId: Option<int>, token: Option<string>, tokenExpiresAt: Option<int>,
    deletedAt: Option<int>)

  type Records = map<int, OtpRequest>

  /** What the handlers have done so far, for stating properties of whole runs. */
  datatype Fact =
    | Requested(id: int, code: string, at: int)
    | Verified(id: int, code: string, token: string, at: int)
    | Registered(id: int, token: string, user: int, at: int)
    | PhoneChanged(id: int, token: string, user: int, at: int)

  /** The tables: OTP records, the users' addresses, deleted users included, and the phones of their profiles;
      and the log of facts. */
  datatype State = State(records: Records, users: map<int, string>, phones: map<int, string>, log: seq<Fact>)

  datatype Outcome =
    | InvalidPhone
    | PhoneAlreadyExists
    | TooManyRequests(minutes: int)
    | OtpCreated(id: int)
    | OtpNotFound
    | OtpExpired
    | InvalidOtp
    | TokenCollision
    | TokenIssued(id: int)
    | TokenInvalid
    | EmailExists
    | UserCreated(user: int)
    | UserNotFound
    | TokenRequired
    | TokenMismatch
    | PhoneKept
    | PhoneSaved(id: int)

  /** `otp.phone = :phone AND otp.deletedAt IS NULL` */
  predicate IsActive(records: Records, phone: string, id: int) {
    id in records && records[id].phone == phone && records[id].deletedAt == None
  }

  /** `findByToken`: an active record whose token has not expired. */
  predicate HoldsToken(records: Records, token: string, now: int, id: int) {
    id in records && records[id].token == Some(token) && records[id].deletedAt == None
    && (records[id].tokenExpiresAt == None || records[id].tokenExpiresAt.value > now)
  }

  /** `findOne({ phone, userId })`: deleted records are found as well. */
  predicate IsOwn(records: Records, phone: string, user: int, id: int) {
    id in records && records[id].phone == phone && records[id].userId == Some(user)
  }

  /** Whether an unverified record may be asked for another code now. */
  predicate MayRequest(cfg: Config, r: OtpRequest, now: int) {
    r.lastRequestAt < now - cfg.Window() || r.requestCount < cfg.maxRequests
  }

  function MinutesRemaining(cfg: Config, r: OtpRequest, now: int): int {
    CeilDiv(r.lastRequestAt + cfg.Window() - now, 60_000)
  }

  function Renewed(cfg: Config, r: OtpRequest, otp: string, now: int): OtpRequest {
    r.(otp := otp,
       requestCount := if r.lastRequestAt < now - cfg.Window() then 1 else r.requestCount + 1,
       lastRequestAt := now, expiresAt := now + cfg.Expiry(), verifiedAt := None)
  }

  function Fresh(cfg: Config, phone: string, otp: string, now: int): OtpRequest {
    OtpRequest(phone, otp, 1, now, now + cfg.Expiry(), None, None, None, None, None)
  }

  function Consumed(r: OtpRequest, user: int, now: int): OtpRequest {
    r.(verifiedAt := Some(now), userId := Some(user), token := None, tokenExpiresAt := None)
  }

  /** One handler call. `found` and `former` are what the handler's lookup queries answered, `id` and `user` the
      keys the database would give to a new row. */
  datatype Event =
    | Request(phone: string, otp: string, found: Option<int>, id: int, now: int)
    | Verify(phone: string, otp: string, token: string, found: Option<int>, now: int)
    | Register(regToken: string, email: string, found: Option<int>, user: int, now: int)
    | ChangePhone(owner: int, phone: string, token: string, found: Option<int>, former: Option<int>, now: int)

  predicate AnswersPhone(records: Records, phone: string, found: Option<int>) {
    var key := NormalizePhone(phone);
    key.Some? ==>
      if found.Some? then IsActive(records, key.value, found.value)
      else forall id :: id in records ==> !IsActive(records, key.value, id)
  }

  predicate AnswersToken(records: Records, token: string, now: int, found: Option<int>) {
    if found.Some? then HoldsToken(records, token, now, found.value)
    else forall id :: id in records ==> !HoldsToken(records, token, now, id)
  }

  /** The record of the phone a user leaves. */
  predicate AnswersOwn(records: Records, phones: map<int, string>, user: int, former: Option<int>) {
    if user !in phones then former == None
    else if former.Some? then IsOwn(records, phones[user], user, former.value)
    else forall id :: id in records ==> !IsOwn(records, phones[user], user, id)
  }

  /** The lookups answered correctly and the new keys are unused. */
  predicate Possible(s: State, e: Event) {
    match e
    case Request(phone, _, found, id, _) => AnswersPhone(s.records, phone, found) && id !in s.records
    case Verify(phone, _, _, found, _) => AnswersPhone(s.records, phone, found)
    case Register(token, _, found, user, now) => AnswersToken(s.records, token, now, found) && user !in s.users
    case ChangePhone(user, _, token, found, former, now) =>
      AnswersToken(s.records, token, now, found) && AnswersOwn(s.records, s.phones, user, former)
  }

  function RequestOutcome(cfg: Config, s: State, e: Event): Outcome
    requires e.Request? && Possible(s, e)
  {
    if NormalizePhone(e.phone) == None then InvalidPhone
    else if e.found == None then OtpCreated(e.id)
    else
      var r := s.records[e.found.value];
      if r.verifiedAt.Some? then PhoneAlreadyExists
      else if !MayRequest(cfg, r, e.now) then TooManyRequests(MinutesRemaining(cfg, r, e.now))
      else OtpCreated(e.found.value)
  }

  predicate TokenInUse(records: Records, token: string) {
    exists id :: id in records && records[id].token == Some(token)
  }

  /** The unique index on `token` refuses a token another row holds. */
  predicate TokenHeldElsewhere(records: Records, token: string, row: int) {
    exists id :: id in records && id != row && records[id].token == Some(token)
  }

  function VerifyOutcome(s: State, e: Event): Outcome
    requires e.Verify? && Possible(s, e)
  {
    if NormalizePhone(e.phone) == None then InvalidPhone
    else if e.found == None then OtpNotFound
    else
      var r := s.records[e.found.value];
      if r.verifiedAt.Some? then PhoneAlreadyExists
      else if r.expiresAt < e.now then OtpExpired
      else if r.otp != e.otp then InvalidOtp
      else if TokenHeldElsewhere(s.records, e.token, e.found.value) then TokenCollision
      else TokenIssued(e.found.value)
  }

  function RegisterOutcome(s: State, e: Event): Outcome
    requires e.Register? && Possible(s, e)
  {
    if e.found == None then TokenInvalid
    else if s.records[e.found.value].verifiedAt.Some? then EmailExists
    else if exists u :: u in s.users && s.users[u] == e.email then EmailExists
    else UserCreated(e.user)
  }

  function CurrentPhone(s: State, user: int): Option<string> {
    if user in s.phones then Some(s.phones[user]) else None
  }

  /** An empty phone clears the profile; the phone the user already has is no change. */
  function ChangeOutcome(s: State, e: Event): Outcome
    requires e.ChangePhone? && Possible(s, e)
  {
    var phone := NormalizePhone(e.phone);
    if e.owner !in s.users then UserNotFound
    else if e.phone != "" && phone == None then InvalidPhone
    else if phone == None || phone == CurrentPhone(s, e.owner) then PhoneKept
    else if e.token == "" then TokenRequired
    else if e.found == None then TokenInvalid
    else
      var r := s.records[e.found.value];
      if r.phone != phone.value then TokenMismatch
      else if r.verifiedAt.Some? && r.userId != Some(e.owner) then PhoneAlreadyExists
      else PhoneSaved(e.found.value)
  }

  function OutcomeOf(cfg: Config, s: State, e: Event): Outcome
    requires Possible(s, e)
  {
    match e
    case Request(_, _, _, _, _) => RequestOutcome(cfg, s, e)
    case Verify(_, _, _, _, _) => VerifyOutcome(s, e)
    case Register(_, _, _, _, _) => RegisterOutcome(s, e)
    case ChangePhone(_, _, _, _, _, _) => ChangeOutcome(s, e)
  }

  /** The record of the phone a user leaves is marked deleted, if the lookup found it undeleted. */
  function WithoutFormer(records: Records, former: Option<int>, now: int): Records {
    if former.Some? && former.value in records && records[former.value].deletedAt == None
    then records[former.value := records[former.value].(deletedAt := Some(now))]
    else records
  }

  function WithPhone(phones: map<int, string>, user: int, phone: Option<string>): map<int, string> {
    if phone.Some? then phones[user := phone.value] else phones - {user}
  }

  /** The state after an event; only these outcomes change anything. */
  function After(cfg: Config, s: State, e: Event): State
    requires Possible(s, e)
  {
    match OutcomeOf(cfg, s, e)
    case OtpCreated(row) =>
      var r := if e.found == None then Fresh(cfg, NormalizePhone(e.phone).value, e.otp, e.now)
               else Renewed(cfg, s.records[row], e.otp, e.now);
      s.(records := s.records[row := r], log := s.log + [Requested(row, e.otp, e.now)])
    case TokenIssued(row) =>
      var r := s.records[row].(token := Some(e.token), tokenExpiresAt := Some(e.now + TOKEN_LIFETIME));
      s.(records := s.records[row := r], log := s.log + [Verified(row, e.otp, e.token, e.now)])
    case UserCreated(user) =>
      var row := e.found.value;
      State(s.records[row := Consumed(s.records[row], user, e.now)],
            s.users[user := e.email], s.phones[user := s.records[row].phone],
            s.log + [Registered(row, e.regToken, user, e.now)])
    case PhoneKept => s.(phones := WithPhone(s.phones, e.owner, NormalizePhone(e.phone)))
    case PhoneSaved(row) =>
      var records := WithoutFormer(s.records, e.former, e.now);
      State(records[row := records[row].(userId := Some(e.owner), verifiedAt := Some(e.now))],
            s.users, s.phones[e.owner := s.records[row].phone],
            s.log + [PhoneChanged(row, e.token, e.owner, e.now)])
    case _ => s
  }

  const INITIAL := State(map[], map[], map[], [])

  /** A sequence of events that can happen from the empty tables on, with a clock that never runs back. */
  predicate IsRun(cfg: Config, es: seq<Event>)
    decreases |es|, 1
  {
    es == []
    || (var n := |es| - 1;
        IsRun(cfg, es[..n]) && Possible(RunState(cfg, es[..n]), es[n]) && (n > 0 ==> es[n - 1].now <= es[n].now))
  }

  function RunState(cfg: Config, es: seq<Event>): State
    requires IsRun(cfg, es)
    decreases |es|, 2
  {
    if es == [] then INITIAL else After(cfg, RunState(cfg, es[..|es| - 1]), es[|es| - 1])
  }

  // ----- Invariants of the table -----

  predicate BothActive(r: OtpRequest, q: OtpRequest) {
    r.deletedAt == None && q.deletedAt == None && r.phone == q.phone
  }

  /** At most one active record per phone, and no token in two rows. */
  ghost predicate KeysUnique(records: Records) {
    (forall i, j :: i in records && j in records && BothActive(records[i], records[j]) ==> i == j)
    && forall i, j :: i in records && j in records && records[i].token.Some? && records[i].token == records[j].token ==>
         i == j
  }

  /** Token and expiry come and go together, and a verified record has its user. */
  predicate RowConsistent(r: OtpRequest) {
    (r.token.Some? <==> r.tokenExpiresAt.Some?) && (r.verifiedAt.Some? ==> r.userId.Some?)
  }

  ghost predicate TableInvariant(s: State) {
    KeysUnique(s.records)
    && forall id :: id in s.records ==> RowConsistent(s.records[id])
  }

  /** The four steps that leave a fact, each with the row it writes. */
  lemma RequestShape(cfg: Config, s: State, e: Event)
    requires e.Request? && Possible(s, e) && RequestOutcome(cfg, s, e).OtpCreated?
    ensures var row, s' := if e.found == None then e.id else e.found.value, After(cfg, s, e);
            RequestOutcome(cfg, s, e) == OtpCreated(row) && (e.found == None <==> row !in s.records)
            && (e.found.Some? ==> s.records[row].verifiedAt == None && MayRequest(cfg, s.records[row], e.now))
            && (e.found == None ==>
                  s'.records == s.records[row := Fresh(cfg, NormalizePhone(e.phone).value, e.otp, e.now)])
            && (e.found.Some? ==> s'.records == s.records[row := Renewed(cfg, s.records[row], e.otp, e.now)])
            && s'.log == s.log + [Requested(row, e.otp, e.now)]
  {}

  lemma VerifyShape(cfg: Config, s: State, e: Event)
    requires e.Verify? && Possible(s, e) && VerifyOutcome(s, e).TokenIssued?
    ensures e.found.Some? && e.found.value in s.records && VerifyOutcome(s, e) == TokenIssued(e.found.value)
    ensures var row, s' := e.found.value, After(cfg, s, e);
            var r := s.records[row];
            r.verifiedAt == None && e.now <= r.expiresAt && r.otp == e.otp
            && s'.records
               == s.records[row := r.(token := Some(e.token), tokenExpiresAt := Some(e.now + TOKEN_LIFETIME))]
            && s'.log == s.log + [Verified(row, e.otp, e.token, e.now)]
  {
    hide TokenHeldElsewhere;
  }

  lemma RegisterShape(cfg: Config, s: State, e: Event)
    requires e.Register? && Possible(s, e) && RegisterOutcome(s, e).UserCreated?
    ensures e.found.Some? && HoldsToken(s.records, e.regToken, e.now, e.found.value)
    ensures var row, s' := e.found.value, After(cfg, s, e);
            s.records[row].verifiedAt == None
            && s'.records == s.records[row := Consumed(s.records[row], e.user, e.now)]
            && s'.log == s.log + [Registered(row, e.regToken, e.user, e.now)]
  {}

  lemma ChangeShape(cfg: Config, s: State, e: Event)
    requires e.ChangePhone? && Possible(s, e) && ChangeOutcome(s, e).PhoneSaved?
    ensures e.found.Some? && HoldsToken(s.records, e.token, e.now, e.found.value)
    ensures ChangeOutcome(s, e) == PhoneSaved(e.found.value)
    ensures var row, s', was := e.found.value, After(cfg, s, e), WithoutFormer(s.records, e.former, e.now);
            var r := s.records[row];
            was[row] == r && (r.verifiedAt.Some? ==> r.userId == Some(e.owner))
            && s'.records == was[row := r.(userId := Some(e.owner), verifiedAt := Some(e.now))]
            && s'.log == s.log + [PhoneChanged(row, e.token, e.owner, e.now)]
  {}

  /** Any other step leaves records and log alone. */
  lemma OtherShape(cfg: Config, s: State, e: Event)
    requires Possible(s, e)
    requires var o := OutcomeOf(cfg, s, e); !o.OtpCreated? && !o.TokenIssued? && !o.UserCreated? && !o.PhoneSaved?
    ensures After(cfg, s, e).records == s.records && After(cfg, s, e).log == s.log
  {
    hide AnswersPhone, AnswersToken, AnswersOwn;
  }

  /** Which of these a step is. */
  lemma StepShape(cfg: Config, s: State, e: Event)
    requires Possible(s, e)
    ensures var o, s' := OutcomeOf(cfg, s, e), After(cfg, s, e);
            if o.OtpCreated? then e.Request? && RequestOutcome(cfg, s, e) == o
            else if o.TokenIssued? then e.Verify? && VerifyOutcome(s, e) == o
            else if o.UserCreated? then e.Register? && RegisterOutcome(s, e) == o
            else if o.PhoneSaved? then e.ChangePhone? && ChangeOutcome(s, e) == o
            else s'.records == s.records && s'.log == s.log
  {
    hide AnswersPhone, AnswersToken, AnswersOwn, After;
    var o := OutcomeOf(cfg, s, e);
    if !o.OtpCreated? && !o.TokenIssued? && !o.UserCreated? && !o.PhoneSaved? {
      OtherShape(cfg, s, e);
    }
  }

  /** What a step does to one row: it keeps its phone and stays deleted; only a verification gives it a token. */
  lemma RowStep(cfg: Config, s: State, e: Event, id: int)
    requires Possible(s, e) && id in s.records
    ensures id in After(cfg, s, e).records
    ensures var r, q := s.records[id], After(cfg, s, e).records[id];
            q.phone == r.phone && (q.deletedAt == None ==> r.deletedAt == None)
            && (q.token == r.token || q.token == None
                || (e.Verify? && VerifyOutcome(s, e) == TokenIssued(id) && q.token == Some(e.token)))
  {
    hide After, Possible, MayRequest, RequestOutcome, RegisterOutcome, ChangeOutcome;
    StepShape(cfg, s, e);
    match OutcomeOf(cfg, s, e)
    case OtpCreated(_) => RequestShape(cfg, s, e);
    case TokenIssued(_) => VerifyShape(cfg, s, e);
    case UserCreated(_) => RegisterShape(cfg, s, e);
    case PhoneSaved(_) => ChangeShape(cfg, s, e);
    case _ =>
  }

  /** A new row comes from a first request, and no record of its phone was active. */
  lemma NewRow(cfg: Config, s: State, e: Event, id: int)
    requires Possible(s, e) && id !in s.records && id in After(cfg, s, e).records
    ensures e.Request? && e.id == id && e.found == None && NormalizePhone(e.phone).Some?
    ensures var q := After(cfg, s, e).records[id];
            q.phone == NormalizePhone(e.phone).value && q.token == None
            && forall i :: i in s.records && s.records[i].phone == q.phone ==> s.records[i].deletedAt.Some?
  {
    hide AnswersOwn, MayRequest, TokenHeldElsewhere;
  }

  lemma PhonesStayUnique(cfg: Config, s: State, e: Event, i: int, j: int)
    requires TableInvariant(s) && Possible(s, e)
    requires var next := After(cfg, s, e).records; i in next && j in next && BothActive(next[i], next[j])
    ensures i == j
  {
    hide RowConsistent, After, Possible;
    var records := s.records;
    if i in records {
      RowStep(cfg, s, e, i);
    } else {
      NewRow(cfg, s, e, i);
    }
    if j in records {
      RowStep(cfg, s, e, j);
    } else {
      NewRow(cfg, s, e, j);
    }
    if i in records && j in records {
      assert BothActive(records[i], records[j]);
    }
  }

  lemma TokensStayUnique(cfg: Config, s: State, e: Event, i: int, j: int)
    requires TableInvariant(s) && Possible(s, e)
    requires var next := After(cfg, s, e).records;
             i in next && j in next && next[i].token.Some? && next[i].token == next[j].token
    ensures i == j
  {
    hide BothActive, After, Possible;
    if i in s.records {
      RowStep(cfg, s, e, i);
    } else {
      NewRow(cfg, s, e, i);
    }
    if j in s.records {
      RowStep(cfg, s, e, j);
    } else {
      NewRow(cfg, s, e, j);
    }
    if e.Verify? && VerifyOutcome(s, e).TokenIssued? {
      IssuedTokenIsNew(s, e);
    }
  }

  lemma IssuedTokenIsNew(s: State, e: Event)
    requires e.Verify? && Possible(s, e) && VerifyOutcome(s, e).TokenIssued?
    ensures e.found.Some?
    ensures forall id :: id in s.records && id != e.found.value ==> s.records[id].token != Some(e.token)
    ensures VerifyOutcome(s, e) == TokenIssued(e.found.value)
  {
    assert !TokenHeldElsewhere(s.records, e.token, e.found.value);
  }

  lemma RowStaysConsistent(cfg: Config, s: State, e: Event, id: int)
    requires TableInvariant(s) && Possible(s, e) && id in After(cfg, s, e).records
    ensures RowConsistent(After(cfg, s, e).records[id])
  {
    hide KeysUnique, BothActive, AnswersOwn, MayRequest, TokenHeldElsewhere;
  }

  lemma TableInvariantKept(cfg: Config, s: State, e: Event)
    requires TableInvariant(s) && Possible(s, e)
    ensures TableInvariant(After(cfg, s, e))
  {
    hide After, Possible, BothActive, RowConsistent;
    var next := After(cfg, s, e).records;
    forall i, j | i in next && j in next && BothActive(next[i], next[j]) ensures i == j {
      PhonesStayUnique(cfg, s, e, i, j);
    }
    forall i, j | i in next && j in next && next[i].token.Some? && next[i].token == next[j].token ensures i == j {
      TokensStayUnique(cfg, s, e, i, j);
    }
    forall id | id in next ensures RowConsistent(next[id]) {
      RowStaysConsistent(cfg, s, e, id);
    }
  }

  lemma EmptyTables()
    ensures TableInvariant(INITIAL)
  {}

  // ----- Provenance: what must have happened before -----

  /** The latest code request for a record. */
  function LastRequested(log: seq<Fact>, id: int): Option<Fact> {
    if log == [] then None
    else
      var f := log[|log| - 1];
      if f.Requested? && f.id == id then Some(f) else LastRequested(log[..|log| - 1], id)
  }

  /** At time v the code is the one last requested for the record, at most the OTP lifetime before. */
  predicate CodeIsCurrent(cfg: Config, log: seq<Fact>, id: int, code: string, v: int) {
    var f := LastRequested(log, id);
    f.Some? && f.value.Requested? && f.value.code == code && f.value.at <= v <= f.value.at + cfg.Expiry()
  }

  /** Fact m of the log issued this token to this record at time v, against the record's current code. */
  predicate IssuedAt(cfg: Config, log: seq<Fact>, id: int, token: string, v: int, m: int) {
    0 <= m < |log| && log[m].Verified? && log[m] == Verified(id, log[m].code, token, v)
    && CodeIsCurrent(cfg, log[..m], id, log[m].code, v)
  }

  predicate IsVerification(f: Fact) {
    f.Registered? || f.PhoneChanged?
  }

  /** A registration or change of phone rests on a verification of the same record with the same token less
      than two minutes earlier, which rests on the code last requested. */
  ghost predicate WellFounded(cfg: Config, log: seq<Fact>, n: int)
    requires 0 <= n < |log|
  {
    IsVerification(log[n]) ==>
      exists m, v :: m < n && IssuedAt(cfg, log, log[n].id, log[n].token, v, m) && v <= log[n].at < v + TOKEN_LIFETIME
  }

  /** The record shows its last request, and its token was issued to it. */
  ghost predicate RowRooted(cfg: Config, log: seq<Fact>, id: int, r: OtpRequest) {
    LastRequested(log, id) == Some(Requested(id, r.otp, r.lastRequestAt))
    && r.expiresAt == r.lastRequestAt + cfg.Expiry()
    && (r.token.Some? && r.tokenExpiresAt.Some? ==>
          Issued(cfg, log, id, r.token.value, r.tokenExpiresAt.value - TOKEN_LIFETIME))
  }

  ghost predicate Issued(cfg: Config, log: seq<Fact>, id: int, token: string, v: int) {
    exists m :: IssuedAt(cfg, log, id, token, v, m)
  }

  ghost predicate Rooted(cfg: Config, s: State, t: int) {
    (forall id :: id in s.records ==> RowRooted(cfg, s.log, id, s.records[id]) && s.records[id].lastRequestAt <= t)
    && (forall n :: 0 <= n < |s.log| ==> WellFounded(cfg, s.log, n) && s.log[n].at <= t)
  }

  lemma LastRequestedGrows(log: seq<Fact>, f: Fact, id: int)
    ensures LastRequested(log + [f], id) == if f.Requested? && f.id == id then Some(f) else LastRequested(log, id)
  {
    assert (log + [f])[..|log|] == log;
  }

  lemma IssuedAtStays(cfg: Config, log: seq<Fact>, f: Fact, id: int, token: string, v: int, m: int)
    requires IssuedAt(cfg, log, id, token, v, m)
    ensures IssuedAt(cfg, log + [f], id, token, v, m)
  {
    assert (log + [f])[..m] == log[..m];
  }

  lemma RowRootedStays(cfg: Config, log: seq<Fact>, f: Fact, id: int, r: OtpRequest)
    requires RowRooted(cfg, log, id, r) && !(f.Requested? && f.id == id)
    ensures RowRooted(cfg, log + [f], id, r)
  {
    LastRequestedGrows(log, f, id);
    if r.token.Some? && r.tokenExpiresAt.Some? {
      IssuedStays(cfg, log, f, id, r.token.value, r.tokenExpiresAt.value - TOKEN_LIFETIME);
    }
  }

  lemma IssuedStays(cfg: Config, log: seq<Fact>, f: Fact, id: int, token: string, v: int)
    requires Issued(cfg, log, id, token, v)
    ensures Issued(cfg, log + [f], id, token, v)
  {
    var m :| IssuedAt(cfg, log, id, token, v, m);
    IssuedAtStays(cfg, log, f, id, token, v, m);
  }

  lemma WellFoundedStays(cfg: Config, log: seq<Fact>, f: Fact, n: int)
    requires 0 <= n < |log| && WellFounded(cfg, log, n)
    ensures WellFounded(cfg, log + [f], n)
  {
    hide IssuedAt;
    if IsVerification(log[n]) {
      var m, v :| m < n && IssuedAt(cfg, log, log[n].id, log[n].token, v, m) && v <= log[n].at < v + TOKEN_LIFETIME;
      IssuedAtStays(cfg, log, f, log[n].id, log[n].token, v, m);
    }
  }

  /** A step that appends one fact about one row keeps the whole history rooted, provided that row and fact are. */
  lemma LogGrows(cfg: Config, s: State, s': State, f: Fact, t: int, now: int)
    requires Rooted(cfg, s, t) && t <= now && f.at == now && s'.log == s.log + [f]
    requires WellFounded(cfg, s'.log, |s.log|)
    requires forall id :: id in s'.records && id != f.id ==>
               id in s.records && s'.records[id].(deletedAt := None) == s.records[id].(deletedAt := None)
    requires f.id in s'.records ==>
               RowRooted(cfg, s'.log, f.id, s'.records[f.id]) && s'.records[f.id].lastRequestAt <= now
    ensures Rooted(cfg, s', now)
  {
    forall id | id in s'.records && id != f.id
      ensures RowRooted(cfg, s'.log, id, s'.records[id]) && s'.records[id].lastRequestAt <= now
    {
      RowRootedStays(cfg, s.log, f, id, s.records[id]);
      SameRoots(cfg, s'.log, id, s.records[id], s'.records[id]);
    }
    forall n | 0 <= n < |s.log| ensures WellFounded(cfg, s'.log, n) {
      WellFoundedStays(cfg, s.log, f, n);
    }
  }

  lemma SameRoots(cfg: Config, log: seq<Fact>, id: int, r: OtpRequest, q: OtpRequest)
    requires RowRooted(cfg, log, id, r) && q.(deletedAt := None) == r.(deletedAt := None)
    ensures RowRooted(cfg, log, id, q) && q.lastRequestAt == r.lastRequestAt
  {
    assert q.lastRequestAt == r.(deletedAt := None).lastRequestAt;
    assert q.otp == r.(deletedAt := None).otp && q.expiresAt == r.(deletedAt := None).expiresAt;
    assert q.token == r.(deletedAt := None).token && q.tokenExpiresAt == r.(deletedAt := None).tokenExpiresAt;
  }

  lemma RootedKept(cfg: Config, s: State, e: Event, t: int)
    requires TableInvariant(s) && Possible(s, e) && Rooted(cfg, s, t) && t <= e.now
    ensures Rooted(cfg, After(cfg, s, e), e.now)
  {
    hide RowRooted, WellFounded, KeysUnique, AnswersPhone, AnswersToken, AnswersOwn, MayRequest, TokenHeldElsewhere;
    match OutcomeOf(cfg, s, e)
    case OtpCreated(_) => RequestRooted(cfg, s, e, t);
    case TokenIssued(_) => VerifyRooted(cfg, s, e, t);
    case UserCreated(_) => VerificationRooted(cfg, s, e, t, e.found.value, e.regToken);
    case PhoneSaved(_) => VerificationRooted(cfg, s, e, t, e.found.value, e.token);
    case _ =>
  }

  lemma RequestRooted(cfg: Config, s: State, e: Event, t: int)
    requires e.Request? && Possible(s, e) && Rooted(cfg, s, t) && t <= e.now
    requires RequestOutcome(cfg, s, e).OtpCreated?
    ensures Rooted(cfg, After(cfg, s, e), e.now)
  {
    hide IssuedAt, MayRequest, After, Possible, RequestOutcome;
    RequestShape(cfg, s, e);
    var s' := After(cfg, s, e);
    var row := if e.found == None then e.id else e.found.value;
    var f := Requested(row, e.otp, e.now);
    LastRequestedGrows(s.log, f, row);
    if e.found.Some? {
      var r := s.records[row];
      if r.token.Some? && r.tokenExpiresAt.Some? {
        IssuedStays(cfg, s.log, f, row, r.token.value, r.tokenExpiresAt.value - TOKEN_LIFETIME);
      }
    }
    LogGrows(cfg, s, s', f, t, e.now);
  }

  lemma VerifyRooted(cfg: Config, s: State, e: Event, t: int)
    requires e.Verify? && Possible(s, e) && Rooted(cfg, s, t) && t <= e.now
    requires VerifyOutcome(s, e).TokenIssued?
    ensures Rooted(cfg, After(cfg, s, e), e.now)
  {
    hide After, Possible, VerifyOutcome;
    VerifyShape(cfg, s, e);
    var s' := After(cfg, s, e);
    var row, r := e.found.value, s.records[e.found.value];
    var f := Verified(row, e.otp, e.token, e.now);
    LastRequestedGrows(s.log, f, row);
    assert s'.log[..|s.log|] == s.log;
    assert IssuedAt(cfg, s'.log, row, e.token, e.now, |s.log|);
    LogGrows(cfg, s, s', f, t, e.now);
  }

  /** A registration or change of phone, both made with a token that is held and has not expired. */
  lemma VerificationRooted(cfg: Config, s: State, e: Event, t: int, row: int, token: string)
    requires TableInvariant(s) && Possible(s, e) && Rooted(cfg, s, t) && t <= e.now
    requires e.Register? || e.ChangePhone?
    requires e.found == Some(row) && token == if e.Register? then e.regToken else e.token
    requires var o := OutcomeOf(cfg, s, e); o.UserCreated? || o == PhoneSaved(row)
    ensures Rooted(cfg, After(cfg, s, e), e.now)
  {
    hide KeysUnique, WellFounded, IssuedAt, LastRequested, After, Possible, RegisterOutcome, ChangeOutcome;
    StepShape(cfg, s, e);
    if e.Register? {
      RegisterShape(cfg, s, e);
    } else {
      ChangeShape(cfg, s, e);
    }
    var s' := After(cfg, s, e);
    var r := s.records[row];
    var f := s'.log[|s.log|];
    assert s'.log == s.log + [f] && f.id == row && f.token == token && f.at == e.now && IsVerification(f);
    var v := r.tokenExpiresAt.value - TOKEN_LIFETIME;
    IssuedBy(cfg, s, row, token, v, t);
    NewVerificationWellFounded(cfg, s.log, f, v);
    RowRootedStays(cfg, s.log, f, row, r);
    LogGrows(cfg, s, s', f, t, e.now);
  }

  lemma NewVerificationWellFounded(cfg: Config, log: seq<Fact>, f: Fact, v: int)
    requires IsVerification(f) && Issued(cfg, log, f.id, f.token, v) && v <= f.at < v + TOKEN_LIFETIME
    ensures WellFounded(cfg, log + [f], |log|)
  {
    var m :| IssuedAt(cfg, log, f.id, f.token, v, m);
    IssuedAtStays(cfg, log, f, f.id, f.token, v, m);
    assert (log + [f])[|log|] == f;
  }

  lemma IssuedBy(cfg: Config, s: State, row: int, token: string, v: int, t: int)
    requires Issued(cfg, s.log, row, token, v) && Rooted(cfg, s, t)
    ensures v <= t
  {
    var m :| IssuedAt(cfg, s.log, row, token, v, m);
    assert s.log[m].at == v;
  }

  /** In every reachable state the table is consistent and every registration and change of phone in the log is
      well founded: some time t after a verification at v with v <= t < v + 2 minutes, by the code of the
      latest request, at most the OTP lifetime old, all on the same record. */
  lemma {:induction false} RunsAreRooted(cfg: Config, es: seq<Event>)
    requires IsRun(cfg, es)
    ensures var s := RunState(cfg, es);
            TableInvariant(s) && (forall n :: 0 <= n < |s.log| ==> WellFounded(cfg, s.log, n))
            && (es != [] ==> Rooted(cfg, s, es[|es| - 1].now))
    decreases |es|
  {
    hide After, Possible, RowRooted, KeysUnique, RowConsistent, WellFounded;
    if es == [] {
      EmptyTables();
    } else {
      var n := |es| - 1;
      var e, before := es[n], RunState(cfg, es[..n]);
      RunsAreRooted(cfg, es[..n]);
      assert n > 0 ==> es[..n][|es[..n]| - 1] == es[n - 1];
      TableInvariantKept(cfg, before, e);
      RootedKept(cfg, before, e, if n > 0 then es[n - 1].now else e.now);
    }
  }

  /** Facts k, m and n of the log: a code was sent for a record at r; it was the latest one when it was entered, within
      its minutes, at v; and the token given then was used within two minutes. */
  predicate TimelyChain(cfg: Config, log: seq<Fact>, n: int, m: int, k: int) {
    0 <= k < m < n < |log|
    && (log[n].Registered? || log[n].PhoneChanged?) && log[m].Verified? && log[k].Requested?
    && log[n].id == log[m].id == log[k].id && log[n].token == log[m].token && log[m].code == log[k].code
    && (forall j :: k < j < m && log[j].Requested? ==> log[j].id != log[n].id)
    && log[k].at <= log[m].at <= log[k].at + cfg.expiryMinutes * 60_000
    && log[m].at <= log[n].at < log[m].at + 120_000
  }

  lemma {:induction false} LastRequestedAt(log: seq<Fact>, id: int) returns (k: int)
    requires LastRequested(log, id).Some?
    ensures 0 <= k < |log| && log[k] == LastRequested(log, id).value && log[k].Requested? && log[k].id == id
    ensures forall j :: k < j < |log| && log[j].Requested? ==> log[j].id != id
    decreases |log|
  {
    var n := |log| - 1;
    if log[n].Requested? && log[n].id == id {
      k := n;
    } else {
      k := LastRequestedAt(log[..n], id);
    }
  }

  /** In every run every registration and every change of phone has such a chain behind it. */
  lemma VerificationsAreTimely(cfg: Config, es: seq<Event>, n: nat)
    requires IsRun(cfg, es) && n < |RunState(cfg, es).log|
    requires var f := RunState(cfg, es).log[n]; f.Registered? || f.PhoneChanged?
    ensures exists m, k :: TimelyChain(cfg, RunState(cfg, es).log, n, m, k)
  {
    hide RunState, IsRun, LastRequested;
    RunsAreRooted(cfg, es);
    var log := RunState(cfg, es).log;
    assert WellFounded(cfg, log, n);
    var m, v :| m < n && IssuedAt(cfg, log, log[n].id, log[n].token, v, m) && v <= log[n].at < v + TOKEN_LIFETIME;
    var k := LastRequestedAt(log[..m], log[n].id);
    assert log[..m][k] == log[k];
    forall j | k < j < m && log[j].Requested? ensures log[j].id != log[n].id {
      assert log[..m][j] == log[j];
    }
    assert TimelyChain(cfg, log, n, m, k);
  }

  /** Users come from registrations only, and no two of them share an address. */
  ghost predicate UsersRegistered(s: State) {
    (forall u, v :: u in s.users && v in s.users && s.users[u] == s.users[v] ==> u == v)
    && (forall u :: u in s.users ==> RegisteredIn(s.log, u))
    && forall n :: 0 <= n < |s.log| && s.log[n].Registered? ==> s.log[n].user in s.users
  }

  predicate RegisteredIn(log: seq<Fact>, u: int) {
    exists n :: 0 <= n < |log| && log[n].Registered? && log[n].user == u
  }

  lemma RegisteredInStays(log: seq<Fact>, more: seq<Fact>, u: int)
    requires RegisteredIn(log, u) && log <= more
    ensures RegisteredIn(more, u)
  {
    var n :| 0 <= n < |log| && log[n].Registered? && log[n].user == u;
    assert more[n] == log[n];
  }

  lemma UsersStep(cfg: Config, s: State, e: Event)
    requires Possible(s, e)
    ensures var s' := After(cfg, s, e);
            s.log <= s'.log
            && if e.Register? && RegisterOutcome(s, e).UserCreated? then
                 e.found.Some? && (forall u :: u in s.users ==> s.users[u] != e.email) && e.user !in s.users
                 && s'.users == s.users[e.user := e.email]
                 && s'.log == s.log + [Registered(e.found.value, e.regToken, e.user, e.now)]
               else s'.users == s.users && forall n :: |s.log| <= n < |s'.log| ==> !s'.log[n].Registered?
  {
    hide AnswersPhone, AnswersOwn, MayRequest, TokenHeldElsewhere;
  }

  lemma {:induction false} UsersComeFromRegistrations(cfg: Config, es: seq<Event>)
    requires IsRun(cfg, es)
    ensures UsersRegistered(RunState(cfg, es))
    decreases |es|
  {
    hide After, Possible, RegisteredIn, RegisterOutcome;
    if es != [] {
      var n := |es| - 1;
      var s, s', e := RunState(cfg, es[..n]), RunState(cfg, es), es[n];
      UsersComeFromRegistrations(cfg, es[..n]);
      UsersStep(cfg, s, e);
      forall u | u in s'.users ensures RegisteredIn(s'.log, u) {
        if u in s.users {
          RegisteredInStays(s.log, s'.log, u);
        } else {
          NewRegistration(s.log, e.found.value, e.regToken, u, e.now);
        }
      }
    }
  }

  lemma NewRegistration(log: seq<Fact>, row: int, token: string, user: int, now: int)
    ensures RegisteredIn(log + [Registered(row, token, user, now)], user)
  {
    assert (log + [Registered(row, token, user, now)])[|log|].Registered?;
  }

  // ----- What the handlers answer, on the table -----

  /** An undeleted record of the phone. */
  predicate Current(records: Records, phone: string, id: int) {
    id in records && records[id].phone == phone && records[id].deletedAt == None
  }

  lemma CurrentIsFound(s: State, phone: string, found: Option<int>, id: int)
    requires TableInvariant(s) && NormalizePhone(phone).Some? && AnswersPhone(s.records, phone, found)
    ensures Current(s.records, NormalizePhone(phone).value, id) <==> found == Some(id)
  {
    if Current(s.records, NormalizePhone(phone).value, id) {
      assert IsActive(s.records, NormalizePhone(phone).value, id);
      if found.Some? {
        assert BothActive(s.records[id], s.records[found.value]);
      }
    }
  }

  /** A code is sent unless the number is invalid or its record is verified, or was asked for the maximum in a burst
      that is not over. */
  lemma RequestAnswers(cfg: Config, s: State, e: Event)
    requires TableInvariant(s) && e.Request? && Possible(s, e)
    ensures var out, key := RequestOutcome(cfg, s, e), NormalizePhone(e.phone);
            (key == None ==> out == InvalidPhone)
            && (key.Some? && (forall id :: !Current(s.records, key.value, id)) ==> out == OtpCreated(e.id))
            && (key.Some? ==> forall id :: Current(s.records, key.value, id) ==>
                  var r := s.records[id];
                  var over := r.lastRequestAt + cfg.windowMinutes * 60_000;
                  out == if r.verifiedAt.Some? then PhoneAlreadyExists
                         else if r.requestCount >= cfg.maxRequests && e.now <= over
                         then TooManyRequests(CeilDiv(over - e.now, 60_000))
                         else OtpCreated(id))
  {
    if NormalizePhone(e.phone).Some? {
      forall id ensures Current(s.records, NormalizePhone(e.phone).value, id) <==> e.found == Some(id) {
        CurrentIsFound(s, e.phone, e.found, id);
      }
    }
  }

  /** A token is issued exactly for the right code, not expired, of an unverified record. */
  lemma VerifyAnswers(s: State, e: Event)
    requires TableInvariant(s) && e.Verify? && Possible(s, e)
    ensures var out, key := VerifyOutcome(s, e), NormalizePhone(e.phone);
            (key == None ==> out == InvalidPhone)
            && (key.Some? && (forall id :: !Current(s.records, key.value, id)) ==> out == OtpNotFound)
            && (key.Some? ==> forall id :: Current(s.records, key.value, id) ==>
                  var r := s.records[id];
                  out == if r.verifiedAt.Some? then PhoneAlreadyExists
                         else if e.now > r.expiresAt then OtpExpired
                         else if r.otp != e.otp then InvalidOtp
                         else if exists i :: i in s.records && i != id && s.records[i].token == Some(e.token)
                         then TokenCollision
                         else TokenIssued(id))
  {
    if NormalizePhone(e.phone).Some? {
      forall id ensures Current(s.records, NormalizePhone(e.phone).value, id) <==> e.found == Some(id) {
        CurrentIsFound(s, e.phone, e.found, id);
      }
    }
  }

  /** An undeleted record with this token, not expired. */
  predicate Holder(records: Records, token: string, now: int, id: int) {
    id in records && records[id].token == Some(token) && records[id].deletedAt == None
    && (records[id].tokenExpiresAt.Some? ==> now < records[id].tokenExpiresAt.value)
  }

  lemma HolderIsFound(s: State, token: string, now: int, found: Option<int>, id: int)
    requires TableInvariant(s) && AnswersToken(s.records, token, now, found)
    ensures Holder(s.records, token, now, id) <==> found == Some(id)
  {
    if Holder(s.records, token, now, id) {
      assert HoldsToken(s.records, token, now, id);
    }
  }

  /** A user is created exactly with a live token of an unverified record and a new address. */
  lemma RegisterAnswers(s: State, e: Event)
    requires TableInvariant(s) && e.Register? && Possible(s, e)
    ensures var out := RegisterOutcome(s, e);
            ((forall id :: !Holder(s.records, e.regToken, e.now, id)) ==> out == TokenInvalid)
            && forall id :: Holder(s.records, e.regToken, e.now, id) ==>
                 out == if s.records[id].verifiedAt.Some? || (exists u :: u in s.users && s.users[u] == e.email)
                        then EmailExists
                        else UserCreated(e.user)
  {
    forall id ensures Holder(s.records, e.regToken, e.now, id) <==> e.found == Some(id) {
      HolderIsFound(s, e.regToken, e.now, e.found, id);
    }
  }

  /** A phone other than the user's own needs a live token issued for that phone, of a record no other user holds. */
  lemma ChangeAnswers(s: State, e: Event)
    requires TableInvariant(s) && e.ChangePhone? && Possible(s, e)
    ensures var out, key := ChangeOutcome(s, e), NormalizePhone(e.phone);
            var own := e.owner in s.phones && key == Some(s.phones[e.owner]);
            (e.owner !in s.users ==> out == UserNotFound)
            && (e.owner in s.users && key == None ==> out == if e.phone == "" then PhoneKept else InvalidPhone)
            && (e.owner in s.users && key.Some? && own ==> out == PhoneKept)
            && (e.owner in s.users && key.Some? && !own ==>
                  (e.token == "" ==> out == TokenRequired)
                  && (e.token != "" && (forall id :: !Holder(s.records, e.token, e.now, id)) ==> out == TokenInvalid)
                  && forall id :: e.token != "" && Holder(s.records, e.token, e.now, id) ==>
                       var r := s.records[id];
                       out == if r.phone != key.value then TokenMismatch
                              else if r.verifiedAt.Some? && r.userId != Some(e.owner) then PhoneAlreadyExists
                              else PhoneSaved(id))
  {
    forall id ensures Holder(s.records, e.token, e.now, id) <==> e.found == Some(id) {
      HolderIsFound(s, e.token, e.now, e.found, id);
    }
    assert NormalizePhone("") == None;
  }

  /** What becomes of the profile phones: the phone of a registration's record, the phone changed to, none after
      clearing; all else stays. */
  lemma ProfileStep(cfg: Config, s: State, e: Event, u: int)
    requires TableInvariant(s) && Possible(s, e)
    ensures var out, s' := OutcomeOf(cfg, s, e), After(cfg, s, e);
            CurrentPhone(s', u) ==
              if out.UserCreated? && u == out.user then Some(s.records[e.found.value].phone)
              else if out.PhoneSaved? && u == e.owner then NormalizePhone(e.phone)
              else if out.PhoneKept? && u == e.owner && e.phone == "" then None
              else CurrentPhone(s, u)
  {
    hide KeysUnique, RowConsistent, AnswersPhone, AnswersOwn, MayRequest, TokenHeldElsewhere;
    assert NormalizePhone("") == None;
  }

  /** In every run a record shows the latest request made for it, with its minutes, and its token the latest
      verification that could have issued it, with two minutes. */
  lemma RecordsShowTheirRequests(cfg: Config, es: seq<Event>, id: int)
    requires IsRun(cfg, es) && id in RunState(cfg, es).records
    ensures var s := RunState(cfg, es);
            var r := s.records[id];
            r.expiresAt == r.lastRequestAt + cfg.expiryMinutes * 60_000
            && (exists k :: 0 <= k < |s.log| && s.log[k] == Requested(id, r.otp, r.lastRequestAt)
                            && forall j :: k < j < |s.log| && s.log[j].Requested? ==> s.log[j].id != id)
            && (r.token.Some? ==>
                  r.tokenExpiresAt.Some?
                  && exists m :: 0 <= m < |s.log| && s.log[m].Verified? && s.log[m].id == id
                                 && s.log[m].token == r.token.value && s.log[m].at == r.tokenExpiresAt.value - 120_000)
  {
    hide RunState, IsRun, LastRequested, KeysUnique, WellFounded;
    RunsAreRooted(cfg, es);
    RunNotEmpty(cfg, es, id);
    var s := RunState(cfg, es);
    assert RowRooted(cfg, s.log, id, s.records[id]) && RowConsistent(s.records[id]);
    var k := LastRequestedAt(s.log, id);
    if s.records[id].token.Some? {
      var r := s.records[id];
      var m :| IssuedAt(cfg, s.log, id, r.token.value, r.tokenExpiresAt.value - TOKEN_LIFETIME, m);
      assert s.log[m].id == id;
    }
  }

  lemma RunNotEmpty(cfg: Config, es: seq<Event>, id: int)
    requires IsRun(cfg, es) && id in RunState(cfg, es).records
    ensures es != []
  {}

  // ----- Profile phones -----

  /** The user has an undeleted verified record of this phone. */
  predicate VerifiedFor(records: Records, phone: string, user: int, id: int) {
    id in records && records[id].phone == phone && records[id].deletedAt == None && records[id].verifiedAt.Some?
    && records[id].userId == Some(user)
  }

  ghost predicate PhonesVerified(s: State) {
    forall u :: u in s.phones ==> exists id :: VerifiedFor(s.records, s.phones[u], u, id)
  }

  /** A verified record stays its user's, as long as its phone is in the user's profile. */
  lemma ProfileRecordStays(cfg: Config, s: State, e: Event, u: int, id: int)
    requires TableInvariant(s) && Possible(s, e) && u in s.phones && VerifiedFor(s.records, s.phones[u], u, id)
    requires u in After(cfg, s, e).phones && After(cfg, s, e).phones[u] == s.phones[u]
    ensures VerifiedFor(After(cfg, s, e).records, s.phones[u], u, id)
  {
    hide KeysUnique, RowConsistent, MayRequest;
    VerifiedRowIsFinal(cfg, s, e, id);
    if e.ChangePhone? && ChangeOutcome(s, e).PhoneSaved? {
      ChangeShape(cfg, s, e);
    }
  }

  /** A phone comes into a profile only with a record verified in that step. */
  lemma NewProfilePhone(cfg: Config, s: State, e: Event, u: int)
    requires TableInvariant(s) && Possible(s, e) && u in After(cfg, s, e).phones
    requires u in s.phones ==> s.phones[u] != After(cfg, s, e).phones[u]
    ensures var s' := After(cfg, s, e); exists id :: VerifiedFor(s'.records, s'.phones[u], u, id)
  {
    hide KeysUnique, RowConsistent, MayRequest, AnswersPhone;
    var s' := After(cfg, s, e);
    assert e.found.Some? && VerifiedFor(s'.records, s'.phones[u], u, e.found.value);
  }

  /** In every run the phone in a profile is verified for that user; so no two users have the same. */
  lemma {:induction false} ProfilePhonesAreExclusive(cfg: Config, es: seq<Event>)
    requires IsRun(cfg, es)
    ensures var s := RunState(cfg, es);
            PhonesVerified(s)
            && forall u, v :: u in s.phones && v in s.phones && s.phones[u] == s.phones[v] ==> u == v
    decreases |es|
  {
    hide After, Possible, TableInvariant;
    var s := RunState(cfg, es);
    if es != [] {
      var n := |es| - 1;
      ProfilePhonesAreExclusive(cfg, es[..n]);
      RunsAreRooted(cfg, es[..n]);
      var before := RunState(cfg, es[..n]);
      forall u | u in s.phones ensures exists id :: VerifiedFor(s.records, s.phones[u], u, id) {
        if u in before.phones && before.phones[u] == s.phones[u] {
          var id :| VerifiedFor(before.records, before.phones[u], u, id);
          ProfileRecordStays(cfg, before, es[n], u, id);
        } else {
          NewProfilePhone(cfg, before, es[n], u);
        }
      }
    }
    RunsAreRooted(cfg, es);
    forall u, v | u in s.phones && v in s.phones && s.phones[u] == s.phones[v] ensures u == v {
      var i :| VerifiedFor(s.records, s.phones[u], u, i);
      var j :| VerifiedFor(s.records, s.phones[v], v, j);
      SameRow(s, i, j);
    }
  }

  // ----- One-time use -----

  function Issues(log: seq<Fact>, token: string): nat {
    if log == [] then 0
    else
      var f := log[|log| - 1];
      Issues(log[..|log| - 1], token) + if f.Verified? && f.token == token then 1 else 0
  }

  function Uses(log: seq<Fact>, token: string): nat {
    if log == [] then 0
    else
      var f := log[|log| - 1];
      Uses(log[..|log| - 1], token) + if f.Registered? && f.token == token then 1 else 0
  }

  function Holders(records: Records, token: string): nat {
    if TokenInUse(records, token) then 1 else 0
  }

  predicate TokenBalance(s: State, token: string) {
    Uses(s.log, token) + Holders(s.records, token) <= Issues(s.log, token)
  }

  lemma BalanceGrows(log: seq<Fact>, f: Fact, token: string)
    ensures Issues(log + [f], token) == Issues(log, token) + if f.Verified? && f.token == token then 1 else 0
    ensures Uses(log + [f], token) == Uses(log, token) + if f.Registered? && f.token == token then 1 else 0
  {
    assert (log + [f])[..|log|] == log;
  }

  /** A token enters the table only by being issued. */
  lemma HoldersGrow(cfg: Config, s: State, e: Event, token: string)
    requires Possible(s, e) && TokenInUse(After(cfg, s, e).records, token)
    ensures TokenInUse(s.records, token) || (e.Verify? && e.token == token && VerifyOutcome(s, e).TokenIssued?)
  {
    hide After, Possible;
    var next := After(cfg, s, e).records;
    var id :| id in next && next[id].token == Some(token);
    if id in s.records {
      RowStep(cfg, s, e, id);
    } else {
      NewRow(cfg, s, e, id);
    }
  }

  /** It leaves the table when a user registers with it. */
  lemma HolderLeaves(cfg: Config, s: State, e: Event)
    requires TableInvariant(s) && e.Register? && Possible(s, e) && RegisterOutcome(s, e).UserCreated?
    ensures TokenInUse(s.records, e.regToken) && !TokenInUse(After(cfg, s, e).records, e.regToken)
  {
    hide BothActive, RowConsistent;
    var row := e.found.value;
    assert s.records[row].token == Some(e.regToken);
  }

  lemma TokenBalanceKept(cfg: Config, s: State, e: Event, token: string)
    requires TableInvariant(s) && Possible(s, e) && TokenBalance(s, token)
    ensures TokenBalance(After(cfg, s, e), token)
  {
    hide KeysUnique, RowConsistent, TokenInUse, Issues, Uses;
    var s' := After(cfg, s, e);
    if TokenInUse(s'.records, token) {
      HoldersGrow(cfg, s, e, token);
    }
    if e.Register? && RegisterOutcome(s, e).UserCreated? {
      HolderLeaves(cfg, s, e);
    }
    if s'.log != s.log {
      BalanceGrows(s.log, s'.log[|s.log|], token);
    }
  }

  /** However many codes and tokens are generated, even if a token string is generated twice, it never admits
      more registrations than it was issued for. */
  lemma {:induction false} TokensAreOneTime(cfg: Config, es: seq<Event>, token: string)
    requires IsRun(cfg, es)
    ensures TokenBalance(RunState(cfg, es), token)
    decreases |es|
  {
    hide After, Possible, TableInvariant;
    if es != [] {
      var n := |es| - 1;
      TokensAreOneTime(cfg, es[..n], token);
      RunsAreRooted(cfg, es[..n]);
      TokenBalanceKept(cfg, RunState(cfg, es[..n]), es[n], token);
    }
  }

  // ----- Verified records -----

  /** The latest registration or change of phone made with a record. */
  function LastVerification(log: seq<Fact>, id: int): Option<Fact> {
    if log == [] then None
    else
      var f := log[|log| - 1];
      if IsVerification(f) && f.id == id then Some(f) else LastVerification(log[..|log| - 1], id)
  }

  /** What the record shows of it: the time and the user; a registration takes the token away, a change of phone
      leaves it. */
  predicate ShowsVerification(r: OtpRequest, f: Option<Fact>) {
    if f == None then r.verifiedAt == None
    else
      IsVerification(f.value) && r.verifiedAt == Some(f.value.at) && r.userId == Some(f.value.user)
      && r.token == if f.value.Registered? then None else Some(f.value.token)
  }

  /** A record serves one user and one token: one registration, or any number of changes of phone. */
  predicate ServesOne(log: seq<Fact>, i: int, j: int)
    requires 0 <= i < |log| && 0 <= j < |log|
  {
    IsVerification(log[i]) && IsVerification(log[j]) && log[i].id == log[j].id ==>
      log[i].user == log[j].user && log[i].token == log[j].token
      && (i == j || (log[i].PhoneChanged? && log[j].PhoneChanged?))
  }

  ghost predicate Traced(s: State) {
    (forall id :: id in s.records ==> ShowsVerification(s.records[id], LastVerification(s.log, id)))
    && (forall n :: 0 <= n < |s.log| ==> s.log[n].id in s.records)
    && forall i, j :: 0 <= i < |s.log| && 0 <= j < |s.log| ==> ServesOne(s.log, i, j)
  }

  lemma LastVerificationGrows(log: seq<Fact>, f: Fact, id: int)
    ensures LastVerification(log + [f], id)
            == if IsVerification(f) && f.id == id then Some(f) else LastVerification(log, id)
  {
    assert (log + [f])[..|log|] == log;
  }

  lemma {:induction false} NoVerification(log: seq<Fact>, id: int)
    requires forall n :: 0 <= n < |log| ==> log[n].id != id
    ensures LastVerification(log, id) == None
    decreases |log|
  {
    if log != [] {
      NoVerification(log[..|log| - 1], id);
    }
  }

  /** The latest verification is one of the log, and there is one if there is any. */
  lemma {:induction false} LastVerificationIs(log: seq<Fact>, id: int, i: int)
    requires 0 <= i < |log| && IsVerification(log[i]) && log[i].id == id
    ensures var f := LastVerification(log, id);
            f.Some? && exists j :: i <= j < |log| && log[j] == f.value && IsVerification(log[j]) && log[j].id == id
    decreases |log|
  {
    var n := |log| - 1;
    if !(IsVerification(log[n]) && log[n].id == id) {
      LastVerificationIs(log[..n], id, i);
      var j :| i <= j < n && log[..n][j] == LastVerification(log[..n], id).value;
      assert log[j] == LastVerification(log, id).value;
    } else {
      assert log[n] == LastVerification(log, id).value;
    }
  }

  lemma RowTracedKept(cfg: Config, s: State, e: Event, id: int)
    requires Traced(s) && Possible(s, e) && id in After(cfg, s, e).records
    ensures var s' := After(cfg, s, e); ShowsVerification(s'.records[id], LastVerification(s'.log, id))
  {
    hide ServesOne, LastVerification, MayRequest, After, Possible, RequestOutcome, RegisterOutcome, ChangeOutcome;
    StepShape(cfg, s, e);
    match OutcomeOf(cfg, s, e) {
      case OtpCreated(_) => RequestShape(cfg, s, e);
      case TokenIssued(_) => VerifyShape(cfg, s, e);
      case UserCreated(_) => RegisterShape(cfg, s, e);
      case PhoneSaved(_) => ChangeShape(cfg, s, e);
      case _ =>
    }
    var s' := After(cfg, s, e);
    if s'.log != s.log {
      LastVerificationGrows(s.log, s'.log[|s.log|], id);
    }
    if id !in s.records {
      NoVerification(s.log, id);
    }
  }

  /** The new fact agrees with every old one about its record: that record was not verified, or was verified by a
      change of phone of the same user with the same token. */
  lemma NewFactAgrees(cfg: Config, s: State, e: Event, i: int)
    requires Traced(s) && Possible(s, e) && 0 <= i < |s.log| && After(cfg, s, e).log != s.log
    ensures var log := After(cfg, s, e).log;
            |log| == |s.log| + 1 && ServesOne(log, i, |s.log|) && ServesOne(log, |s.log|, i)
  {
    hide LastVerification, MayRequest;
    var log := After(cfg, s, e).log;
    var f := log[|s.log|];
    assert log[i] == s.log[i];
    if IsVerification(f) && IsVerification(log[i]) && log[i].id == f.id {
      LastVerificationIs(s.log, f.id, i);
      var j :| i <= j < |s.log| && s.log[j] == LastVerification(s.log, f.id).value;
      assert ServesOne(s.log, i, j);
      assert ShowsVerification(s.records[f.id], Some(s.log[j]));
    }
  }

  /** A step keeps the log, or appends one fact, and every fact has its row. */
  lemma LogStep(cfg: Config, s: State, e: Event)
    requires Possible(s, e) && forall n :: 0 <= n < |s.log| ==> s.log[n].id in s.records
    ensures var s' := After(cfg, s, e);
            (s'.log == s.log || (|s'.log| == |s.log| + 1 && s'.log[..|s.log|] == s.log))
            && s.records.Keys <= s'.records.Keys
            && forall n :: 0 <= n < |s'.log| ==> s'.log[n].id in s'.records
  {
    hide After, Possible, MayRequest, RequestOutcome, RegisterOutcome, ChangeOutcome;
    StepShape(cfg, s, e);
    match OutcomeOf(cfg, s, e)
    case OtpCreated(_) => RequestShape(cfg, s, e);
    case TokenIssued(_) => VerifyShape(cfg, s, e);
    case UserCreated(_) => RegisterShape(cfg, s, e);
    case PhoneSaved(_) => ChangeShape(cfg, s, e);
    case _ =>
  }

  lemma TracedKept(cfg: Config, s: State, e: Event)
    requires Traced(s) && Possible(s, e)
    ensures Traced(After(cfg, s, e))
  {
    hide ShowsVerification, LastVerification, After, Possible;
    var s' := After(cfg, s, e);
    LogStep(cfg, s, e);
    forall id | id in s'.records ensures ShowsVerification(s'.records[id], LastVerification(s'.log, id)) {
      RowTracedKept(cfg, s, e, id);
    }
    forall i, j | 0 <= i < |s'.log| && 0 <= j < |s'.log| ensures ServesOne(s'.log, i, j) {
      if i < |s.log| && j < |s.log| {
        assert ServesOne(s.log, i, j);
        assert s'.log[i] == s.log[i] && s'.log[j] == s.log[j];
      } else if i < |s.log| {
        NewFactAgrees(cfg, s, e, i);
      } else if j < |s.log| {
        NewFactAgrees(cfg, s, e, j);
      }
    }
  }

  /** In every run: a record is verified exactly if a registration or change of phone was made with it, shows the
      latest one's user and time, and still holds its token if and only if that was a change of phone. All
      verifications of one record are by one user with one token, and a registration is the only one. */
  lemma {:induction false} VerifiedRecordsAreTraced(cfg: Config, es: seq<Event>)
    requires IsRun(cfg, es)
    ensures var s := RunState(cfg, es);
            Traced(s)
            && forall id :: id in s.records ==>
                 var r, f := s.records[id], LastVerification(s.log, id);
                 (r.verifiedAt.Some? <==> f.Some?)
                 && (r.verifiedAt.Some? ==> (r.token.Some? <==> f.value.PhoneChanged?))
    decreases |es|
  {
    hide After, Possible, LastVerification, ServesOne;
    if es != [] {
      var n := |es| - 1;
      VerifiedRecordsAreTraced(cfg, es[..n]);
      TracedKept(cfg, RunState(cfg, es[..n]), es[n]);
    }
  }

  /** The event marks this record as deleted: its user leaves its phone. */
  predicate Retires(s: State, e: Event, id: int)
    requires Possible(s, e)
  {
    e.ChangePhone? && ChangeOutcome(s, e).PhoneSaved? && e.former == Some(id) && id in s.records
    && s.records[id].deletedAt == None
  }

  /** What a step can do to a verified record: its user may leave the phone, which marks it deleted, or come back
      to it with the token it still holds, which sets the time again. Nothing else changes, ever. */
  lemma VerifiedRowIsFinal(cfg: Config, s: State, e: Event, id: int)
    requires TableInvariant(s) && Possible(s, e) && id in s.records && s.records[id].verifiedAt.Some?
    ensures var r, next := s.records[id], After(cfg, s, e).records;
            var restamped := e.ChangePhone? && ChangeOutcome(s, e) == PhoneSaved(id);
            id in next
            && next[id] == (if restamped then r.(verifiedAt := Some(e.now))
                            else if Retires(s, e, id) then r.(deletedAt := Some(e.now))
                            else r)
            && (restamped ==> r.token == Some(e.token) && r.userId == Some(e.owner) && r.deletedAt == None)
  {
    hide KeysUnique, BothActive, MayRequest, TokenHeldElsewhere;
  }

  predicate Free(records: Records, phone: string) {
    forall id :: id in records ==> !IsActive(records, phone, id)
  }

  /** A change of phone frees the old one for others if and only if it had no active record, or the lookup by phone
      and user answered with an undeleted one. */
  lemma FreedByAnswer(cfg: Config, s: State, e: Event)
    requires TableInvariant(s) && e.ChangePhone? && Possible(s, e) && ChangeOutcome(s, e).PhoneSaved?
    requires e.owner in s.phones
    ensures Free(After(cfg, s, e).records, s.phones[e.owner]) <==>
              Free(s.records, s.phones[e.owner]) || (e.former.Some? && s.records[e.former.value].deletedAt == None)
  {
    hide RowConsistent, AnswersPhone;
    var phone, next := s.phones[e.owner], After(cfg, s, e).records;
    forall id ensures IsActive(next, phone, id) <==>
      IsActive(s.records, phone, id) && !(e.former == Some(id) && s.records[id].deletedAt == None) {}
    if e.former.Some? && s.records[e.former.value].deletedAt == None {
      forall id | IsActive(s.records, phone, id) ensures id == e.former.value {
        assert BothActive(s.records[id], s.records[e.former.value]);
      }
    }
  }

  /** The user has records of this phone, and none of them is deleted. */
  predicate OwnUndeleted(records: Records, phone: string, user: int) {
    (exists id :: id in records && IsOwn(records, phone, user, id))
    && forall id :: id in records && IsOwn(records, phone, user, id) ==> records[id].deletedAt == None
  }

  /** Whatever the lookup of the old record answers, the phone is free afterwards. */
  ghost predicate SurelyFreed(cfg: Config, s: State, e: Event)
    requires e.ChangePhone? && Possible(s, e) && e.owner in s.phones
  {
    forall former :: AnswersOwn(s.records, s.phones, e.owner, former) ==>
      Free(After(cfg, s, e.(former := former)).records, s.phones[e.owner])
  }

  /** A change of phone is sure to free the old one for others if and only if it had no active record, or the user
      has records of it of which none is deleted: the lookup meets deleted records as well. */
  lemma OldPhoneIsFreedIff(cfg: Config, s: State, e: Event)
    requires TableInvariant(s) && e.ChangePhone? && Possible(s, e) && ChangeOutcome(s, e).PhoneSaved?
    requires e.owner in s.phones
    ensures SurelyFreed(cfg, s, e) <==>
              Free(s.records, s.phones[e.owner]) || OwnUndeleted(s.records, s.phones[e.owner], e.owner)
  {
    hide After, TableInvariant, Free;
    var phone := s.phones[e.owner];
    forall former | AnswersOwn(s.records, s.phones, e.owner, former)
      ensures Free(After(cfg, s, e.(former := former)).records, phone) <==>
                Free(s.records, phone) || (former.Some? && s.records[former.value].deletedAt == None)
    {
      FreedByAnswer(cfg, s, e.(former := former));
    }
    if SurelyFreed(cfg, s, e) && !Free(s.records, phone) {
      assert AnswersOwn(s.records, s.phones, e.owner, e.former);
      forall id | id in s.records && IsOwn(s.records, phone, e.owner, id) ensures s.records[id].deletedAt == None {
        assert AnswersOwn(s.records, s.phones, e.owner, Some(id));
      }
    }
  }

  /** Stored phones are normalised, so each is its own key, and the users of records are known. */
  ghost predicate Linked(s: State) {
    forall id :: id in s.records ==>
      NormalizePhone(s.records[id].phone) == Some(s.records[id].phone)
      && (s.records[id].userId.Some? ==> s.records[id].userId.value in s.users)
  }

  lemma UsersStay(cfg: Config, s: State, e: Event, u: int)
    requires Possible(s, e) && u in s.users
    ensures u in After(cfg, s, e).users
  {
    hide AnswersPhone, AnswersToken, AnswersOwn;
  }

  lemma RowLinked(cfg: Config, s: State, e: Event, id: int)
    requires Linked(s) && Possible(s, e) && id in After(cfg, s, e).records
    ensures var s' := After(cfg, s, e);
            NormalizePhone(s'.records[id].phone) == Some(s'.records[id].phone)
            && (s'.records[id].userId.Some? ==> s'.records[id].userId.value in s'.users)
  {
    hide NormalizePhone, MayRequest, AnswersOwn, TokenHeldElsewhere;
    if e.Request? {
      NormalizeIsIdempotent(e.phone);
    }
  }

  /** In every run a request with a stored phone meets that very record, as long as it is active. */
  lemma {:induction false} StoredPhoneFindsItself(cfg: Config, es: seq<Event>)
    requires IsRun(cfg, es)
    ensures Linked(RunState(cfg, es))
    ensures var records := RunState(cfg, es).records;
            forall id, found :: id in records && records[id].deletedAt == None
                                && AnswersPhone(records, records[id].phone, found) ==>
              found == Some(id)
    decreases |es|
  {
    hide After, Possible, NormalizePhone;
    if es != [] {
      var n := |es| - 1;
      StoredPhoneFindsItself(cfg, es[..n]);
      forall id | id in RunState(cfg, es).records
        ensures NormalizePhone(RunState(cfg, es).records[id].phone) == Some(RunState(cfg, es).records[id].phone)
        ensures RunState(cfg, es).records[id].userId.Some? ==>
                  RunState(cfg, es).records[id].userId.value in RunState(cfg, es).users
      {
        RowLinked(cfg, RunState(cfg, es[..n]), es[n], id);
      }
    }
    RunsAreRooted(cfg, es);
    var records := RunState(cfg, es).records;
    forall id, found | id in records && records[id].deletedAt == None && AnswersPhone(records, records[id].phone, found)
      ensures found == Some(id)
    {
      assert IsActive(records, records[id].phone, id);
      if found.Some? {
        assert BothActive(records[id], records[found.value]);
      }
    }
  }

  // ----- Abandoned phones -----

  /** An active verified record of a phone its user does not have any more, with no token left that has not
      expired at time t. */
  predicate Abandoned(s: State, id: int, t: int) {
    id in s.records
    && (var r := s.records[id];
        r.deletedAt == None && r.verifiedAt.Some? && r.userId.Some? && r.userId.value in s.users
        && CurrentPhone(s, r.userId.value) != Some(r.phone)
        && (r.tokenExpiresAt == None || r.tokenExpiresAt.value <= t))
  }

  /** An abandoned record is neither marked deleted nor verified again. */
  lemma AbandonedRowStays(cfg: Config, s: State, e: Event, id: int, t: int)
    requires TableInvariant(s) && Possible(s, e) && Abandoned(s, id, t) && t <= e.now
    ensures id in After(cfg, s, e).records && After(cfg, s, e).records[id] == s.records[id]
  {
    hide KeysUnique, BothActive, After;
    VerifiedRowIsFinal(cfg, s, e, id);
    if e.ChangePhone? && ChangeOutcome(s, e).PhoneSaved? {
      ChangeShape(cfg, s, e);
    }
  }

  lemma AbandonedKept(cfg: Config, s: State, e: Event, id: int, t: int)
    requires TableInvariant(s) && Possible(s, e) && Abandoned(s, id, t) && t <= e.now
    ensures Abandoned(After(cfg, s, e), id, e.now)
  {
    hide RowConsistent, AnswersPhone, AnswersOwn, MayRequest, TokenHeldElsewhere;
    AbandonedRowStays(cfg, s, e, id, t);
    var u := s.records[id].userId.value;
    UsersStay(cfg, s, e, u);
    PhoneStaysLeft(cfg, s, e, id, t);
  }

  /** Its user does not get the phone back: that would take the token. */
  lemma PhoneStaysLeft(cfg: Config, s: State, e: Event, id: int, t: int)
    requires TableInvariant(s) && Possible(s, e) && Abandoned(s, id, t) && t <= e.now
    ensures var r := s.records[id]; CurrentPhone(After(cfg, s, e), r.userId.value) != Some(r.phone)
  {
    hide AnswersPhone, AnswersOwn, MayRequest, TokenHeldElsewhere, KeysUnique;
    if e.ChangePhone? && ChangeOutcome(s, e).PhoneSaved? {
      ChangeShape(cfg, s, e);
      TokenIsElsewhere(s, e.found.value, id, e.token, e.now);
    }
  }

  lemma SameRow(s: State, i: int, j: int)
    requires TableInvariant(s) && i in s.records && j in s.records && BothActive(s.records[i], s.records[j])
    ensures i == j
  {}

  lemma TokenIsElsewhere(s: State, row: int, id: int, token: string, t: int)
    requires TableInvariant(s) && HoldsToken(s.records, token, t, row) && Abandoned(s, id, t)
    ensures s.records[row].phone != s.records[id].phone
  {
    hide KeysUnique;
    if s.records[row].phone == s.records[id].phone {
      SameRow(s, row, id);
    }
  }

  /** Once abandoned, a phone is taken for good: in every later state of every run the record is still there, and
      whoever asks for a code for this phone is told that it already exists. */
  lemma {:induction false} AbandonedPhoneIsTaken(cfg: Config, es: seq<Event>, n: nat, id: int)
    requires IsRun(cfg, es) && 0 < n <= |es| && IsRun(cfg, es[..n])
    requires Abandoned(RunState(cfg, es[..n]), id, es[n - 1].now)
    ensures Abandoned(RunState(cfg, es), id, es[|es| - 1].now)
    ensures var s := RunState(cfg, es);
            s.records[id].phone == RunState(cfg, es[..n]).records[id].phone
            && forall e: Event ::
                 e.Request? && Possible(s, e) && NormalizePhone(e.phone) == Some(s.records[id].phone) ==>
                 RequestOutcome(cfg, s, e) == PhoneAlreadyExists
    decreases |es|
  {
    hide After, NormalizePhone, TableInvariant, Abandoned;
    if n == |es| {
      assert es[..n] == es;
    } else {
      var m := |es| - 1;
      assert es[..m][..n] == es[..n] && es[..m][n - 1] == es[n - 1];
      AbandonedPhoneIsTaken(cfg, es[..m], n, id);
      RunsAreRooted(cfg, es[..m]);
      AbandonedKept(cfg, RunState(cfg, es[..m]), es[m], id, es[m - 1].now);
      AbandonedRowStays(cfg, RunState(cfg, es[..m]), es[m], id, es[m - 1].now);
    }
    var s := RunState(cfg, es);
    AbandonedIsActive(s, id, es[|es| - 1].now);
    forall e: Event | e.Request? && Possible(s, e) && NormalizePhone(e.phone) == Some(s.records[id].phone)
      ensures RequestOutcome(cfg, s, e) == PhoneAlreadyExists
    {
      if e.found.Some? {
        SameActive(cfg, es, s.records[id].phone, id, e.found.value);
      }
    }
  }

  lemma AbandonedIsActive(s: State, id: int, t: int)
    requires Abandoned(s, id, t)
    ensures id in s.records && IsActive(s.records, s.records[id].phone, id) && s.records[id].verifiedAt.Some?
  {}

  /** From being verified on, over every run, a record keeps its phone, user, code, counter and token; one whose
      token was taken by a registration also keeps its time. */
  lemma {:induction false} VerifiedRowStays(cfg: Config, es: seq<Event>, n: nat, id: int)
    requires IsRun(cfg, es) && n <= |es| && IsRun(cfg, es[..n])
    requires var s := RunState(cfg, es[..n]); id in s.records && s.records[id].verifiedAt.Some?
    ensures var r, q := RunState(cfg, es[..n]).records[id], RunState(cfg, es).records;
            id in q && q[id].verifiedAt.Some?
            && q[id].(verifiedAt := r.verifiedAt, deletedAt := r.deletedAt) == r
            && (r.token == None ==> q[id].verifiedAt == r.verifiedAt)
    decreases |es|
  {
    hide After, Possible, TableInvariant;
    if n == |es| {
      assert es[..n] == es;
    } else {
      var m := |es| - 1;
      assert es[..m][..n] == es[..n];
      VerifiedRowStays(cfg, es[..m], n, id);
      RunsAreRooted(cfg, es[..m]);
      VerifiedRowIsFinal(cfg, RunState(cfg, es[..m]), es[m], id);
    }
  }

  // ----- The request limiter -----

  /** When codes were sent for a record. */
  function Times(log: seq<Fact>, id: int): seq<int> {
    if log == [] then []
    else
      var f := log[|log| - 1];
      Times(log[..|log| - 1], id) + if f.Requested? && f.id == id then [f.at] else []
  }

  /** Length of the current burst: the longest suffix with gaps of at most w. */
  function Burst(times: seq<int>, w: int): nat {
    var n := |times|;
    if n <= 1 then n
    else if times[n - 1] - times[n - 2] <= w then Burst(times[..n - 1], w) + 1
    else 1
  }

  predicate Sorted(times: seq<int>) {
    forall i, j :: 0 <= i < j < |times| ==> times[i] <= times[j]
  }

  /** No burst was ever longer than m. */
  predicate BurstsWithin(times: seq<int>, w: int, m: int) {
    times == [] || (Burst(times, w) <= m && BurstsWithin(times[..|times| - 1], w, m))
  }

  function CountIn(times: seq<int>, a: int, b: int): nat {
    if times == [] then 0
    else CountIn(times[..|times| - 1], a, b) + if a <= times[|times| - 1] <= b then 1 else 0
  }

  lemma {:induction false} NoneBefore(times: seq<int>, a: int, b: int)
    requires Sorted(times) && (times != [] ==> times[|times| - 1] < a)
    ensures CountIn(times, a, b) == 0
    decreases |times|
  {
    if times != [] {
      NoneBefore(times[..|times| - 1], a, b);
    }
  }

  /** An interval of length at most w that reaches the last element lies within the current burst. */
  lemma {:induction false} IntervalInBurst(times: seq<int>, w: int, a: int, b: int)
    requires Sorted(times) && times != [] && b - a <= w && a <= times[|times| - 1] <= b
    ensures CountIn(times, a, b) <= Burst(times, w)
    decreases |times|
  {
    var n := |times|;
    var prefix := times[..n - 1];
    if n > 1 && a <= times[n - 2] {
      IntervalInBurst(prefix, w, a, b);
    } else {
      NoneBefore(prefix, a, b);
    }
  }

  lemma {:induction false} IntervalWithin(times: seq<int>, w: int, m: nat, a: int, b: int)
    requires Sorted(times) && BurstsWithin(times, w, m) && b - a <= w
    ensures CountIn(times, a, b) <= m
    decreases |times|
  {
    if times != [] {
      if a <= times[|times| - 1] <= b {
        IntervalInBurst(times, w, a, b);
      } else {
        IntervalWithin(times[..|times| - 1], w, m, a, b);
      }
    }
  }

  function Quota(cfg: Config): nat {
    Max(1, cfg.maxRequests)
  }

  /** The stored counter is the length of the current burst of this record, and the quota bounds all bursts. */
  predicate RowLimited(cfg: Config, times: seq<int>, r: OtpRequest, t: int) {
    times != [] && Sorted(times) && times[|times| - 1] == r.lastRequestAt <= t
    && r.requestCount == Burst(times, cfg.Window()) && BurstsWithin(times, cfg.Window(), Quota(cfg))
  }

  predicate Limited(cfg: Config, s: State, t: int) {
    (forall id :: id in s.records ==> RowLimited(cfg, Times(s.log, id), s.records[id], t))
    && forall n :: 0 <= n < |s.log| && s.log[n].Requested? ==> s.log[n].id in s.records
  }

  lemma {:induction false} NoTimes(log: seq<Fact>, id: int)
    requires forall n :: 0 <= n < |log| && log[n].Requested? ==> log[n].id != id
    ensures Times(log, id) == []
    decreases |log|
  {
    if log != [] {
      NoTimes(log[..|log| - 1], id);
    }
  }

  lemma TimesGrow(log: seq<Fact>, f: Fact, id: int)
    ensures Times(log + [f], id) == Times(log, id) + if f.Requested? && f.id == id then [f.at] else []
  {
    assert (log + [f])[..|log|] == log;
  }

  /** Sending one more code extends the burst, or starts a new one, as the counter does. */
  lemma RowLimitedAfterRequest(cfg: Config, times: seq<int>, r: OtpRequest, otp: string, t: int, now: int)
    requires RowLimited(cfg, times, r, t) && t <= now && MayRequest(cfg, r, now)
    ensures RowLimited(cfg, times + [now], Renewed(cfg, r, otp, now), now)
  {
    var more := times + [now];
    assert more[..|times|] == times;
    assert Burst(more, cfg.Window()) == Renewed(cfg, r, otp, now).requestCount;
  }

  lemma FirstRequestLimited(cfg: Config, phone: string, otp: string, now: int)
    ensures RowLimited(cfg, [now], Fresh(cfg, phone, otp, now), now)
  {
    assert BurstsWithin([now][..0], cfg.Window(), Quota(cfg));
  }

  lemma RowLimitedKept(cfg: Config, s: State, e: Event, t: int, id: int)
    requires Possible(s, e) && Limited(cfg, s, t) && t <= e.now && id in After(cfg, s, e).records
    ensures var s' := After(cfg, s, e); RowLimited(cfg, Times(s'.log, id), s'.records[id], e.now)
  {
    hide Burst, BurstsWithin, Times, Sorted, After, Possible, RegisterOutcome, ChangeOutcome;
    StepShape(cfg, s, e);
    match OutcomeOf(cfg, s, e) {
      case OtpCreated(_) => RequestShape(cfg, s, e);
      case TokenIssued(_) => VerifyShape(cfg, s, e);
      case UserCreated(_) => RegisterShape(cfg, s, e);
      case PhoneSaved(_) => ChangeShape(cfg, s, e);
      case _ =>
    }
    var s' := After(cfg, s, e);
    if s'.log != s.log {
      TimesGrow(s.log, s'.log[|s.log|], id);
    }
    if id !in s.records {
      NoTimes(s.log, id);
      assert Times(s'.log, id) == [e.now];
      FirstRequestLimited(cfg, NormalizePhone(e.phone).value, e.otp, e.now);
    } else {
      assert RowLimited(cfg, Times(s.log, id), s.records[id], t);
      if e.Request? && RequestOutcome(cfg, s, e) == OtpCreated(id) {
        RowLimitedAfterRequest(cfg, Times(s.log, id), s.records[id], e.otp, t, e.now);
      } else {
        assert Times(s'.log, id) == Times(s.log, id);
      }
    }
  }

  lemma LimitedKept(cfg: Config, s: State, e: Event, t: int)
    requires Possible(s, e) && Limited(cfg, s, t) && t <= e.now
    ensures Limited(cfg, After(cfg, s, e), e.now)
  {
    hide RowLimited, Times, MayRequest, AnswersPhone, AnswersToken, AnswersOwn, TokenHeldElsewhere;
    var s' := After(cfg, s, e);
    forall id | id in s'.records ensures RowLimited(cfg, Times(s'.log, id), s'.records[id], e.now) {
      RowLimitedKept(cfg, s, e, t, id);
    }
  }

  lemma {:induction false} RunsAreLimited(cfg: Config, es: seq<Event>)
    requires IsRun(cfg, es)
    ensures Limited(cfg, RunState(cfg, es), if es == [] then 0 else es[|es| - 1].now)
    decreases |es|
  {
    hide After, RowLimited, Possible;
    if es != [] {
      var n := |es| - 1;
      RunsAreLimited(cfg, es[..n]);
      assert n > 0 ==> es[..n][|es[..n]| - 1] == es[n - 1];
      LimitedKept(cfg, RunState(cfg, es[..n]), es[n], if n > 0 then es[n - 1].now else es[n].now);
    }
  }

  /** In every run and every closed interval of window length, at most `maxRequests` codes (one, if the
      setting is smaller) are sent for a record. */
  lemma RequestBound(cfg: Config, es: seq<Event>, id: int, a: int, b: int)
    requires IsRun(cfg, es) && b - a <= cfg.windowMinutes * 60_000
    ensures CountIn(Times(RunState(cfg, es).log, id), a, b) <= if cfg.maxRequests < 1 then 1 else cfg.maxRequests
  {
    RunsAreLimited(cfg, es);
    var s := RunState(cfg, es);
    if id in s.records {
      IntervalWithin(Times(s.log, id), cfg.Window(), Quota(cfg), a, b);
    } else {
      NoTimes(s.log, id);
    }
  }

  /** How many codes were sent for any of these records in a closed interval. */
  function CodesFor(log: seq<Fact>, ids: set<int>, a: int, b: int): nat {
    if log == [] then 0
    else
      var f := log[|log| - 1];
      CodesFor(log[..|log| - 1], ids, a, b) + if f.Requested? && f.id in ids && a <= f.at <= b then 1 else 0
  }

  lemma CountAppend(times: seq<int>, t: int, a: int, b: int)
    ensures CountIn(times + [t], a, b) == CountIn(times, a, b) + if a <= t <= b then 1 else 0
  {
    assert (times + [t])[..|times|] == times;
  }

  lemma {:induction false} CodesForOneMore(log: seq<Fact>, ids: set<int>, id: int, a: int, b: int)
    requires id in ids
    ensures CodesFor(log, ids, a, b) == CodesFor(log, ids - {id}, a, b) + CountIn(Times(log, id), a, b)
    decreases |log|
  {
    if log != [] {
      var n := |log| - 1;
      CodesForOneMore(log[..n], ids, id, a, b);
      CountAppend(Times(log[..n], id), log[n].at, a, b);
      hide CountIn;
      assert Times(log[..n], id) + [] == Times(log[..n], id);
    }
  }

  lemma {:induction false} CodesForNone(log: seq<Fact>, a: int, b: int)
    ensures CodesFor(log, {}, a, b) == 0
  {
    if log != [] {
      CodesForNone(log[..|log| - 1], a, b);
    }
  }

  lemma {:induction false} CodesForBound(cfg: Config, es: seq<Event>, ids: set<int>, a: int, b: int)
    requires IsRun(cfg, es) && b - a <= cfg.Window()
    ensures CodesFor(RunState(cfg, es).log, ids, a, b) <= |ids| * Quota(cfg)
    decreases ids
  {
    var log := RunState(cfg, es).log;
    if exists id :: id in ids {
      var id :| id in ids;
      CodesForBound(cfg, es, ids - {id}, a, b);
      CodesForOneMore(log, ids, id, a, b);
      RequestBound(cfg, es, id, a, b);
      assert |ids| * Quota(cfg) == |ids - {id}| * Quota(cfg) + Quota(cfg);
    } else {
      assert ids == {};
      CodesForNone(log, a, b);
    }
  }

  /** The records of a phone, deleted ones included. */
  function RecordsOf(records: Records, phone: string): set<int> {
    set id | id in records && records[id].phone == phone
  }

  /** Per phone, a limit's worth for each record it ever had: a new record starts a new count. */
  lemma PhoneBound(cfg: Config, es: seq<Event>, phone: string, a: int, b: int)
    requires IsRun(cfg, es) && b - a <= cfg.Window()
    ensures var s := RunState(cfg, es);
            CodesFor(s.log, RecordsOf(s.records, phone), a, b) <= |RecordsOf(s.records, phone)| * Quota(cfg)
  {
    CodesForBound(cfg, es, RecordsOf(RunState(cfg, es).records, phone), a, b);
  }

  // ----- The reported wait -----

  /** The event sends a code to this phone. */
  predicate Accepts(cfg: Config, s: State, e: Event, key: string)
    requires Possible(s, e)
  {
    e.Request? && NormalizePhone(e.phone) == Some(key) && RequestOutcome(cfg, s, e).OtpCreated?
  }

  /** Events m up to n of the run send no code to this phone. */
  ghost predicate NoneAccepted(cfg: Config, es: seq<Event>, key: string, m: nat, n: nat)
    requires IsRun(cfg, es)
  {
    forall i :: m <= i < n && i < |es| && IsRun(cfg, es[..i]) && Possible(RunState(cfg, es[..i]), es[i]) ==>
      !Accepts(cfg, RunState(cfg, es[..i]), es[i], key)
  }

  lemma {:induction false} EventPossible(cfg: Config, es: seq<Event>, i: nat)
    requires IsRun(cfg, es) && i < |es|
    ensures IsRun(cfg, es[..i]) && Possible(RunState(cfg, es[..i]), es[i])
    decreases |es|
  {
    var m := |es| - 1;
    if i < m {
      EventPossible(cfg, es[..m], i);
      assert es[..m][..i] == es[..i] && es[..m][i] == es[i];
    }
  }

  /** A step that sends no code to a phone makes no record of it active and leaves its counter and clock alone. */
  lemma QuietStep(cfg: Config, s: State, e: Event, key: string, id: int)
    requires Possible(s, e) && !Accepts(cfg, s, e, key) && IsActive(After(cfg, s, e).records, key, id)
    ensures IsActive(s.records, key, id)
    ensures var r, q := s.records[id], After(cfg, s, e).records[id];
            q.lastRequestAt == r.lastRequestAt && q.requestCount == r.requestCount
  {}

  lemma {:induction false} QuietRun(cfg: Config, es: seq<Event>, key: string, n: nat, id: int)
    requires IsRun(cfg, es) && n <= |es| && IsRun(cfg, es[..n]) && NoneAccepted(cfg, es, key, n, |es|)
    requires IsActive(RunState(cfg, es).records, key, id)
    ensures IsActive(RunState(cfg, es[..n]).records, key, id)
    ensures var r, q := RunState(cfg, es[..n]).records[id], RunState(cfg, es).records[id];
            q.lastRequestAt == r.lastRequestAt && q.requestCount == r.requestCount
    decreases |es|
  {
    hide After, Possible, Accepts, IsActive;
    if n == |es| {
      assert es[..n] == es;
    } else {
      var m := |es| - 1;
      EventPossible(cfg, es, m);
      assert !Accepts(cfg, RunState(cfg, es[..m]), es[m], key);
      QuietStep(cfg, RunState(cfg, es[..m]), es[m], key, id);
      forall i | n <= i < m && IsRun(cfg, es[..m][..i]) && Possible(RunState(cfg, es[..m][..i]), es[..m][i])
        ensures !Accepts(cfg, RunState(cfg, es[..m][..i]), es[..m][i], key)
      {
        assert es[..m][..i] == es[..i] && es[..m][i] == es[i];
      }
      assert es[..m][..n] == es[..n];
      QuietRun(cfg, es[..m], key, n, id);
    }
  }

  lemma WaitArithmetic(cfg: Config, r: OtpRequest, now: int, later: int)
    requires !MayRequest(cfg, r, now)
    ensures var wait := 60_000 * MinutesRemaining(cfg, r, now);
            (later > now + wait ==> MayRequest(cfg, r, later))
            && (later == now + wait ==>
                  (MayRequest(cfg, r, later) <==> (r.lastRequestAt + cfg.Window() - now) % 60_000 != 0))
  {
    var left := r.lastRequestAt + cfg.Window() - now;
    assert 60_000 * CeilDiv(left, 60_000) >= left;
    assert 60_000 * CeilDiv(left, 60_000) == left <==> left % 60_000 == 0;
  }

  /** A caller refused as event n of a run asks again as its last event, whatever happened in between except a
      code sent to that phone. If more than the reported minutes have passed, the caller is served, unless the
      record was verified meanwhile. After exactly the reported minutes the caller is refused again if and only
      if the record is still there, unverified, and the rest of the window was a whole number of minutes. */
  lemma ReportedWaitIsEnough(cfg: Config, es: seq<Event>, n: nat, key: string)
    requires IsRun(cfg, es) && n < |es| - 1 && IsRun(cfg, es[..n]) && Possible(RunState(cfg, es[..n]), es[n])
    requires es[n].Request? && NormalizePhone(es[n].phone) == Some(key)
    requires RequestOutcome(cfg, RunState(cfg, es[..n]), es[n]).TooManyRequests?
    requires NoneAccepted(cfg, es[..|es| - 1], key, n, |es| - 1)
    requires es[|es| - 1].Request? && NormalizePhone(es[|es| - 1].phone) == Some(key)
    ensures var first, s, again := es[n], RunState(cfg, es[..|es| - 1]), es[|es| - 1];
            var r := RunState(cfg, es[..n]).records[first.found.value];
            var wait := 60_000 * RequestOutcome(cfg, RunState(cfg, es[..n]), first).minutes;
            var verified := again.found.Some? && s.records[again.found.value].verifiedAt.Some?;
            (again.now > first.now + wait ==>
               if verified then RequestOutcome(cfg, s, again) == PhoneAlreadyExists
               else RequestOutcome(cfg, s, again).OtpCreated?)
            && (again.now == first.now + wait ==>
                  (RequestOutcome(cfg, s, again).TooManyRequests? <==>
                     again.found.Some? && !verified && (r.lastRequestAt + cfg.Window() - first.now) % 60_000 == 0))
  {
    hide After, IsRun, RunState, NoneAccepted;
    var m := |es| - 1;
    var first, again := es[n], es[m];
    EventPossible(cfg, es, m);
    if again.found.Some? {
      assert es[..m][..n] == es[..n];
      QuietRun(cfg, es[..m], key, n, again.found.value);
      SameActive(cfg, es[..n], key, first.found.value, again.found.value);
      WaitArithmetic(cfg, RunState(cfg, es[..n]).records[first.found.value], first.now, again.now);
    }
  }

  lemma SameActive(cfg: Config, es: seq<Event>, key: string, i: int, j: int)
    requires IsRun(cfg, es)
    requires IsActive(RunState(cfg, es).records, key, i) && IsActive(RunState(cfg, es).records, key, j)
    ensures i == j
  {
    hide After, Possible, RunState, IsRun;
    RunsAreRooted(cfg, es);
    assert BothActive(RunState(cfg, es).records[i], RunState(cfg, es).records[j]);
  }

  // ----- Examples -----

  /** One more possible event makes a longer run. */
  lemma Extend(cfg: Config, es: seq<Event>, e: Event)
    requires IsRun(cfg, es) && Possible(RunState(cfg, es), e) && (es != [] ==> es[|es| - 1].now <= e.now)
    ensures IsRun(cfg, es + [e]) && RunState(cfg, es + [e]) == After(cfg, RunState(cfg, es), e)
  {
    assert (es + [e])[..|es|] == es;
  }

  lemma ShortPhones()
    ensures NormalizePhone("+1") == Some("+1") && NormalizePhone("+2") == Some("+2")
    ensures NormalizePhone("+3") == Some("+3") && NormalizePhone("") == None
  {
    ShortPhone('1');
    ShortPhone('2');
    ShortPhone('3');
    assert "+" + ['1'] == "+1" && "+" + ['2'] == "+2" && "+" + ['3'] == "+3";
  }

  lemma ShortPhone(digit: char)
    requires IsDigit(digit)
    ensures NormalizePhone("+" + [digit]) == Some("+" + [digit])
  {
    var s := "+" + [digit];
    assert s[1..] == [digit] && [digit][1..] == "";
    assert Cleaned([digit]) == [digit] && Cleaned(s) == s;
  }

  /** With one code per 15 minutes: a code, a refusal at the same instant that reports 15 minutes, and a refusal
      15 minutes later. */
  lemma ExactWaitMayBeRefused()
    ensures var cfg := Config(1, 15, 1);
            var first := [Request("+1", "a", None, 1, 0)];
            var refused, again := Request("+1", "b", Some(1), 2, 0), Request("+1", "c", Some(1), 2, 900_000);
            IsRun(cfg, first + [refused] + [again])
            && RequestOutcome(cfg, RunState(cfg, first), refused) == TooManyRequests(15)
            && RequestOutcome(cfg, RunState(cfg, first + [refused]), again).TooManyRequests?
  {
    var cfg := Config(1, 15, 1);
    var e1 := Request("+1", "a", None, 1, 0);
    var e2, e3 := Request("+1", "b", Some(1), 2, 0), Request("+1", "c", Some(1), 2, 900_000);
    ShortPhones();
    Extend(cfg, [], e1);
    assert [] + [e1] == [e1];
    assert RunState(cfg, [e1]).records == map[1 := Fresh(cfg, "+1", "a", 0)];
    Extend(cfg, [e1], e2);
    assert RunState(cfg, [e1] + [e2]) == RunState(cfg, [e1]);
    Extend(cfg, [e1] + [e2], e3);
  }

  lemma RunOfTwo(cfg: Config, es: seq<Event>, e1: Event, e2: Event)
    requires IsRun(cfg, es) && Possible(RunState(cfg, es), e1) && (es != [] ==> es[|es| - 1].now <= e1.now)
    requires Possible(After(cfg, RunState(cfg, es), e1), e2) && e1.now <= e2.now
    ensures IsRun(cfg, es + [e1, e2])
    ensures RunState(cfg, es + [e1, e2]) == After(cfg, After(cfg, RunState(cfg, es), e1), e2)
  {
    hide After, Possible;
    Extend(cfg, es, e1);
    Extend(cfg, es + [e1], e2);
    assert es + [e1] + [e2] == es + [e1, e2];
  }

  /** User 5 registers with phone +1. */
  function Registration(): seq<Event> {
    [Request("+1", "a", None, 1, 0), Verify("+1", "a", "s", Some(1), 1), Register("s", "mail", Some(1), 5, 2)]
  }

  lemma RegistrationRun(cfg: Config)
    requires cfg.expiryMinutes >= 1
    ensures IsRun(cfg, Registration())
    ensures var s := RunState(cfg, Registration());
            s.users == map[5 := "mail"] && s.phones == map[5 := "+1"]
            && s.records == map[1 := OtpRequest("+1", "a", 1, 0, cfg.Expiry(), Some(2), Some(5), None, None, None)]
  {
    hide IsRun, RunState;
    var es := Registration();
    ShortPhones();
    EmptyRun(cfg);
    RunOfTwo(cfg, [], es[0], es[1]);
    assert [] + [es[0], es[1]] == es[..2];
    Extend(cfg, es[..2], es[2]);
    assert es[..2] + [es[2]] == es;
  }

  lemma EmptyRun(cfg: Config)
    ensures IsRun(cfg, []) && RunState(cfg, []) == INITIAL
  {}

  /** User 5 changes to a phone by a new record, in three events from time t on. */
  function Change(phone: string, token: string, row: int, former: Option<int>, t: int): seq<Event> {
    [Request(phone, "b", None, row, t), Verify(phone, "b", token, Some(row), t + 1),
     ChangePhone(5, phone, token, Some(row), former, t + 2)]
  }

  /** That is possible if the phone is a new one for the user, free, and the token unused. */
  ghost predicate MayChange(s: State, phone: string, token: string, row: int, former: Option<int>) {
    NormalizePhone(phone) == Some(phone) && phone != "" && token != ""
    && 5 in s.users && 5 in s.phones && s.phones[5] != phone && row !in s.records
    && (forall id :: !IsActive(s.records, phone, id)) && !TokenInUse(s.records, token)
    && AnswersOwn(s.records, s.phones, 5, former)
  }

  function ChangedRow(cfg: Config, phone: string, token: string, t: int): OtpRequest {
    OtpRequest(phone, "b", 1, t, t + cfg.Expiry(), Some(t + 2), Some(5), Some(token),
               Some(t + 1 + TOKEN_LIFETIME), None)
  }

  lemma CodeAndToken(cfg: Config, s: State, phone: string, token: string, row: int, former: Option<int>, t: int)
    requires cfg.expiryMinutes >= 1 && MayChange(s, phone, token, row, former)
    ensures var es := Change(phone, token, row, former, t);
            var q := Fresh(cfg, phone, "b", t).(token := Some(token), tokenExpiresAt := Some(t + 1 + TOKEN_LIFETIME));
            Possible(s, es[0]) && Possible(After(cfg, s, es[0]), es[1])
            && var s2 := After(cfg, After(cfg, s, es[0]), es[1]);
               s2 == s.(records := s.records[row := q], log := s2.log)
  {
    hide MayRequest, AnswersOwn;
    var es := Change(phone, token, row, former, t);
    var s1 := After(cfg, s, es[0]);
    assert s1.records == s.records[row := Fresh(cfg, phone, "b", t)];
    assert !TokenHeldElsewhere(s1.records, token, row);
  }

  lemma ChangeStep(cfg: Config, s: State, s2: State, phone: string, token: string, row: int, former: Option<int>,
                   t: int)
    requires MayChange(s, phone, token, row, former)
    requires var q := Fresh(cfg, phone, "b", t).(token := Some(token), tokenExpiresAt := Some(t + 1 + TOKEN_LIFETIME));
             s2 == s.(records := s.records[row := q], log := s2.log)
    ensures var e := Change(phone, token, row, former, t)[2];
            Possible(s2, e)
            && After(cfg, s2, e).records
               == WithoutFormer(s.records, former, t + 2)[row := ChangedRow(cfg, phone, token, t)]
            && After(cfg, s2, e).phones == s.phones[5 := phone] && After(cfg, s2, e).users == s.users
  {
    hide MayRequest, AnswersPhone;
    var e := Change(phone, token, row, former, t)[2];
    assert After(cfg, s2, e).records
           == WithoutFormer(s.records, former, t + 2)[row := ChangedRow(cfg, phone, token, t)];
  }

  lemma ChangeRun(cfg: Config, es: seq<Event>, phone: string, token: string, row: int, former: Option<int>, t: int)
    requires cfg.expiryMinutes >= 1 && IsRun(cfg, es) && es != [] && es[|es| - 1].now <= t
    requires MayChange(RunState(cfg, es), phone, token, row, former)
    ensures var more, s := es + Change(phone, token, row, former, t), RunState(cfg, es);
            IsRun(cfg, more) && more[|more| - 1].now == t + 2
            && RunState(cfg, more).records
               == WithoutFormer(s.records, former, t + 2)[row := ChangedRow(cfg, phone, token, t)]
            && RunState(cfg, more).phones == s.phones[5 := phone] && RunState(cfg, more).users == s.users
  {
    hide IsRun, RunState, After, Possible, MayChange;
    var s, c := RunState(cfg, es), Change(phone, token, row, former, t);
    CodeAndToken(cfg, s, phone, token, row, former, t);
    RunOfTwo(cfg, es, c[0], c[1]);
    ChangeStep(cfg, s, After(cfg, After(cfg, s, c[0]), c[1]), phone, token, row, former, t);
    Extend(cfg, es + [c[0], c[1]], c[2]);
    assert es + [c[0], c[1]] + [c[2]] == es + c;
  }

  /** User 5 moves from +1 to +2. */
  function Moved(): seq<Event> {
    Registration() + Change("+2", "t", 2, Some(1), 3)
  }

  lemma MovedRun(cfg: Config)
    requires cfg.expiryMinutes >= 1
    ensures IsRun(cfg, Moved()) && Moved() != [] && Moved()[|Moved()| - 1].now == 5
    ensures var s := RunState(cfg, Moved());
            var r := OtpRequest("+1", "a", 1, 0, cfg.Expiry(), Some(2), Some(5), None, None, Some(5));
            s.records == map[1 := r, 2 := ChangedRow(cfg, "+2", "t", 3)]
            && s.users == map[5 := "mail"] && s.phones == map[5 := "+2"]
  {
    hide IsRun, RunState, MayChange, WithoutFormer;
    RegistrationRun(cfg);
    var r := OtpRequest("+1", "a", 1, 0, cfg.Expiry(), Some(2), Some(5), None, None, None);
    MoveOff(cfg, RunState(cfg, Registration()), r);
    ChangeRun(cfg, Registration(), "+2", "t", 2, Some(1), 3);
  }

  lemma MoveOff(cfg: Config, s: State, r: OtpRequest)
    requires s.records == map[1 := r] && 5 in s.users && s.phones == map[5 := "+1"]
    requires r.phone == "+1" && r.userId == Some(5) && r.token == None && r.deletedAt == None
    ensures MayChange(s, "+2", "t", 2, Some(1))
    ensures var q := ChangedRow(cfg, "+2", "t", 3);
            WithoutFormer(s.records, Some(1), 5)[2 := q] == map[1 := r.(deletedAt := Some(5)), 2 := q]
  {
    ShortPhones();
    hide NormalizePhone;
    assert s.records[1] == r;
  }

  /** The user clears the phone, and sets it again with the same token. */
  function Comeback(): seq<Event> {
    [ChangePhone(5, "", "", None, Some(2), 6), ChangePhone(5, "+2", "t", Some(2), None, 7)]
  }

  /** After a change of phone the record is verified and still holds its token, and the same user can change to it
      once more with that token: for changes of phone a token is not one-time. */
  lemma PhoneChangeKeepsItsToken(cfg: Config)
    requires cfg.expiryMinutes >= 1
    ensures IsRun(cfg, Moved()) && IsRun(cfg, Moved() + Comeback())
    ensures var r, q := RunState(cfg, Moved()).records, RunState(cfg, Moved() + Comeback()).records;
            2 in r && 2 in q && r[2].verifiedAt == Some(5) && q[2].verifiedAt == Some(7)
            && r[2].token == q[2].token == Some("t")
  {
    hide IsRun, RunState;
    ShortPhones();
    MovedRun(cfg);
    RunOfTwo(cfg, Moved(), Comeback()[0], Comeback()[1]);
  }

  /** The user moves back to +1, by record 3, and on to +3, when the lookup answers with record 1. */
  function MovedBack(): seq<Event> {
    Moved() + Change("+1", "u", 3, Some(2), 6)
  }

  function MovedOn(): seq<Event> {
    MovedBack() + Change("+3", "v", 4, Some(1), 9)
  }

  lemma MovedBackRun(cfg: Config)
    requires cfg.expiryMinutes >= 1
    ensures IsRun(cfg, MovedBack()) && MovedBack() != [] && MovedBack()[|MovedBack()| - 1].now == 8
    ensures var s := RunState(cfg, MovedBack());
            var r := OtpRequest("+1", "a", 1, 0, cfg.Expiry(), Some(2), Some(5), None, None, Some(5));
            s.records == map[1 := r, 2 := ChangedRow(cfg, "+2", "t", 3).(deletedAt := Some(8)),
                             3 := ChangedRow(cfg, "+1", "u", 6)]
            && s.users == map[5 := "mail"] && s.phones == map[5 := "+1"]
  {
    hide IsRun, RunState, MayChange, WithoutFormer, ChangedRow, Moved;
    MovedRun(cfg);
    var r := OtpRequest("+1", "a", 1, 0, cfg.Expiry(), Some(2), Some(5), None, None, Some(5));
    MoveBack(cfg, RunState(cfg, Moved()), r);
    assert MovedBack() == Moved() + Change("+1", "u", 3, Some(2), 6);
    ChangeRun(cfg, Moved(), "+1", "u", 3, Some(2), 6);
  }

  lemma MoveBack(cfg: Config, s: State, r: OtpRequest)
    requires s.records == map[1 := r, 2 := ChangedRow(cfg, "+2", "t", 3)] && 5 in s.users && s.phones == map[5 := "+2"]
    requires r.phone == "+1" && r.token == None && r.deletedAt.Some?
    ensures MayChange(s, "+1", "u", 3, Some(2))
    ensures var q := ChangedRow(cfg, "+1", "u", 6);
            WithoutFormer(s.records, Some(2), 8)[3 := q]
            == map[1 := r, 2 := ChangedRow(cfg, "+2", "t", 3).(deletedAt := Some(8)), 3 := q]
  {
    ShortPhones();
    hide NormalizePhone;
    assert s.records[1] == r && s.records[2] == ChangedRow(cfg, "+2", "t", 3);
    assert "t" != "u";
  }

  /** In this run the user's phone is +3, and +1, which nobody has, still has an active verified record. */
  lemma OldPhoneMayStayBlocked(cfg: Config)
    requires cfg.expiryMinutes >= 1
    ensures IsRun(cfg, MovedOn())
    ensures var s := RunState(cfg, MovedOn());
            s.phones == map[5 := "+3"] && IsActive(s.records, "+1", 3) && s.records[3].verifiedAt.Some?
            && Abandoned(s, 3, 7 + TOKEN_LIFETIME)
  {
    hide IsRun, RunState, MayChange, WithoutFormer, MovedBack;
    MovedBackRun(cfg);
    var r := OtpRequest("+1", "a", 1, 0, cfg.Expiry(), Some(2), Some(5), None, None, Some(5));
    MoveOn(cfg, RunState(cfg, MovedBack()), r);
    assert MovedOn() == MovedBack() + Change("+3", "v", 4, Some(1), 9);
    ChangeRun(cfg, MovedBack(), "+3", "v", 4, Some(1), 9);
  }

  lemma MoveOn(cfg: Config, s: State, r: OtpRequest)
    requires s.records == map[1 := r, 2 := ChangedRow(cfg, "+2", "t", 3).(deletedAt := Some(8)),
                              3 := ChangedRow(cfg, "+1", "u", 6)]
    requires 5 in s.users && s.phones == map[5 := "+1"]
    requires r.phone == "+1" && r.userId == Some(5) && r.token == None && r.deletedAt.Some?
    ensures MayChange(s, "+3", "v", 4, Some(1)) && WithoutFormer(s.records, Some(1), 11) == s.records
  {
    ShortPhones();
    hide NormalizePhone;
    assert s.records[1] == r && s.records[3] == ChangedRow(cfg, "+1", "u", 6);
    assert s.records[2] == ChangedRow(cfg, "+2", "t", 3).(deletedAt := Some(8));
    assert "t" != "v" && "u" != "v";
  }

  lemma {:induction false} LastCounts(times: seq<int>, a: int, b: int)
    requires times != [] && a <= times[|times| - 1] <= b
    ensures CountIn(times, a, b) >= 1
  {}

  /** With one code per 15 minutes and record, the run that leaves +1 and comes back to it gets two for +1. */
  lemma PhoneMayExceedTheLimit()
    ensures var cfg := Config(1, 15, 1);
            IsRun(cfg, MovedBack())
            && var s := RunState(cfg, MovedBack());
               CodesFor(s.log, RecordsOf(s.records, "+1"), 0, 6) >= 2 && Quota(cfg) == 1
  {
    hide IsRun, RunState, MovedBack, Times, CountIn, CodesFor, Limited;
    var cfg := Config(1, 15, 1);
    MovedBackRun(cfg);
    RunsAreLimited(cfg, MovedBack());
    var s := RunState(cfg, MovedBack());
    var ids := RecordsOf(s.records, "+1");
    assert 1 in ids && 3 in ids - {1};
    LastTimeIs(cfg, s, 8, 1);
    LastTimeIs(cfg, s, 8, 3);
    LastCounts(Times(s.log, 1), 0, 6);
    LastCounts(Times(s.log, 3), 0, 6);
    CodesForOneMore(s.log, ids, 1, 0, 6);
    CodesForOneMore(s.log, ids - {1}, 3, 0, 6);
  }

  lemma LastTimeIs(cfg: Config, s: State, t: int, id: int)
    requires Limited(cfg, s, t) && id in s.records
    ensures var times := Times(s.log, id); times != [] && times[|times| - 1] == s.records[id].lastRequestAt
  {
    assert RowLimited(cfg, Times(s.log, id), s.records[id], t);
  }

  /** A user who clears the phone also leaves an active record: nobody has the phone, and it is taken for good. */
  lemma ClearedPhoneIsAbandoned(cfg: Config)
    requires cfg.expiryMinutes >= 1
    ensures var es := Registration() + [ChangePhone(5, "", "", None, Some(1), 3)];
            IsRun(cfg, es) && RunState(cfg, es).phones == map[] && Abandoned(RunState(cfg, es), 1, 3)
  {
    hide IsRun, RunState;
    ShortPhones();
    RegistrationRun(cfg);
    Extend(cfg, Registration(), ChangePhone(5, "", "", None, Some(1), 3));
  }

  // ----- The handlers -----

  class OtpService {
    const cfg: Config
    var records: Records
    var users: map<int, string>
    var phones: map<int, string>
    ghost var log: seq<Fact>

    ghost function Abs(): State
      reads this
    {
      State(records, users, phones, log)
    }

    constructor (cfg: Config)
      ensures this.cfg == cfg && Abs() == INITIAL
    {
      this.cfg := cfg;
      records, users, phones, log := map[], map[], map[], [];
    }

    /** `findByPhone`: some active record of this phone. */
    method FindByPhone(phone: string) returns (found: Option<int>)
      ensures if found.Some? then IsActive(records, phone, found.value)
              else forall id :: id in records ==> !IsActive(records, phone, id)
    {
      if id :| id in records && IsActive(records, phone, id) {
        found := Some(id);
      } else {
        found := None;
      }
    }

    method FindByToken(token: string, now: int) returns (found: Option<int>)
      ensures AnswersToken(records, token, now, found)
    {
      if id :| id in records && HoldsToken(records, token, now, id) {
        found := Some(id);
      } else {
        found := None;
      }
    }

    method RequestOtpPhone(phone: string, otp: string, id: int, now: int)
        returns (out: Outcome, ghost found: Option<int>)
      requires id !in records
      modifies this
      ensures var e := Request(phone, otp, found, id, now);
              Possible(old(Abs()), e) && out == OutcomeOf(cfg, old(Abs()), e) && Abs() == After(cfg, old(Abs()), e)
    {
      var normalizedPhone := NormalizePhone(phone);
      if normalizedPhone == None {
        return InvalidPhone, None;
      }
      var existing := FindByPhone(normalizedPhone.value);
      found := existing;
      if existing.Some? && records[existing.value].verifiedAt.Some? {
        return PhoneAlreadyExists, found;
      }
      var throttleWindowStart := now - cfg.windowMinutes * 60_000;
      if existing.Some? {
        var row := records[existing.value];
        if row.lastRequestAt < throttleWindowStart {
          row := row.(requestCount := 1);
        } else {
          if row.requestCount >= cfg.maxRequests {
            var minutesRemaining := CeilDiv(row.lastRequestAt + cfg.windowMinutes * 60_000 - now, 60_000);
            return TooManyRequests(minutesRemaining), found;
          }
          row := row.(requestCount := row.requestCount + 1);
        }
        var expiresAt := now + cfg.expiryMinutes * 60_000;
        row := row.(otp := otp, lastRequestAt := now, expiresAt := expiresAt, verifiedAt := None);
        records := records[existing.value := row];
        log := log + [Requested(existing.value, otp, now)];
        out := OtpCreated(existing.value);
      } else {
        var row := OtpRequest(normalizedPhone.value, otp, 1, now, now + cfg.expiryMinutes * 60_000,
                              None, None, None, None, None);
        records := records[id := row];
        log := log + [Requested(id, otp, now)];
        out := OtpCreated(id);
      }
    }

    method VerifyOtp(phone: string, otp: string, token: string, now: int)
        returns (out: Outcome, ghost found: Option<int>)
      modifies this
      ensures var e := Verify(phone, otp, token, found, now);
              Possible(old(Abs()), e) && out == OutcomeOf(cfg, old(Abs()), e) && Abs() == After(cfg, old(Abs()), e)
    {
      var normalizedPhone := NormalizePhone(phone);
      if normalizedPhone == None {
        return InvalidPhone, None;
      }
      var existing := FindByPhone(normalizedPhone.value);
      found := existing;
      if existing == None {
        return OtpNotFound, found;
      }
      var row := records[existing.value];
      if row.verifiedAt.Some? {
        return PhoneAlreadyExists, found;
      }
      if row.expiresAt < now {
        return OtpExpired, found;
      }
      if row.otp != otp {
        return InvalidOtp, found;
      }
      if exists id :: id in records && id != existing.value && records[id].token == Some(token) {
        return TokenCollision, found;
      }
      records := records[existing.value := row.(token := Some(token), tokenExpiresAt := Some(now + 2 * 60 * 1000))];
      log := log + [Verified(existing.value, otp, token, now)];
      out := TokenIssued(existing.value);
    }

    method RegisterUser(token: string, email: string, user: int, now: int)
        returns (out: Outcome, ghost found: Option<int>)
      requires user !in users
      modifies this
      ensures var e := Register(token, email, found, user, now);
              Possible(old(Abs()), e) && out == OutcomeOf(cfg, old(Abs()), e) && Abs() == After(cfg, old(Abs()), e)
    {
      var otpRequest := FindByToken(token, now);
      found := otpRequest;
      if otpRequest == None {
        return TokenInvalid, found;
      }
      var row := records[otpRequest.value];
      if row.verifiedAt.Some? {
        return EmailExists, found;
      }
      if row.tokenExpiresAt.Some? && row.tokenExpiresAt.value < now {
        return TokenInvalid, found;
      }
      if exists u :: u in users && users[u] == email {
        return EmailExists, found;
      }
      users := users[user := email];
      phones := phones[user := row.phone];
      records := records[otpRequest.value :=
        row.(verifiedAt := Some(now), userId := Some(user), token := None, tokenExpiresAt := None)];
      log := log + [Registered(otpRequest.value, token, user, now)];
      out := UserCreated(user);
    }

    /** `findOne({ phone, userId })` for the phone a user has. */
    method FindOwn(phone: string, user: int) returns (found: Option<int>)
      ensures if found.Some? then IsOwn(records, phone, user, found.value)
              else forall id :: id in records ==> !IsOwn(records, phone, user, id)
    {
      if id :| id in records && IsOwn(records, phone, user, id) {
        found := Some(id);
      } else {
        found := None;
      }
    }

    /** The writes of a change of phone: the old record, then the new one, then the profile. */
    method SavePhone(user: int, phone: string, row: int, former: Option<int>, ghost token: string, now: int)
      requires row in records && (former.Some? ==> former.value in records)
      modifies this
      ensures var was := WithoutFormer(old(records), former, now);
              records == was[row := was[row].(userId := Some(user), verifiedAt := Some(now))]
      ensures users == old(users) && phones == old(phones)[user := phone]
      ensures log == old(log) + [PhoneChanged(row, token, user, now)]
    {
      if former.Some? && records[former.value].deletedAt == None {
        records := records[former.value := records[former.value].(deletedAt := Some(now))];
      }
      var newOtpRequest := records[row];
      records := records[row := newOtpRequest.(userId := Some(user), verifiedAt := Some(now))];
      phones := phones[user := phone];
      log := log + [PhoneChanged(row, token, user, now)];
    }

    /** `UpdateProfileUseCase.execute`, when the command has a phone. */
    method UpdateProfilePhone(user: int, phone: string, token: string, now: int)
        returns (out: Outcome, ghost found: Option<int>, ghost former: Option<int>)
      modifies this
      ensures var e := ChangePhone(user, phone, token, found, former, now);
              Possible(old(Abs()), e) && out == OutcomeOf(cfg, old(Abs()), e) && Abs() == After(cfg, old(Abs()), e)
    {
      hide MayRequest, AnswersPhone, TokenHeldElsewhere, RequestOutcome, VerifyOutcome, RegisterOutcome;
      var otpRequest := FindByToken(token, now);
      found := otpRequest;
      var oldRecord := None;
      if user in phones {
        oldRecord := FindOwn(phones[user], user);
      }
      former := oldRecord;
      if user !in users {
        return UserNotFound, found, former;
      }
      var normalizedPhone := NormalizePhone(phone);
      if phone != "" && normalizedPhone == None {
        return InvalidPhone, found, former;
      }
      var currentPhone := if user in phones then Some(phones[user]) else None;
      var phoneChanged := normalizedPhone != None && normalizedPhone != currentPhone;
      if phoneChanged {
        if token == "" {
          return TokenRequired, found, former;
        }
        if otpRequest == None {
          return TokenInvalid, found, former;
        }
        var row := records[otpRequest.value];
        if row.tokenExpiresAt.Some? && row.tokenExpiresAt.value < now {
          return TokenInvalid, found, former;
        }
        if row.phone != normalizedPhone.value {
          return TokenMismatch, found, former;
        }
        if row.verifiedAt.Some? && row.userId != Some(user) {
          return PhoneAlreadyExists, found, former;
        }
        SavePhone(user, normalizedPhone.value, otpRequest.value, oldRecord, token, now);
        return PhoneSaved(otpRequest.value), found, former;
      }
      phones := if normalizedPhone.Some? then phones[user := normalizedPhone.value] else phones - {user};
      out := PhoneKept;
    }
  }
}
