/**
 * ParseToken: the user-service's verdict on a token, short-circuited by two LRU
 * caches shared by all callers. Every cache operation is atomic, everything
 * between two of them is not: the cache may evict any entry, the clock may
 * advance and other callers may run.
 */
module TokenCache {
  import opened Text

  datatype ParsedToken = ParsedToken(valid: bool, expiresAt: int, username: string, role: string, userID: int) {
    predicate IsExpired(now: int) { expiresAt <= now }
  }

  datatype Sentinel = SentinelInvalid | SentinelExpired

  datatype Answer = ErrEmpty | ErrInvalid | ErrExpired | ErrTransport | Token(token: ParsedToken)

  /** What a verdict means at a given time. */
  function Judge(v: ParsedToken, now: int): Answer {
    if !v.valid then ErrInvalid else if v.IsExpired(now) then ErrExpired else Token(v)
  }

  /** A token is handed out while it is valid and before its expiry; invalid comes before expired. */
  lemma JudgeMeans(v: ParsedToken, now: int)
    ensures Judge(v, now) == Token(v) <==> v.valid && now < v.expiresAt
    ensures Judge(v, now) == ErrExpired <==> v.valid && now >= v.expiresAt
    ensures Judge(v, now) == ErrInvalid <==> !v.valid
  {
  }

  /** What the user-service says of a token at a given time. */
  type Verdicts = (string, int) -> ParsedToken

  /** ParseToken without caches: ask the user-service, judge its verdict. */
  function Uncached(token: string, verdicts: Verdicts, now: int): Answer {
    var key := TrimSpace(token);
    if key == "" then ErrEmpty else Judge(verdicts(key, now), now)
  }

  // ---- the interleaved machine --------------------------------------------

  datatype Caches = Caches(valid: map<string, ParsedToken>, invalid: map<string, Sentinel>)

  /**
   * Where a caller stands: before which cache operation or reading of the clock, or
   * done, with the time its answer was decided.
   */
  datatype Phase =
    | ReadInvalid
    | ReadValid
    | CheckCached(cached: ParsedToken)
    | DropExpired
    | RecordExpired
    | Fetch
    | CheckFetched(fetched: ParsedToken)
    | PutInvalid
    | PutValid(verdict: ParsedToken, judged: int)
    | Done(answer: Answer, decided: int)

  datatype Caller = Caller(token: string, phase: Phase) {
    function Key(): string { TrimSpace(token) }
  }

  datatype State = State(caches: Caches, now: int, callers: map<nat, Caller>)

  /** `Move` is the next step of a caller; its response matters only when the caller is fetching. */
  datatype Event =
    | Tick(seconds: nat)
    | Evict(valid: set<string>, invalid: set<string>)
    | Call(id: nat, token: string)
    | Move(id: nat, response: Option<ParsedToken>)

  function Moved(caches: Caches, c: Caller, now: int, response: Option<ParsedToken>): (Caches, Phase) {
    var key := c.Key();
    match c.phase
    case ReadInvalid =>
      if key in caches.invalid then
        (caches, Done(if caches.invalid[key].SentinelInvalid? then ErrInvalid else ErrExpired, now))
      else (caches, ReadValid)
    case ReadValid =>
      (caches, if key in caches.valid then CheckCached(caches.valid[key]) else Fetch)
    case CheckCached(v) => (caches, if v.IsExpired(now) then DropExpired else Done(Token(v), now))
    case DropExpired => (caches.(valid := caches.valid - {key}), RecordExpired)
    case RecordExpired => (caches.(invalid := caches.invalid[key := SentinelExpired]), Done(ErrExpired, now))
    case Fetch =>
      (match response
       case None => (caches, Done(ErrTransport, now))
       case Some(v) =>
         (caches, if !v.valid then PutInvalid else CheckFetched(v)))
    case CheckFetched(v) => (caches, if v.IsExpired(now) then RecordExpired else PutValid(v, now))
    case PutInvalid => (caches.(invalid := caches.invalid[key := SentinelInvalid]), Done(ErrInvalid, now))
    case PutValid(v, judged) => (caches.(valid := caches.valid[key := v]), Done(Token(v), judged))
    case Done(_, _) => (caches, c.phase)
  }

  predicate Possible(s: State, e: Event) {
    match e
    case Call(id, _) => id !in s.callers
    case Move(id, _) => id in s.callers
    case _ => true
  }

  function Step(s: State, e: Event): State
    requires Possible(s, e)
  {
    match e
    case Tick(d) => s.(now := s.now + d)
    case Evict(dropped, forgotten) => s.(caches := Caches(s.caches.valid - dropped, s.caches.invalid - forgotten))
    case Call(id, token) =>
      var phase := if TrimSpace(token) == "" then Done(ErrEmpty, s.now) else ReadInvalid;
      s.(callers := s.callers[id := Caller(token, phase)])
    case Move(id, response) =>
      var (caches, phase) := Moved(s.caches, s.callers[id], s.now, response);
      s.(caches := caches, callers := s.callers[id := s.callers[id].(phase := phase)])
  }

  function Start(now: int): State {
    State(Caches(map[], map[]), now, map[])
  }

  function Replay(now: int, es: seq<Event>): Option<State> {
    if es == [] then Some(Start(now))
    else
      var before := Replay(now, es[..|es| - 1]);
      if before.Some? && Possible(before.value, es[|es| - 1]) then Some(Step(before.value, es[|es| - 1])) else None
  }

  /** Whenever a caller that is fetching gets a verdict, it is the one given for its token at that time. */
  ghost predicate Honest(verdicts: Verdicts, s: State, e: Event) {
    e.Move? && e.id in s.callers && s.callers[e.id].phase.Fetch? && e.response.Some? ==>
      e.response.value == verdicts(s.callers[e.id].Key(), s.now)
  }

  ghost predicate HonestRun(verdicts: Verdicts, now: int, es: seq<Event>)
    ensures HonestRun(verdicts, now, es) ==> Replay(now, es).Some?
  {
    es != [] ==>
      var init, e := es[..|es| - 1], es[|es| - 1];
      && HonestRun(verdicts, now, init) && Possible(Replay(now, init).value, e)
      && Honest(verdicts, Replay(now, init).value, e)
  }

  // ---- when the caches are invisible --------------------------------------

  /**
   * A verdict given at some time is, judged at any later time, as good as the one
   * given then: it may change, as long as what it means does not.
   */
  ghost predicate Lasting(verdicts: Verdicts, start: int) {
    forall key, t, u :: key != "" && TrimSpace(key) == key && start <= t <= u ==>
      Judge(verdicts(key, t), u) == Judge(verdicts(key, u), u)
  }

  /** From now on, verdict `w` means what the user-service says of the token. */
  ghost predicate Follows(verdicts: Verdicts, key: string, w: ParsedToken, now: int) {
    forall u :: now <= u ==> Judge(w, u) == Judge(verdicts(key, u), u)
  }

  /** From now on, the answer for the token is this one. */
  ghost predicate Always(verdicts: Verdicts, key: string, answer: Answer, now: int) {
    forall u :: now <= u ==> Judge(verdicts(key, u), u) == answer
  }

  function Meaning(s: Sentinel): Answer {
    if s.SentinelInvalid? then ErrInvalid else ErrExpired
  }

  ghost predicate CachesAgree(verdicts: Verdicts, caches: Caches, now: int) {
    && (forall k :: k in caches.valid ==> caches.valid[k].valid && Follows(verdicts, k, caches.valid[k], now))
    && (forall k :: k in caches.invalid ==> Always(verdicts, k, Meaning(caches.invalid[k]), now))
  }

  /** The answer is the one ParseToken without caches gives at the time it was decided, or a transport error. */
  ghost predicate Right(verdicts: Verdicts, c: Caller) {
    c.phase.Done? ==> c.phase.answer == ErrTransport || c.phase.answer == Uncached(c.token, verdicts, c.phase.decided)
  }

  ghost predicate CallerAgrees(verdicts: Verdicts, now: int, c: Caller) {
    match c.phase
    case CheckCached(w) => c.Key() != "" && w.valid && Follows(verdicts, c.Key(), w, now)
    case CheckFetched(w) => c.Key() != "" && w.valid && Follows(verdicts, c.Key(), w, now)
    case DropExpired => c.Key() != "" && Always(verdicts, c.Key(), ErrExpired, now)
    case RecordExpired => c.Key() != "" && Always(verdicts, c.Key(), ErrExpired, now)
    case PutInvalid => c.Key() != "" && Always(verdicts, c.Key(), ErrInvalid, now)
    case PutValid(w, judged) =>
      && c.Key() != "" && judged <= now && w.valid && Follows(verdicts, c.Key(), w, now)
      && Uncached(c.token, verdicts, judged) == Token(w)
    case Done(_, decided) => decided <= now && Right(verdicts, c)
    case _ => c.Key() != ""
  }

  ghost predicate Agrees(verdicts: Verdicts, s: State) {
    && CachesAgree(verdicts, s.caches, s.now)
    && forall id :: id in s.callers ==> CallerAgrees(verdicts, s.now, s.callers[id])
  }

  /** What a followed verdict says of its token from now on. */
  lemma FollowedMeans(verdicts: Verdicts, key: string, w: ParsedToken, now: int)
    requires Follows(verdicts, key, w, now)
    ensures !w.valid ==> Always(verdicts, key, ErrInvalid, now)
    ensures w.valid && w.IsExpired(now) ==> Always(verdicts, key, ErrExpired, now)
    ensures w.valid && !w.IsExpired(now) ==> Judge(verdicts(key, now), now) == Token(w)
  {
    assert Judge(w, now) == Judge(verdicts(key, now), now);
  }

  lemma FetchedFollows(verdicts: Verdicts, start: int, c: Caller, now: int)
    requires Lasting(verdicts, start) && start <= now && c.Key() != ""
    ensures Follows(verdicts, c.Key(), verdicts(c.Key(), now), now)
  {
    hide Judge;
    assert TrimSpace(c.Key()) == c.Key();
  }

  lemma MoveKeepsAgreement(verdicts: Verdicts, start: int, caches: Caches, c: Caller, now: int,
                           response: Option<ParsedToken>)
    requires Lasting(verdicts, start) && start <= now
    requires CachesAgree(verdicts, caches, now) && CallerAgrees(verdicts, now, c)
    requires c.phase.Fetch? && response.Some? ==> response.value == verdicts(c.Key(), now)
    ensures var (caches', phase) := Moved(caches, c, now, response);
            CachesAgree(verdicts, caches', now) && CallerAgrees(verdicts, now, c.(phase := phase))
  {
    hide TrimSpace, Judge, Lasting;
    match c.phase
    case CheckCached(w) => FollowedMeans(verdicts, c.Key(), w, now);
    case CheckFetched(w) => FollowedMeans(verdicts, c.Key(), w, now);
    case Fetch =>
      FetchedFollows(verdicts, start, c, now);
      FollowedMeans(verdicts, c.Key(), verdicts(c.Key(), now), now);
    case _ =>
      hide Follows;
  }

  lemma TimeKeepsAgreement(verdicts: Verdicts, c: Caller, now: int, later: int)
    requires CallerAgrees(verdicts, now, c) && now <= later
    ensures CallerAgrees(verdicts, later, c)
  {
    hide TrimSpace, Judge;
  }

  lemma StepKeepsAgreement(verdicts: Verdicts, start: int, s: State, e: Event)
    requires Lasting(verdicts, start) && start <= s.now
    requires Agrees(verdicts, s) && Possible(s, e) && Honest(verdicts, s, e)
    ensures Agrees(verdicts, Step(s, e)) && start <= Step(s, e).now
  {
    hide TrimSpace, Judge, Lasting;
    var t := Step(s, e);
    match e
    case Tick(_) =>
      forall id | id in t.callers ensures CallerAgrees(verdicts, t.now, t.callers[id]) {
        TimeKeepsAgreement(verdicts, s.callers[id], s.now, t.now);
      }
    case Evict(_, _) =>
    case Call(id, token) =>
    case Move(id, response) =>
      MoveKeepsAgreement(verdicts, start, s.caches, s.callers[id], s.now, response);
  }

  lemma {:induction false} RunKeepsAgreement(verdicts: Verdicts, start: int, es: seq<Event>)
    requires Lasting(verdicts, start) && HonestRun(verdicts, start, es)
    ensures Agrees(verdicts, Replay(start, es).value) && start <= Replay(start, es).value.now
  {
    hide TrimSpace, Step, Lasting, Judge;
    if es != [] {
      var init := es[..|es| - 1];
      RunKeepsAgreement(verdicts, start, init);
      StepKeepsAgreement(verdicts, start, Replay(start, init).value, es[|es| - 1]);
    }
  }

  lemma Extend(now: int, es: seq<Event>, e: Event) returns (es': seq<Event>)
    requires Replay(now, es).Some? && Possible(Replay(now, es).value, e)
    ensures es' == es + [e] && Replay(now, es') == Some(Step(Replay(now, es).value, e))
  {
    hide Step, Possible;
    es' := es + [e];
    assert es'[..|es'| - 1] == es;
  }

  lemma ExtendHonest(verdicts: Verdicts, now: int, es: seq<Event>, e: Event) returns (es': seq<Event>)
    requires HonestRun(verdicts, now, es) && Possible(Replay(now, es).value, e)
    requires Honest(verdicts, Replay(now, es).value, e)
    ensures HonestRun(verdicts, now, es') && Replay(now, es') == Some(Step(Replay(now, es).value, e))
  {
    hide Step, Possible, Honest;
    es' := Extend(now, es, e);
    assert es'[..|es'| - 1] == es;
  }

  /** One caller, holding the verdict fetched for its token. */
  ghost predicate Holding(s: State, key: string, now: int, w: ParsedToken) {
    && s.now == now && 0 in s.callers
    && s.callers[0] == Caller(key, if w.valid then CheckFetched(w) else PutInvalid)
  }

  /** A first caller fetches the verdict given at time t. */
  lemma FetchesAt(verdicts: Verdicts, start: int, key: string, t: int) returns (es: seq<Event>)
    requires start <= t && key != "" && TrimSpace(key) == key
    ensures HonestRun(verdicts, start, es)
    ensures Holding(Replay(start, es).value, key, t, verdicts(key, t))
  {
    hide TrimSpace, HonestRun, Replay;
    es := [];
    StartsHonest(verdicts, start);
    es := ExtendHonest(verdicts, start, es, Tick(t - start));
    es := ExtendHonest(verdicts, start, es, Call(0, key));
    es := ExtendHonest(verdicts, start, es, Move(0, None));
    es := ExtendHonest(verdicts, start, es, Move(0, None));
    es := ExtendHonest(verdicts, start, es, Move(0, Some(verdicts(key, t))));
  }

  lemma StartsHonest(verdicts: Verdicts, start: int)
    ensures HonestRun(verdicts, start, []) && Replay(start, []) == Some(Start(start))
  {
  }

  /** If it is held until time u, it is what the caller is answered then. */
  lemma DecidesAt(verdicts: Verdicts, start: int, es: seq<Event>, key: string, t: int, u: int, w: ParsedToken)
    returns (es': seq<Event>)
    requires HonestRun(verdicts, start, es) && t <= u && TrimSpace(key) == key
    requires Holding(Replay(start, es).value, key, t, w)
    ensures HonestRun(verdicts, start, es') && 0 in Replay(start, es').value.callers
    ensures Replay(start, es').value.callers[0] == Caller(key, Done(Judge(w, u), u))
  {
    hide TrimSpace, HonestRun, Replay;
    es' := ExtendHonest(verdicts, start, es, Tick(u - t));
    es' := ExtendHonest(verdicts, start, es', Move(0, None));
    if w.valid {
      es' := ExtendHonest(verdicts, start, es', Move(0, None));
    }
  }

  // ---- main results -------------------------------------------------------

  /** No run gives a wrong answer. */
  ghost predicate AlwaysRight(verdicts: Verdicts, start: int) {
    forall es, id :: HonestRun(verdicts, start, es) && id in Replay(start, es).value.callers ==>
      Right(verdicts, Replay(start, es).value.callers[id])
  }

  lemma LastingIsRight(verdicts: Verdicts, start: int, es: seq<Event>, id: nat)
    requires Lasting(verdicts, start) && HonestRun(verdicts, start, es) && id in Replay(start, es).value.callers
    ensures var s, c := Replay(start, es).value, Replay(start, es).value.callers[id];
            (c.phase.Done? ==> c.phase.decided <= s.now) && Right(verdicts, c)
  {
    hide TrimSpace, HonestRun, Replay, Judge, Step, Possible, CachesAgree, Lasting, Uncached;
    RunKeepsAgreement(verdicts, start, es);
    assert CallerAgrees(verdicts, Replay(start, es).value.now, Replay(start, es).value.callers[id]);
  }

  /** A verdict whose meaning does not last gives a wrong answer in some run. */
  lemma NotLastingGoesWrong(verdicts: Verdicts, start: int, key: string, t: int, u: int) returns (es: seq<Event>)
    requires key != "" && TrimSpace(key) == key && start <= t <= u
    requires Judge(verdicts(key, t), u) != Judge(verdicts(key, u), u)
    ensures HonestRun(verdicts, start, es) && 0 in Replay(start, es).value.callers
    ensures !Right(verdicts, Replay(start, es).value.callers[0])
  {
    hide TrimSpace, HonestRun, Replay, Step, Possible;
    es := FetchesAt(verdicts, start, key, t);
    es := DecidesAt(verdicts, start, es, key, t, u, verdicts(key, t));
  }

  /**
   * With a clock that never runs back, under every interleaving of callers,
   * evictions and time, every answer given without a transport error is the one
   * ParseToken without caches gives at the moment it was decided, if and only if
   * a verdict goes on meaning, at any later time, what the one given then means.
   */
  lemma AlwaysRightIff(verdicts: Verdicts, start: int)
    ensures AlwaysRight(verdicts, start) <==> Lasting(verdicts, start)
  {
    hide TrimSpace, HonestRun, Replay, Judge, Step, Possible, Right;
    if Lasting(verdicts, start) {
      forall es, id | HonestRun(verdicts, start, es) && id in Replay(start, es).value.callers
        ensures Right(verdicts, Replay(start, es).value.callers[id])
      {
        LastingIsRight(verdicts, start, es, id);
      }
    } else {
      var key, t, u :| key != "" && TrimSpace(key) == key && start <= t <= u
                       && Judge(verdicts(key, t), u) != Judge(verdicts(key, u), u);
      var es := NotLastingGoesWrong(verdicts, start, key, t, u);
    }
  }

  /** A user-service whose verdict on a token never changes meets that condition. */
  lemma CachedRefinesUncached(verdict: string -> ParsedToken, start: int)
    ensures AlwaysRight((key, _) => verdict(key), start)
  {
    AlwaysRightIff((key, _) => verdict(key), start);
  }

  /** So does one that changes its mind about a token once that has expired, as long as it stays expired. */
  lemma ExpiryMayChangeVerdict(verdict: string -> ParsedToken, later: string -> ParsedToken, start: int)
    requires forall key :: verdict(key).valid && later(key).valid && later(key).expiresAt <= verdict(key).expiresAt
    ensures AlwaysRight((key, t) => if t < verdict(key).expiresAt then verdict(key) else later(key), start)
  {
    AlwaysRightIff((key, t) => if t < verdict(key).expiresAt then verdict(key) else later(key), start);
  }

  // ---- any user-service at all: no expired token gets out -----------------

  ghost predicate CallerSafe(now: int, c: Caller) {
    match c.phase
    case CheckCached(v) => v.valid
    case CheckFetched(v) => v.valid
    case PutValid(v, judged) => judged <= now && v.valid && judged < v.expiresAt
    case Done(Token(v), decided) => decided <= now && v.valid && decided < v.expiresAt
    case _ => true
  }

  /**
   * Whatever the user-service answers, and however its verdict on a token
   * changes, a token handed out was valid and not yet expired when decided.
   */
  lemma {:induction false} NoExpiredToken(now: int, es: seq<Event>)
    requires Replay(now, es).Some?
    ensures var s := Replay(now, es).value;
            && (forall k :: k in s.caches.valid ==> s.caches.valid[k].valid)
            && (forall id :: id in s.callers ==> CallerSafe(s.now, s.callers[id]))
  {
    hide TrimSpace;
    if es != [] {
      var init, e := es[..|es| - 1], es[|es| - 1];
      NoExpiredToken(now, init);
      StepKeepsSafe(Replay(now, init).value, e);
    }
  }

  lemma StepKeepsSafe(s: State, e: Event)
    requires Possible(s, e)
    requires forall k :: k in s.caches.valid ==> s.caches.valid[k].valid
    requires forall id :: id in s.callers ==> CallerSafe(s.now, s.callers[id])
    ensures forall k :: k in Step(s, e).caches.valid ==> Step(s, e).caches.valid[k].valid
    ensures forall id :: id in Step(s, e).callers ==> CallerSafe(Step(s, e).now, Step(s, e).callers[id])
  {
    hide TrimSpace;
    var t := Step(s, e);
    forall id | id in t.callers ensures CallerSafe(t.now, t.callers[id]) {
      assert id in s.callers ==> CallerSafe(s.now, s.callers[id]);
    }
  }

  /** A first call for a good token leaves it in the cache. */
  lemma FirstCall(t: string, good: ParsedToken, now: int) returns (es: seq<Event>)
    requires t != "" && TrimSpace(t) == t && good.valid && now < good.expiresAt
    ensures Replay(now, es)
              == Some(State(Caches(map[t := good], map[]), now, map[0 := Caller(t, Done(Token(good), now))]))
    ensures forall i :: 0 <= i < |es| && es[i].Move? ==> es[i].id == 0
  {
    hide TrimSpace;
    es := [];
    es := Extend(now, es, Call(0, t));
    es := Extend(now, es, Move(0, Some(good)));
    es := Extend(now, es, Move(0, Some(good)));
    es := Extend(now, es, Move(0, Some(good)));
    es := Extend(now, es, Move(0, Some(good)));
    es := Extend(now, es, Move(0, Some(good)));
    var end := Replay(now, es).value;
    assert end.callers == map[0 := Caller(t, Done(Token(good), now))];
    assert end.caches.valid == map[t := good] && end.caches.invalid == map[];
  }

  /** An unstable verdict does show: a cached token outlives its revocation, until it is evicted or expires. */
  lemma StaleAnswer(t: string, good: ParsedToken, now: int) returns (es: seq<Event>)
    requires t != "" && TrimSpace(t) == t && good.valid && now < good.expiresAt
    ensures Replay(now, es).Some? && 1 in Replay(now, es).value.callers
    ensures forall i :: 0 <= i < |es| && es[i].Move? && es[i].id == 1 ==> es[i].response == Some(good.(valid := false))
    ensures Replay(now, es).value.callers[1].phase == Done(Token(good), now)
  {
    var bad := good.(valid := false);
    es := FirstCall(t, good, now);
    hide TrimSpace, Replay;
    es := Extend(now, es, Call(1, t));
    es := Extend(now, es, Move(1, Some(bad)));
    es := Extend(now, es, Move(1, Some(bad)));
    es := Extend(now, es, Move(1, Some(bad)));
  }

  // ---- one undisturbed call -----------------------------------------------

  function Rank(p: Phase): nat {
    match p
    case ReadInvalid => 5 case ReadValid => 4 case Fetch => 3 case CheckCached(_) => 3
    case CheckFetched(_) => 2 case DropExpired => 2
    case RecordExpired => 1 case PutInvalid => 1 case PutValid(_, _) => 1 case Done(_, _) => 0
  }

  lemma MoveDescends(caches: Caches, c: Caller, now: int, response: Option<ParsedToken>)
    requires !c.phase.Done?
    ensures Rank(Moved(caches, c, now, response).1) < Rank(c.phase)
  {
    hide TrimSpace;
  }

  /** A caller that is not interrupted moves until it is done. */
  function Alone(caches: Caches, c: Caller, now: int, response: Option<ParsedToken>): (r: (Caches, Answer))
    decreases Rank(c.phase)
  {
    if c.phase.Done? then (caches, c.phase.answer)
    else
      MoveDescends(caches, c, now, response);
      hide TrimSpace, Rank, Moved;
      var (caches', phase) := Moved(caches, c, now, response);
      Alone(caches', c.(phase := phase), now, response)
  }

  /** The shortcut a move takes: what follows it is what the whole call does. */
  lemma AloneMoves(caches: Caches, c: Caller, now: int, response: Option<ParsedToken>)
    requires !c.phase.Done?
    ensures var (caches', phase) := Moved(caches, c, now, response);
            Alone(caches, c, now, response) == Alone(caches', c.(phase := phase), now, response)
    ensures var (caches', phase) := Moved(caches, c, now, response);
            phase.Done? ==> Alone(caches, c, now, response) == (caches', phase.answer)
  {
    hide TrimSpace, Moved;
  }

  /** A token with no entry is asked for, and the answer is what the verdict given means. */
  lemma UncachedIsAsked(caches: Caches, token: string, now: int, response: Option<ParsedToken>)
    requires TrimSpace(token) !in caches.valid && TrimSpace(token) !in caches.invalid
    ensures Alone(caches, Caller(token, ReadInvalid), now, response).1
         == match response case None => ErrTransport case Some(v) => Judge(v, now)
  {
    hide TrimSpace, Alone;
    AloneMoves(caches, Caller(token, ReadInvalid), now, response);
    AloneMoves(caches, Caller(token, ReadValid), now, response);
    AloneMoves(caches, Caller(token, Fetch), now, response);
    if response.Some? {
      var v := response.value;
      if !v.valid {
        AloneMoves(caches, Caller(token, PutInvalid), now, response);
      } else {
        AloneMoves(caches, Caller(token, CheckFetched(v)), now, response);
        AloneMoves(caches, Caller(token, if v.IsExpired(now) then RecordExpired else PutValid(v, now)), now, response);
      }
    }
  }

  /**
   * So it is again after its entries were evicted, in any run; the other entries
   * stay, and time goes on as it is told.
   */
  lemma EvictionForgets(now: int, es: seq<Event>, dropped: set<string>, forgotten: set<string>, seconds: nat,
                        key: string)
    requires Replay(now, es).Some?
    ensures var s, t := Replay(now, es).value, Replay(now, es + [Evict(dropped, forgotten)]);
            && t.Some? && t.value.now == s.now && t.value.callers == s.callers
            && (key in t.value.caches.valid <==> key in s.caches.valid && key !in dropped)
            && (key in t.value.caches.invalid <==> key in s.caches.invalid && key !in forgotten)
    ensures Replay(now, es + [Tick(seconds)])
              == Some(Replay(now, es).value.(now := Replay(now, es).value.now + seconds))
  {
    assert (es + [Evict(dropped, forgotten)])[..|es|] == es;
    assert (es + [Tick(seconds)])[..|es|] == es;
  }

  /**
   * A verdict, once given, is remembered: until an entry is evicted, the same
   * token gets the same answer again, without asking, or ErrExpired from its
   * expiry on.
   */
  lemma RepeatIsFromCache(caches: Caches, token: string, now: int, response: Option<ParsedToken>, later: int,
                          response': Option<ParsedToken>)
    requires TrimSpace(token) != "" && now <= later
    requires Alone(caches, Caller(token, ReadInvalid), now, response).1 != ErrTransport
    ensures var (caches', answer) := Alone(caches, Caller(token, ReadInvalid), now, response);
            var again := Alone(caches', Caller(token, ReadInvalid), later, response').1;
            again == if answer.Token? && answer.token.IsExpired(later) then ErrExpired else answer
  {
    var (caches', answer) := Alone(caches, Caller(token, ReadInvalid), now, response);
    Remembered(caches, token, now, response);
    RecallsInvalid(caches', token, later, response');
    if TrimSpace(token) !in caches'.invalid {
      RecallsValid(caches', token, later, response');
    }
  }

  lemma RecallsInvalid(caches: Caches, token: string, now: int, response: Option<ParsedToken>)
    ensures TrimSpace(token) in caches.invalid ==>
      Alone(caches, Caller(token, ReadInvalid), now, response).1
      == if caches.invalid[TrimSpace(token)].SentinelInvalid? then ErrInvalid else ErrExpired
  {
    hide TrimSpace, Alone;
    AloneMoves(caches, Caller(token, ReadInvalid), now, response);
  }

  lemma RecallsValid(caches: Caches, token: string, now: int, response: Option<ParsedToken>)
    requires TrimSpace(token) !in caches.invalid && TrimSpace(token) in caches.valid
    ensures var v := caches.valid[TrimSpace(token)];
            Alone(caches, Caller(token, ReadInvalid), now, response).1
                == if v.IsExpired(now) then ErrExpired else Token(v)
  {
    hide TrimSpace, Alone;
    var key := TrimSpace(token);
    AloneMoves(caches, Caller(token, ReadInvalid), now, response);
    AloneMoves(caches, Caller(token, ReadValid), now, response);
    AloneMoves(caches, Caller(token, CheckCached(caches.valid[key])), now, response);
    if caches.valid[key].IsExpired(now) {
      AloneMoves(caches, Caller(token, DropExpired), now, response);
      AloneMoves(caches.(valid := caches.valid - {key}), Caller(token, RecordExpired), now, response);
    }
  }

  /** What a call leaves in the caches about its token. */
  ghost predicate Recorded(caches: Caches, key: string, answer: Answer) {
    match answer
    case ErrInvalid => key in caches.invalid && caches.invalid[key] == SentinelInvalid
    case ErrExpired => key in caches.invalid && caches.invalid[key] == SentinelExpired
    case Token(v) => key !in caches.invalid && key in caches.valid && caches.valid[key] == v
    case _ => true
  }

  lemma Remembered(caches: Caches, token: string, now: int, response: Option<ParsedToken>)
    requires TrimSpace(token) != ""
    ensures var (caches', answer) := Alone(caches, Caller(token, ReadInvalid), now, response);
            Recorded(caches', TrimSpace(token), answer) && answer != ErrEmpty
  {
    hide TrimSpace, Alone;
    var key := TrimSpace(token);
    AloneMoves(caches, Caller(token, ReadInvalid), now, response);
    if key !in caches.invalid {
      AloneMoves(caches, Caller(token, ReadValid), now, response);
      if key !in caches.valid {
        FetchRecords(caches, token, now, response);
      } else {
        CachedRecords(caches, token, now, response);
      }
    }
  }

  lemma FetchRecords(caches: Caches, token: string, now: int, response: Option<ParsedToken>)
    requires TrimSpace(token) !in caches.invalid
    ensures var (caches', answer) := Alone(caches, Caller(token, Fetch), now, response);
            Recorded(caches', TrimSpace(token), answer) && answer != ErrEmpty
  {
    hide TrimSpace, Alone;
    AloneMoves(caches, Caller(token, Fetch), now, response);
    if response.Some? {
      var v := response.value;
      if !v.valid {
        AloneMoves(caches, Caller(token, PutInvalid), now, response);
      } else {
        AloneMoves(caches, Caller(token, CheckFetched(v)), now, response);
        AloneMoves(caches, Caller(token, if v.IsExpired(now) then RecordExpired else PutValid(v, now)), now, response);
      }
    }
  }

  lemma CachedRecords(caches: Caches, token: string, now: int, response: Option<ParsedToken>)
    requires TrimSpace(token) !in caches.invalid && TrimSpace(token) in caches.valid
    ensures var (caches', answer) := Alone(caches, Caller(token, ReadValid), now, response);
            Recorded(caches', TrimSpace(token), answer) && answer != ErrEmpty
  {
    hide TrimSpace, Alone;
    var v := caches.valid[TrimSpace(token)];
    AloneMoves(caches, Caller(token, ReadValid), now, response);
    AloneMoves(caches, Caller(token, CheckCached(v)), now, response);
    if v.IsExpired(now) {
      AloneMoves(caches, Caller(token, DropExpired), now, response);
      AloneMoves(caches.(valid := caches.valid - {TrimSpace(token)}), Caller(token, RecordExpired), now, response);
    }
  }

  class ParseTokenCaches {
    var valid: map<string, ParsedToken>
    var invalid: map<string, Sentinel>

    constructor ()
      ensures valid == map[] && invalid == map[]
    {
      valid, invalid := map[], map[];
    }

    /** Ask the user-service and remember its verdict. */
    method FetchToken(token: string, now: int, response: Option<ParsedToken>) returns (answer: Answer)
      modifies this
      ensures (Caches(valid, invalid), answer)
           == Alone(Caches(old(valid), old(invalid)), Caller(token, Fetch), now, response)
    {
      var key := TrimSpace(token);
      hide Alone, TrimSpace;
      ghost var caches := Caches(valid, invalid);
      AloneMoves(caches, Caller(token, Fetch), now, response);
      if response.None? {
        return ErrTransport;
      }
      var v := response.value;
      if !v.valid {
        AloneMoves(caches, Caller(token, PutInvalid), now, response);
        invalid := invalid[key := SentinelInvalid];
        return ErrInvalid;
      }
      AloneMoves(caches, Caller(token, CheckFetched(v)), now, response);
      if v.IsExpired(now) {
        AloneMoves(caches, Caller(token, RecordExpired), now, response);
        invalid := invalid[key := SentinelExpired];
        return ErrExpired;
      }
      AloneMoves(caches, Caller(token, PutValid(v, now)), now, response);
      valid := valid[key := v];
      return Token(v);
    }

    method ParseToken(token: string, now: int, response: Option<ParsedToken>) returns (answer: Answer)
      modifies this
      ensures TrimSpace(token) == "" ==> answer == ErrEmpty && valid == old(valid) && invalid == old(invalid)
      ensures TrimSpace(token) != "" ==>
        (Caches(valid, invalid), answer)
            == Alone(Caches(old(valid), old(invalid)), Caller(token, ReadInvalid), now, response)
    {
      var key := TrimSpace(token);
      hide Alone, TrimSpace;
      if key == "" {
        return ErrEmpty;
      }
      ghost var caches := Caches(valid, invalid);
      AloneMoves(caches, Caller(token, ReadInvalid), now, response);
      if key in invalid {
        return match invalid[key] case SentinelInvalid => ErrInvalid case SentinelExpired => ErrExpired;
      }
      AloneMoves(caches, Caller(token, ReadValid), now, response);
      if key in valid {
        var cached := valid[key];
        AloneMoves(caches, Caller(token, CheckCached(cached)), now, response);
        if cached.IsExpired(now) {
          AloneMoves(caches, Caller(token, DropExpired), now, response);
          AloneMoves(caches.(valid := valid - {key}), Caller(token, RecordExpired), now, response);
          valid := valid - {key};
          invalid := invalid[key := SentinelExpired];
          return ErrExpired;
        }
        return Token(cached);
      }
      answer := FetchToken(token, now, response);
    }
  }
}
