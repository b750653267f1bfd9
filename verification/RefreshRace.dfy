/** Refresh requests that overlap: the row is read, later written and later still followed by the
    next token's row, and other requests may run in between. */
module RefreshRace {
  import opened RefreshTokens

  /** How far a refresh request for a token has come. */
  datatype Request =
    | Waiting(value: Value)
    | Validated(value: Value)   // the row was read: not revoked, not expired, its user active
    | Saved(value: Value)       // revokedAt written
    | Succeeded(value: Value)   // the next token issued
    | Reusing(value: Value)     // the row was read as revoked; all tokens of the user are about to be
    | Refused

  datatype RaceState = RaceState(db: State, requests: seq<Request>)

  datatype Action =
    | ReadRow(i: nat, now: int)
    | Save(i: nat)
    | IssueNext(i: nat, now: int)
    | RevokeUser(i: nat)
    | LogIn(user: UserId, now: int)
    | LogOut(value: Value)

  predicate Enabled(s: RaceState, a: Action) {
    match a
    case ReadRow(i, _) => i < |s.requests| && s.requests[i].Waiting?
    case Save(i) => i < |s.requests| && s.requests[i].Validated? && s.requests[i].value < |s.db.tokens|
    case IssueNext(i, _) => i < |s.requests| && s.requests[i].Saved? && s.requests[i].value < |s.db.tokens|
    case RevokeUser(i) => i < |s.requests| && s.requests[i].Reusing? && s.requests[i].value < |s.db.tokens|
    case LogIn(_, _) => true
    case LogOut(value) => value < |s.db.tokens|
  }

  function Step(s: RaceState, a: Action): RaceState
    requires Enabled(s, a)
  {
    match a
    case ReadRow(i, now) =>
      var v := s.requests[i].value;
      var next :=
        if v >= |s.db.tokens| then Refused
        else if s.db.tokens[v].revoked then Reusing(v)
        else if s.db.tokens[v].expiresAt <= now || s.db.tokens[v].user !in s.db.active then Refused
        else Validated(v);
      s.(requests := s.requests[i := next])
    case Save(i) =>
      RaceState(Revoke(s.db, s.requests[i].value), s.requests[i := Saved(s.requests[i].value)])
    case IssueNext(i, now) =>
      var v := s.requests[i].value;
      RaceState(Issue(s.db, s.db.tokens[v].user, s.db.tokens[v].chain, now), s.requests[i := Succeeded(v)])
    case RevokeUser(i) =>
      RaceState(RevokeAll(s.db, s.db.tokens[s.requests[i].value].user), s.requests[i := Refused])
    case LogIn(user, now) => s.(db := Issue(s.db, user, |s.db.tokens|, now))
    case LogOut(value) => s.(db := Revoke(s.db, value))
  }

  predicate Init(s: RaceState) {
    forall i :: 0 <= i < |s.requests| ==> s.requests[i].Waiting?
  }

  ghost predicate Race(states: seq<RaceState>, actions: seq<Action>) {
    && |states| == |actions| + 1
    && Init(states[0])
    && forall n :: 0 <= n < |actions| ==> Enabled(states[n], actions[n]) && states[n + 1] == Step(states[n], actions[n])
  }

  // ----- Undisturbed requests -----

  /** A refresh whose statements nobody comes between does what the service does in one go. */
  lemma UndisturbedRefresh(s: RaceState, i: nat, now: int)
    requires Enabled(s, ReadRow(i, now))
    ensures var v := s.requests[i].value;
            var read, (served, reply) := Step(s, ReadRow(i, now)), Serve(s.db, Refresh(v, now));
            match read.requests[i]
            case Validated(_) =>
              && Enabled(read, Save(i)) && Enabled(Step(read, Save(i)), IssueNext(i, now))
              && reply.Issued? && Step(Step(read, Save(i)), IssueNext(i, now)).db == served
            case Reusing(_) =>
              Enabled(read, RevokeUser(i)) && reply == ReuseDetected && Step(read, RevokeUser(i)).db == served
            case Refused => served == s.db == read.db && !reply.Issued? && reply != ReuseDetected
            case _ => false
  {
  }

  lemma UndisturbedLogin(s: RaceState, user: UserId, now: int)
    ensures Step(s, LogIn(user, now)).db == Serve(s.db, Login(user, now)).0
  {
  }

  /** A logout by the owner of a token that is still unrevoked. */
  lemma UndisturbedLogout(s: RaceState, v: Value)
    requires Live(s.db, v)
    ensures Enabled(s, LogOut(v)) && Step(s, LogOut(v)).db == Serve(s.db, Logout(s.db.tokens[v].user, v)).0
  {
  }

  // ----- Counting the requests for one token -----

  /** A request that has read v as valid, or has gone on from there. */
  predicate Through(r: Request, v: Value) {
    (r.Validated? || r.Saved? || r.Succeeded?) && r.value == v
  }

  function CountThrough(requests: seq<Request>, v: Value): nat {
    if requests == [] then 0
    else CountThrough(requests[..|requests| - 1], v) + if Through(requests[|requests| - 1], v) then 1 else 0
  }

  /** Refreshes of v in flight: they have read the row and not yet written it. */
  function InFlight(requests: seq<Request>, v: Value): nat {
    if requests == [] then 0
    else InFlight(requests[..|requests| - 1], v) + if requests[|requests| - 1] == Validated(v) then 1 else 0
  }

  function Successes(requests: seq<Request>, v: Value): nat {
    if requests == [] then 0
    else Successes(requests[..|requests| - 1], v) + if requests[|requests| - 1] == Succeeded(v) then 1 else 0
  }

  lemma {:induction false} CountUpdate(requests: seq<Request>, i: nat, r: Request, v: Value)
    requires i < |requests|
    ensures CountThrough(requests[i := r], v) + (if Through(requests[i], v) then 1 else 0)
            == CountThrough(requests, v) + if Through(r, v) then 1 else 0
  {
    var last := |requests| - 1;
    if i < last {
      CountUpdate(requests[..last], i, r, v);
      assert requests[i := r][..last] == requests[..last][i := r];
    } else {
      assert requests[i := r][..last] == requests[..last];
    }
  }

  /** Nobody is past the write of v while v is unrevoked. */
  predicate NoneWritten(s: RaceState, v: Value) {
    forall i :: 0 <= i < |s.requests| && Through(s.requests[i], v) ==> s.requests[i].Validated?
  }

  lemma {:induction false} AllInFlight(requests: seq<Request>, v: Value)
    requires forall i :: 0 <= i < |requests| && Through(requests[i], v) ==> requests[i].Validated?
    ensures InFlight(requests, v) == CountThrough(requests, v)
  {
    if requests != [] {
      AllInFlight(requests[..|requests| - 1], v);
    }
  }

  lemma {:induction false} SuccessesAmongThrough(requests: seq<Request>, v: Value)
    ensures Successes(requests, v) <= CountThrough(requests, v)
  {
    if requests != [] {
      SuccessesAmongThrough(requests[..|requests| - 1], v);
    }
  }

  predicate Finished(r: Request) {
    r.Succeeded? || r.Refused?
  }

  lemma {:induction false} FinishedThroughSucceeded(requests: seq<Request>, v: Value)
    requires forall i :: 0 <= i < |requests| ==> Finished(requests[i])
    ensures Successes(requests, v) == CountThrough(requests, v)
  {
    if requests != [] {
      FinishedThroughSucceeded(requests[..|requests| - 1], v);
    }
  }

  predicate Revoked(s: RaceState, v: Value) {
    v < |s.db.tokens| && s.db.tokens[v].revoked
  }

  /** Requests that name a token have found its row. */
  predicate RowsExist(s: RaceState) {
    forall i :: 0 <= i < |s.requests| && !s.requests[i].Waiting? && !s.requests[i].Refused?
      ==> s.requests[i].value < |s.db.tokens|
  }

  lemma StepBeforeRevocation(s: RaceState, a: Action, v: Value)
    requires Enabled(s, a) && RowsExist(s)
    ensures RowsExist(Step(s, a))
    ensures !Revoked(s, v) && NoneWritten(s, v) && !Revoked(Step(s, a), v) ==> NoneWritten(Step(s, a), v)
  {
    var t := Step(s, a);
    if !Revoked(s, v) && NoneWritten(s, v) && !Revoked(t, v) {
      forall i | 0 <= i < |t.requests| && Through(t.requests[i], v)
        ensures t.requests[i].Validated?
      {
        assert Through(s.requests[i], v) || a.ReadRow?;
      }
    }
  }

  /** From the moment a token is revoked, the requests that are through with reading it stay the same in number. */
  lemma StepFromRevocation(s: RaceState, a: Action, v: Value)
    requires Enabled(s, a) && (Revoked(s, v) || Revoked(Step(s, a), v))
    ensures Revoked(Step(s, a), v)
    ensures CountThrough(Step(s, a).requests, v) == CountThrough(s.requests, v)
  {
    if !a.LogIn? && !a.LogOut? {
      CountUpdate(s.requests, a.i, Step(s, a).requests[a.i], v);
    }
  }

  lemma {:induction false} BeforeRevocation(states: seq<RaceState>, actions: seq<Action>, n: nat, v: Value)
    requires Race(states, actions) && n < |states|
    ensures RowsExist(states[n])
    ensures (forall m :: 0 <= m <= n ==> !Revoked(states[m], v)) ==> NoneWritten(states[n], v)
  {
    if n > 0 {
      BeforeRevocation(states, actions, n - 1, v);
      assert states[n - 1 + 1] == Step(states[n - 1], actions[n - 1]);
      StepBeforeRevocation(states[n - 1], actions[n - 1], v);
    }
  }

  lemma {:induction false} FromRevocation(states: seq<RaceState>, actions: seq<Action>, k: nat, n: nat, v: Value)
    requires Race(states, actions) && k < n < |states| && Revoked(states[k + 1], v)
    ensures Revoked(states[n], v) && CountThrough(states[n].requests, v) == CountThrough(states[k].requests, v)
    decreases n
  {
    assert states[n - 1 + 1] == Step(states[n - 1], actions[n - 1]);
    if n > k + 1 {
      FromRevocation(states, actions, k, n - 1, v);
    }
    StepFromRevocation(states[n - 1], actions[n - 1], v);
  }

  // ----- Main results -----

  /** The step at which a token is first revoked, by a refresh, a logout or a detected reuse. */
  ghost predicate FirstRevokedAt(states: seq<RaceState>, k: nat, v: Value) {
    && k + 1 < |states|
    && Revoked(states[k + 1], v)
    && forall m :: 0 <= m <= k ==> !Revoked(states[m], v)
  }

  /** A token is refreshed at most as often as refreshes of it were in flight together when it was
      first revoked, and exactly that often once every request has ended. So it is refreshed twice
      exactly if two requests had both read it before either wrote it. */
  lemma SuccessesAreRequestsInFlight(states: seq<RaceState>, actions: seq<Action>, k: nat, n: nat, v: Value)
    requires Race(states, actions) && k < n < |states| && FirstRevokedAt(states, k, v)
    ensures Successes(states[n].requests, v) <= InFlight(states[k].requests, v)
    ensures (forall i :: 0 <= i < |states[n].requests| ==> Finished(states[n].requests[i]))
            ==> Successes(states[n].requests, v) == InFlight(states[k].requests, v)
  {
    BeforeRevocation(states, actions, k, v);
    AllInFlight(states[k].requests, v);
    FromRevocation(states, actions, k, n, v);
    SuccessesAmongThrough(states[n].requests, v);
    if forall i :: 0 <= i < |states[n].requests| ==> Finished(states[n].requests[i]) {
      FinishedThroughSucceeded(states[n].requests, v);
    }
  }

  /** As long as a token is unrevoked nobody has refreshed it. */
  lemma NoSuccessBeforeRevocation(states: seq<RaceState>, actions: seq<Action>, n: nat, v: Value)
    requires Race(states, actions) && n < |states|
    requires forall m :: 0 <= m <= n ==> !Revoked(states[m], v)
    ensures Successes(states[n].requests, v) == 0
  {
    BeforeRevocation(states, actions, n, v);
    NoSuccess(states[n].requests, v);
  }

  lemma {:induction false} NoSuccess(requests: seq<Request>, v: Value)
    requires forall i :: 0 <= i < |requests| && Through(requests[i], v) ==> requests[i].Validated?
    ensures Successes(requests, v) == 0
  {
    if requests != [] {
      NoSuccess(requests[..|requests| - 1], v);
    }
  }

  // ----- When a chain keeps one live token -----

  ghost predicate Forked(s: RaceState) {
    exists a: Value, b: Value :: TwoLive(s.db, a, b)
  }

  predicate TwoLive(db: State, a: Value, b: Value) {
    a < b && Live(db, a) && Live(db, b) && db.tokens[a].chain == db.tokens[b].chain
  }

  /** A token is about to be issued into a chain that has an unrevoked one. */
  ghost predicate IssuesIntoLive(s: RaceState, a: Action) {
    && Enabled(s, a) && a.IssueNext?
    && exists w: Value :: Live(s.db, w) && s.db.tokens[w].chain == s.db.tokens[s.requests[a.i].value].chain
  }

  lemma ForkStep(s: RaceState, a: Action)
    requires Enabled(s, a) && RowsExist(s) && ChainsSound(s.db) && !Forked(s)
    ensures ChainsSound(Step(s, a).db)
    ensures Forked(Step(s, a)) <==> IssuesIntoLive(s, a)
  {
    var t := Step(s, a);
    forall v | 0 <= v < |t.db.tokens|
      ensures ChainSound(t.db, v)
    {
      if v < |s.db.tokens| {
        assert ChainSound(s.db, v);
      } else if a.IssueNext? {
        assert ChainSound(s.db, s.requests[a.i].value);
        assert ChainSound(s.db, s.db.tokens[s.requests[a.i].value].chain);
      }
    }
    if IssuesIntoLive(s, a) {
      var w: Value :| Live(s.db, w) && s.db.tokens[w].chain == s.db.tokens[s.requests[a.i].value].chain;
      assert TwoLive(t.db, w, |s.db.tokens|);
    }
    if v: Value, w: Value :| TwoLive(t.db, v, w) {
      assert Live(s.db, v) && ChainSound(s.db, v);
      assert !TwoLive(s.db, v, w);
    }
  }

  lemma {:induction false} ForkUpTo(states: seq<RaceState>, actions: seq<Action>, n: nat)
    requires Race(states, actions) && n < |states| && ChainsSound(states[0].db) && !Forked(states[0])
    requires forall m :: 0 <= m < n ==> !Forked(states[m])
    ensures RowsExist(states[n]) && ChainsSound(states[n].db)
    ensures n > 0 ==> (Forked(states[n]) <==> IssuesIntoLive(states[n - 1], actions[n - 1]))
  {
    BeforeRevocation(states, actions, n, 0);
    if n > 0 {
      ForkUpTo(states, actions, n - 1);
      assert states[n - 1 + 1] == Step(states[n - 1], actions[n - 1]);
      ForkStep(states[n - 1], actions[n - 1]);
    }
  }

  lemma {:induction false} NoForkUpTo(states: seq<RaceState>, actions: seq<Action>, n: nat)
    requires Race(states, actions) && n < |states| && ChainsSound(states[0].db) && !Forked(states[0])
    requires forall m :: 0 <= m < n ==> !IssuesIntoLive(states[m], actions[m])
    ensures forall m :: 0 <= m <= n ==> !Forked(states[m])
  {
    if n > 0 {
      NoForkUpTo(states, actions, n - 1);
      ForkUpTo(states, actions, n);
    }
  }

  /** Every chain has at most one unrevoked token at every moment exactly if no request issues into a
      chain that has one. */
  lemma OneLiveIffNoIssueIntoLive(states: seq<RaceState>, actions: seq<Action>)
    requires Race(states, actions) && ChainsSound(states[0].db) && !Forked(states[0])
    ensures (forall n :: 0 <= n < |states| ==> !Forked(states[n]))
            <==> (forall n :: 0 <= n < |actions| ==> !IssuesIntoLive(states[n], actions[n]))
  {
    if forall n :: 0 <= n < |actions| ==> !IssuesIntoLive(states[n], actions[n]) {
      NoForkUpTo(states, actions, |actions|);
    } else if forall n :: 0 <= n < |states| ==> !Forked(states[n]) {
      var n :| 0 <= n < |actions| && IssuesIntoLive(states[n], actions[n]);
      ForkUpTo(states, actions, n + 1);
    }
  }

  /** A request that will issue into its token's chain: it has written the row, or has read it as
      valid before it was revoked. */
  predicate Committed(s: RaceState, i: nat) {
    i < |s.requests| && (s.requests[i].Saved? || s.requests[i].Validated?) && Revoked(s, s.requests[i].value)
  }

  function ChainOf(s: RaceState, i: nat): Value
    requires Committed(s, i)
  {
    s.db.tokens[s.requests[i].value].chain
  }

  /** A chain has at most one live token, or at most one request about to issue one, and not both. */
  ghost predicate ChainsInOrder(s: RaceState) {
    && ChainsSound(s.db) && OneLivePerChain(s.db) && RowsExist(s)
    && (forall i: nat :: i < |s.requests| && s.requests[i].Saved? ==> Committed(s, i))
    && (forall i: nat, v: Value :: Committed(s, i) && Live(s.db, v) ==> s.db.tokens[v].chain != ChainOf(s, i))
    && (forall i: nat, j: nat :: Committed(s, i) && Committed(s, j) && i < j ==> ChainOf(s, i) != ChainOf(s, j))
  }

  /** No two requests are between their read of one token and their write of it. */
  ghost predicate OneReaderEach(s: RaceState) {
    forall i, j :: 0 <= i < j < |s.requests| && s.requests[i].Validated? ==> s.requests[j] != s.requests[i]
  }

  /** A revoked token and its requests: what steps that revoke rows do. */
  lemma RevokingKeepsOrder(s: RaceState, t: RaceState)
    requires ChainsInOrder(s) && OneReaderEach(s) && RowsExist(t) && OnlyRevokes(s.db, t.db)
    requires |t.requests| == |s.requests|
    requires forall i: nat :: i < |t.requests| && t.requests[i].Saved? ==> Committed(t, i)
    requires forall i: nat :: Committed(t, i) ==>
               (s.requests[i].Validated? || s.requests[i].Saved?) && s.requests[i].value == t.requests[i].value
    ensures ChainsInOrder(t)
  {
    RevokingKeepsChains(s.db, t.db);
    forall i: nat, v: Value | Committed(t, i) && Live(t.db, v)
      ensures t.db.tokens[v].chain != ChainOf(t, i)
    {
      CommittedBefore(s, t, i);
    }
    forall i: nat, j: nat | Committed(t, i) && Committed(t, j) && i < j
      ensures ChainOf(t, i) != ChainOf(t, j)
    {
      CommittedBefore(s, t, i);
      CommittedBefore(s, t, j);
      assert s.requests[i].Validated? ==> s.requests[j] != s.requests[i];
    }
  }

  lemma CommittedBefore(s: RaceState, t: RaceState, i: nat)
    requires OnlyRevokes(s.db, t.db) && |t.requests| == |s.requests| && Committed(t, i)
    requires (s.requests[i].Validated? || s.requests[i].Saved?) && s.requests[i].value == t.requests[i].value
    requires s.requests[i].Saved? ==> Committed(s, i)
    ensures Committed(s, i) || (s.requests[i].Validated? && Live(s.db, s.requests[i].value))
    ensures s.db.tokens[s.requests[i].value].chain == ChainOf(t, i)
  {
  }

  lemma IssuingKeepsOrder(s: RaceState, i: nat, now: int)
    requires ChainsInOrder(s) && Enabled(s, IssueNext(i, now))
    ensures ChainsInOrder(Step(s, IssueNext(i, now)))
  {
    var t := Step(s, IssueNext(i, now));
    var v := s.requests[i].value;
    var c := s.db.tokens[v].chain;
    assert Committed(s, i);
    assert ChainSound(s.db, v) && ChainSound(s.db, c);
    forall w | 0 <= w < |s.db.tokens| && s.db.tokens[w].chain == c
      ensures s.db.tokens[w].revoked
    {
      assert Live(s.db, w) ==> s.db.tokens[w].chain != ChainOf(s, i);
    }
    IssuingKeepsChains(s.db, s.db.tokens[v].user, c, now);
    forall k: nat | Committed(t, k)
      ensures k != i && Committed(s, k) && ChainOf(t, k) == ChainOf(s, k) != c
    {
      assert k < i ==> ChainOf(s, k) != ChainOf(s, i);
      assert i < k ==> ChainOf(s, i) != ChainOf(s, k);
    }
  }

  lemma LoginKeepsOrder(s: RaceState, user: UserId, now: int)
    requires ChainsInOrder(s)
    ensures ChainsInOrder(Step(s, LogIn(user, now)))
  {
    var t := Step(s, LogIn(user, now));
    IssuingKeepsChains(s.db, user, |s.db.tokens|, now);
    forall k: nat | Committed(t, k)
      ensures Committed(s, k) && ChainOf(t, k) == ChainOf(s, k) < |s.db.tokens|
    {
      assert ChainSound(s.db, s.requests[k].value);
    }
  }

  lemma ReadingKeepsOrder(s: RaceState, i: nat, now: int)
    requires ChainsInOrder(s) && Enabled(s, ReadRow(i, now))
    ensures ChainsInOrder(Step(s, ReadRow(i, now)))
  {
    var t := Step(s, ReadRow(i, now));
    forall k: nat | Committed(t, k)
      ensures Committed(s, k) && ChainOf(t, k) == ChainOf(s, k)
    {
    }
  }

  lemma StepKeepsOrder(s: RaceState, a: Action)
    requires ChainsInOrder(s) && OneReaderEach(s) && Enabled(s, a)
    ensures ChainsInOrder(Step(s, a))
  {
    hide ChainsSound, OneLivePerChain, OneReaderEach;
    StepBeforeRevocation(s, a, 0);
    match a
    case ReadRow(i, now) => ReadingKeepsOrder(s, i, now);
    case IssueNext(i, now) => IssuingKeepsOrder(s, i, now);
    case LogIn(user, now) => LoginKeepsOrder(s, user, now);
    case _ => RevokingKeepsOrder(s, Step(s, a));
  }

  lemma {:induction false} OrderUpTo(states: seq<RaceState>, actions: seq<Action>, n: nat)
    requires Race(states, actions) && n < |states|
    requires ChainsSound(states[0].db) && OneLivePerChain(states[0].db)
    requires forall m :: 0 <= m < n ==> OneReaderEach(states[m])
    ensures ChainsInOrder(states[n])
  {
    if n > 0 {
      OrderUpTo(states, actions, n - 1);
      assert states[n - 1 + 1] == Step(states[n - 1], actions[n - 1]);
      StepKeepsOrder(states[n - 1], actions[n - 1]);
    }
  }

  /** As long as no two requests are together between reading and writing the row of one token, each
      chain has at most one unrevoked token, however else requests overlap. */
  lemma OneLiveUnlessReadTogether(states: seq<RaceState>, actions: seq<Action>, n: nat)
    requires Race(states, actions) && n < |states|
    requires ChainsSound(states[0].db) && OneLivePerChain(states[0].db)
    requires forall m :: 0 <= m < n ==> OneReaderEach(states[m])
    ensures OneLivePerChain(states[n].db) && !Forked(states[n])
  {
    OrderUpTo(states, actions, n);
  }

  // ----- Detected reuse -----

  /** When the tokens of a user are revoked because of a reuse, a token issued to that user before
      succeeds in all at most as often as requests had read it as valid by then, and exactly that
      often once every request has ended: from then on no request that reads it succeeds. */
  lemma ReuseLeavesRequestsInFlight(states: seq<RaceState>, actions: seq<Action>, k: nat, n: nat, v: Value)
    requires Race(states, actions) && k < n < |states| && actions[k].RevokeUser?
    requires v < |states[k].db.tokens|
    requires var reused := states[k].requests[actions[k].i].value;
             states[k].db.tokens[v].user == states[k].db.tokens[reused].user
    ensures Successes(states[n].requests, v) <= CountThrough(states[k].requests, v)
    ensures (forall i :: 0 <= i < |states[n].requests| ==> Finished(states[n].requests[i]))
            ==> Successes(states[n].requests, v) == CountThrough(states[k].requests, v)
  {
    assert states[k + 1] == Step(states[k], actions[k]);
    FromRevocation(states, actions, k, n, v);
    SuccessesAmongThrough(states[n].requests, v);
    if forall i :: 0 <= i < |states[n].requests| ==> Finished(states[n].requests[i]) {
      FinishedThroughSucceeded(states[n].requests, v);
    }
  }

  /** A race that ends in s. */
  ghost predicate Reaches(s: RaceState) {
    exists states, actions :: RaceTo(states, actions, s)
  }

  ghost predicate RaceTo(states: seq<RaceState>, actions: seq<Action>, s: RaceState) {
    Race(states, actions) && states[|actions|] == s
  }

  lemma ReachStep(s: RaceState, a: Action, t: RaceState)
    requires Reaches(s) && Enabled(s, a)
    requires var u := Step(s, a); t.db.tokens == u.db.tokens && t.db.active == u.db.active && t.requests == u.requests
    ensures Reaches(t)
  {
    var states, actions :| RaceTo(states, actions, s);
    var states', actions' := states + [t], actions + [a];
    assert t == Step(s, a);
    assert forall m :: 0 <= m < |actions| ==> actions'[m] == actions[m] && states'[m] == states[m];
    assert RaceTo(states', actions', t);
  }

  /** Two overlapping refreshes of one token both succeed and leave two live tokens in its chain. */
  lemma OverlappingRefreshesBothSucceed(user: UserId) returns (s: RaceState)
    ensures Reaches(s) && Successes(s.requests, 0) == 2 && Forked(s)
  {
    var root := Token(user, 0, 1, false);
    var next := Token(user, 0, REFRESH_TTL_MS, false);
    var spent := root.(revoked := true);
    var s0 := RaceState(State([root], {user}), [Waiting(0), Waiting(0)]);
    var s1 := s0.(requests := [Validated(0), Waiting(0)]);
    var s2 := s0.(requests := [Validated(0), Validated(0)]);
    var s3 := RaceState(State([spent], {user}), [Saved(0), Validated(0)]);
    var s4 := RaceState(State([spent], {user}), [Saved(0), Saved(0)]);
    var s5 := RaceState(State([spent, next], {user}), [Succeeded(0), Saved(0)]);
    s := RaceState(State([spent, next, next], {user}), [Succeeded(0), Succeeded(0)]);
    assert RaceTo([s0], [], s0);
    ReachStep(s0, ReadRow(0, 0), s1);
    ReachStep(s1, ReadRow(1, 0), s2);
    ReachStep(s2, Save(0), s3);
    ReachStep(s3, Save(1), s4);
    ReachStep(s4, IssueNext(0, 0), s5);
    ReachStep(s5, IssueNext(1, 0), s);
    assert TwoLive(s.db, 1, 2);
    assert s.requests[..1] == [Succeeded(0)] && s.requests[..1][..0] == [];
    assert Successes(s.requests[..1], 0) == 1;
  }

  /** Whenever two requests are together between reading and writing the row of one token, the race can
      go on to leave two unrevoked tokens in its chain. */
  lemma ReadTogetherCanFork(s: RaceState, i: nat, j: nat, now: int) returns (t: RaceState)
    requires Reaches(s) && i < j < |s.requests| && s.requests[i].Validated? && s.requests[j] == s.requests[i]
    requires s.requests[i].value < |s.db.tokens|
    ensures Reaches(t) && Forked(t)
  {
    var v := s.requests[i].value;
    var s1 := Step(s, Save(i));
    ReachStep(s, Save(i), s1);
    var s2 := Step(s1, Save(j));
    ReachStep(s1, Save(j), s2);
    var s3 := Step(s2, IssueNext(i, now));
    ReachStep(s2, IssueNext(i, now), s3);
    t := Step(s3, IssueNext(j, now));
    ReachStep(s3, IssueNext(j, now), t);
    assert TwoLive(t.db, |s.db.tokens|, |s.db.tokens| + 1);
  }

  /** A token is read as valid, then the reuse of an older one is detected and all are revoked, and
      then the first request goes on: it succeeds, and its user keeps a live token. */
  lemma OverlappingRefreshSurvivesReuse(user: UserId)
    returns (states: seq<RaceState>, actions: seq<Action>)
    ensures Race(states, actions) && |actions| == 5 && actions[2].RevokeUser?
    ensures var reused := states[2].requests[actions[2].i].value;
            reused < |states[2].db.tokens| && states[2].db.tokens[reused].user == user
    ensures Successes(states[3].requests, 1) == 0 && Successes(states[5].requests, 1) == 1
    ensures Live(states[5].db, 2) && states[5].db.tokens[2].user == user
  {
    var stale := Token(user, 0, 1, true);
    var root := Token(user, 0, 1, false);
    var spent := root.(revoked := true);
    var next := Token(user, 0, REFRESH_TTL_MS, false);
    var s0 := RaceState(State([stale, root], {user}), [Waiting(0), Waiting(1)]);
    var s1 := s0.(requests := [Waiting(0), Validated(1)]);
    var s2 := s0.(requests := [Reusing(0), Validated(1)]);
    var s3 := RaceState(State([stale, spent], {user}), [Refused, Validated(1)]);
    var s4 := s3.(requests := [Refused, Saved(1)]);
    var s5 := RaceState(State([stale, spent, next], {user}), [Refused, Succeeded(1)]);
    states := [s0, s1, s2, s3, s4, s5];
    actions := [ReadRow(1, 0), ReadRow(0, 0), RevokeUser(0), Save(1), IssueNext(1, 0)];
    assert RevokeAll(s2.db, user).tokens == s3.db.tokens;
    assert s1 == Step(s0, actions[0]) && s2 == Step(s1, actions[1]) && s3 == Step(s2, actions[2]);
    assert s4 == Step(s3, actions[3]) && s5 == Step(s4, actions[4]);
    CountTwo(Refused, Validated(1), 1);
    CountTwo(Refused, Succeeded(1), 1);
  }

  lemma CountTwo(a: Request, b: Request, v: Value)
    ensures Successes([a, b], v) == (if a == Succeeded(v) then 1 else 0) + if b == Succeeded(v) then 1 else 0
  {
    assert [a, b][..1] == [a] && [a][..0] == [];
    assert Successes([a], v) == if a == Succeeded(v) then 1 else 0;
  }
}
