/** Refresh-token rotation with reuse detection, as section 4.14.2 of RFC 9700 describes it, for users
    and for administrators: the two services keep the same rows by the same rules. Requests run one
    after another here; RefreshRace lets them overlap.

    Token values are random and their hashes are taken to be distinct, so a token is its index in
    the table. */
module RefreshTokens {
  import opened Options

  const REFRESH_TTL_MS := 7 * 24 * 60 * 60 * 1000

  type UserId = nat
  type Value = nat

  /** `chain` is the token that the login issued, from which this one descends; the program does not keep it. */
  datatype Token = Token(user: UserId, chain: Value, expiresAt: int, revoked: bool)

  datatype State = State(tokens: seq<Token>, active: set<UserId>)

  datatype Request =
    | Login(user: UserId, now: int)
    | Refresh(value: Value, now: int)
    | Logout(user: UserId, value: Value)
    | SetActive(user: UserId, active: bool)   // a user is banned, or allowed again

  datatype Reply = Issued(value: Value) | Invalid | ReuseDetected | Expired | Ok

  // ----- What the requests do -----

  function Issue(s: State, user: UserId, chain: Value, now: int): State {
    s.(tokens := s.tokens + [Token(user, chain, now + REFRESH_TTL_MS, false)])
  }

  function Revoke(s: State, value: Value): State
    requires value < |s.tokens|
  {
    s.(tokens := s.tokens[value := s.tokens[value].(revoked := true)])
  }

  function RevokeAll(s: State, user: UserId): (r: State)
    ensures |r.tokens| == |s.tokens| && r.active == s.active
    ensures forall v :: 0 <= v < |s.tokens| ==>
              r.tokens[v] == if s.tokens[v].user == user then s.tokens[v].(revoked := true) else s.tokens[v]
  {
    s.(tokens := seq(|s.tokens|, v requires 0 <= v < |s.tokens| =>
      if s.tokens[v].user == user then s.tokens[v].(revoked := true) else s.tokens[v]))
  }

  function Serve(s: State, r: Request): (State, Reply) {
    match r
    case Login(user, now) => (Issue(s, user, |s.tokens|, now), Issued(|s.tokens|))
    case Refresh(value, now) =>
      if value >= |s.tokens| then (s, Invalid)
      else
        var record := s.tokens[value];
        if record.revoked then (RevokeAll(s, record.user), ReuseDetected)
        else if record.expiresAt <= now then (s, Expired)
        else if record.user !in s.active then (s, Invalid)
        else (Issue(Revoke(s, value), record.user, record.chain, now), Issued(|s.tokens|))
    case Logout(user, value) =>
      if value < |s.tokens| && s.tokens[value].user == user && !s.tokens[value].revoked
      then (Revoke(s, value), Ok) else (s, Ok)
    case SetActive(user, active) =>
      (s.(active := if active then s.active + {user} else s.active - {user}), Ok)
  }

  function Run(requests: seq<Request>): State {
    if requests == [] then State([], {})
    else Serve(Run(requests[..|requests| - 1]), requests[|requests| - 1]).0
  }

  /** The reply to the n-th request of a run. */
  function ReplyTo(requests: seq<Request>, n: nat): Reply
    requires n < |requests|
  {
    Serve(Run(requests[..n]), requests[n]).1
  }

  // ----- The service -----

  class AuthService {
    var tokens: seq<Token>
    var active: set<UserId>

    function View(): State
      reads this
    {
      State(tokens, active)
    }

    constructor ()
      ensures View() == Run([])
    {
      tokens := [];
      active := {};
    }

    method CreateSession(user: UserId, chain: Value, now: int) returns (value: Value)
      modifies this
      ensures View() == Issue(old(View()), user, chain, now) && value == |old(tokens)|
    {
      value := |tokens|;
      tokens := tokens + [Token(user, chain, now + REFRESH_TTL_MS, false)];
    }

    method HandleLogin(user: UserId, now: int) returns (reply: Reply)
      modifies this
      ensures (View(), reply) == Serve(old(View()), Login(user, now))
    {
      var value := CreateSession(user, |tokens|, now);
      reply := Issued(value);
    }

    /** `refresh`: find the row, detect reuse, check expiry and user, revoke the row, issue the next token. */
    method HandleRefresh(value: Value, now: int) returns (reply: Reply)
      modifies this
      ensures (View(), reply) == Serve(old(View()), Refresh(value, now))
    {
      if value >= |tokens| {
        return Invalid;
      }
      var record := tokens[value];
      if record.revoked {
        RevokeAllForUser(record.user);
        return ReuseDetected;
      }
      if record.expiresAt <= now {
        return Expired;
      }
      if record.user !in active {
        return Invalid;
      }
      tokens := tokens[value := record.(revoked := true)];
      var issued := CreateSession(record.user, record.chain, now);
      reply := Issued(issued);
    }

    method HandleLogout(user: UserId, value: Value) returns (reply: Reply)
      modifies this
      ensures (View(), reply) == Serve(old(View()), Logout(user, value))
    {
      if value < |tokens| && tokens[value].user == user && !tokens[value].revoked {
        tokens := tokens[value := tokens[value].(revoked := true)];
      }
      reply := Ok;
    }

    method RevokeAllForUser(user: UserId)
      modifies this
      ensures View() == RevokeAll(old(View()), user)
    {
      var v := 0;
      while v < |tokens|
        invariant 0 <= v <= |tokens| == old(|tokens|) && active == old(active)
        invariant forall w :: 0 <= w < v ==> tokens[w] == RevokeAll(old(View()), user).tokens[w]
        invariant forall w :: v <= w < |tokens| ==> tokens[w] == old(tokens)[w]
      {
        if tokens[v].user == user {
          tokens := tokens[v := tokens[v].(revoked := true)];
        }
        v := v + 1;
      }
    }
  }

  // ----- One live token a chain -----

  predicate Live(s: State, v: Value) {
    v < |s.tokens| && !s.tokens[v].revoked
  }

  /** Only the newest token of a chain can be unrevoked. */
  ghost predicate OneLivePerChain(s: State) {
    forall v, w :: 0 <= v < w < |s.tokens| && s.tokens[v].chain == s.tokens[w].chain ==> s.tokens[v].revoked
  }

  /** A chain is named by its first token and stays with one user. */
  predicate ChainSound(s: State, v: Value) {
    v < |s.tokens|
    && var c := s.tokens[v].chain;
       c <= v && s.tokens[c].user == s.tokens[v].user && s.tokens[c].chain == c
  }

  ghost predicate ChainsSound(s: State) {
    forall v :: 0 <= v < |s.tokens| ==> ChainSound(s, v)
  }

  /** Same users and chains, and nothing unrevoked that was revoked. */
  ghost predicate OnlyRevokes(s: State, t: State) {
    && |t.tokens| == |s.tokens|
    && forall v :: 0 <= v < |s.tokens| ==>
         && t.tokens[v].user == s.tokens[v].user && t.tokens[v].chain == s.tokens[v].chain
         && (s.tokens[v].revoked ==> t.tokens[v].revoked)
  }

  lemma RevokingKeepsChains(s: State, t: State)
    requires OneLivePerChain(s) && ChainsSound(s) && OnlyRevokes(s, t)
    ensures OneLivePerChain(t) && ChainsSound(t)
  {
    forall v | 0 <= v < |t.tokens|
      ensures ChainSound(t, v)
    {
      assert ChainSound(s, v);
    }
  }

  /** A new token keeps the chains sound if it starts one of its own, or if all of its chain is revoked. */
  lemma IssuingKeepsChains(s: State, user: UserId, chain: Value, now: int)
    requires OneLivePerChain(s) && ChainsSound(s)
    requires || chain == |s.tokens|
             || (chain < |s.tokens| && s.tokens[chain].user == user && s.tokens[chain].chain == chain
                 && forall v :: 0 <= v < |s.tokens| && s.tokens[v].chain == chain ==> s.tokens[v].revoked)
    ensures OneLivePerChain(Issue(s, user, chain, now)) && ChainsSound(Issue(s, user, chain, now))
  {
    var t := Issue(s, user, chain, now);
    forall v, w | 0 <= v < w < |t.tokens| && t.tokens[v].chain == t.tokens[w].chain
      ensures t.tokens[v].revoked
    {
      assert ChainSound(s, v);
    }
    forall v | 0 <= v < |t.tokens|
      ensures ChainSound(t, v)
    {
      if v < |s.tokens| {
        assert ChainSound(s, v);
      }
    }
  }

  lemma ServeKeepsChains(s: State, r: Request)
    requires OneLivePerChain(s) && ChainsSound(s)
    ensures var t := Serve(s, r).0; OneLivePerChain(t) && ChainsSound(t)
  {
    match r
    case Login(user, now) =>
      IssuingKeepsChains(s, user, |s.tokens|, now);
    case Refresh(value, now) =>
      if value < |s.tokens| {
        var record := s.tokens[value];
        RevokingKeepsChains(s, RevokeAll(s, record.user));
        RevokingKeepsChains(s, Revoke(s, value));
        if !record.revoked {
          assert ChainSound(s, value) && ChainSound(s, record.chain);
          LiveIsLastOfChain(s, value);
          IssuingKeepsChains(Revoke(s, value), record.user, record.chain, now);
        }
      }
    case Logout(user, value) =>
      if value < |s.tokens| {
        RevokingKeepsChains(s, Revoke(s, value));
      }
    case SetActive(_, _) => RevokingKeepsChains(s, Serve(s, r).0);
  }

  lemma LiveIsLastOfChain(s: State, value: Value)
    requires OneLivePerChain(s) && Live(s, value)
    ensures forall v :: 0 <= v < |s.tokens| && s.tokens[v].chain == s.tokens[value].chain && v != value ==>
              s.tokens[v].revoked
  {
    forall v | 0 <= v < |s.tokens| && s.tokens[v].chain == s.tokens[value].chain && v != value
      ensures s.tokens[v].revoked
    {
      assert v < value || value < v;
    }
  }

  /** After any run of requests, each chain of tokens rotated from one login has at most one unrevoked member. */
  lemma {:induction false} ChainHasOneLive(requests: seq<Request>)
    ensures OneLivePerChain(Run(requests)) && ChainsSound(Run(requests))
    decreases |requests|
  {
    if requests != [] {
      var before := requests[..|requests| - 1];
      ChainHasOneLive(before);
      ServeKeepsChains(Run(before), requests[|requests| - 1]);
    }
  }

  // ----- Revoked for ever -----

  /** Tokens stay where they are; what was revoked stays revoked. */
  ghost predicate Extends(s: State, t: State) {
    && |s.tokens| <= |t.tokens|
    && forall v :: 0 <= v < |s.tokens| ==>
         && t.tokens[v].user == s.tokens[v].user && t.tokens[v].expiresAt == s.tokens[v].expiresAt
         && (s.tokens[v].revoked ==> t.tokens[v].revoked)
  }

  lemma {:induction false} RunExtends(requests: seq<Request>, n: nat)
    requires n <= |requests|
    ensures Extends(Run(requests[..n]), Run(requests))
    decreases |requests|
  {
    if n == |requests| {
      assert requests[..n] == requests;
    } else {
      var before := requests[..|requests| - 1];
      RunExtends(before, n);
      assert before[..n] == requests[..n];
    }
  }

  predicate Succeeds(requests: seq<Request>, n: nat, v: Value) {
    n < |requests| && requests[n].Refresh? && requests[n].value == v && ReplyTo(requests, n).Issued?
  }

  lemma StaysRevoked(requests: seq<Request>, n: nat, m: nat, v: Value)
    requires n <= m <= |requests|
    requires var s := Run(requests[..n]); v < |s.tokens| && s.tokens[v].revoked
    ensures var s := Run(requests[..m]); v < |s.tokens| && s.tokens[v].revoked
  {
    RunExtends(requests[..m], n);
    assert requests[..m][..n] == requests[..n];
  }

  lemma AfterRequest(requests: seq<Request>, n: nat)
    requires n < |requests|
    ensures Run(requests[..n + 1]) == Serve(Run(requests[..n]), requests[n]).0
  {
    assert requests[..n + 1][..n] == requests[..n];
  }

  /** A token value is refreshed successfully at most once. */
  lemma RefreshedAtMostOnce(requests: seq<Request>, n: nat, m: nat, v: Value)
    requires n < m < |requests| && Succeeds(requests, n, v)
    ensures !Succeeds(requests, m, v)
  {
    AfterRequest(requests, n);
    StaysRevoked(requests, n + 1, m, v);
  }

  /** Once a revoked token has been presented, no token issued to its user up to then is ever
      refreshed again: theft ends with the first reuse, whoever comes second. */
  lemma ReuseKillsIssuedTokens(requests: seq<Request>, n: nat, m: nat, v: Value)
    requires n < m < |requests| && ReplyTo(requests, n) == ReuseDetected
    requires v < |Run(requests[..n]).tokens|
    requires Run(requests[..n]).tokens[v].user == Run(requests[..n]).tokens[requests[n].value].user
    ensures !Succeeds(requests, m, v)
  {
    AfterRequest(requests, n);
    StaysRevoked(requests, n + 1, m, v);
  }

  /** A token issued at a moment succeeds only within seven days of it. */
  lemma SuccessWithinLifetime(requests: seq<Request>, n: nat, m: nat, v: Value)
    requires n < m < |requests| && (requests[n].Login? || requests[n].Refresh?)
    requires ReplyTo(requests, n) == Issued(v) && Succeeds(requests, m, v)
    ensures requests[m].now < requests[n].now + REFRESH_TTL_MS
  {
    AfterRequest(requests, n);
    RunExtends(requests[..m], n + 1);
    assert requests[..m][..n + 1] == requests[..n + 1];
  }

  /** A successful refresh hands the chain on: the issued token is of the same user and chain, and
      from then on it is the one unrevoked token of that chain. */
  lemma RefreshMovesLiveToken(requests: seq<Request>, n: nat, v: Value, w: Value)
    requires Succeeds(requests, n, v)
    ensures var t, issued := Run(requests[..n + 1]), ReplyTo(requests, n).value;
            && issued < |t.tokens| && v < |t.tokens|
            && t.tokens[issued].user == t.tokens[v].user && t.tokens[issued].chain == t.tokens[v].chain
            && (w < |t.tokens| && t.tokens[w].chain == t.tokens[v].chain ==> (Live(t, w) <==> w == issued))
  {
    AfterRequest(requests, n);
    ChainHasOneLive(requests[..n + 1]);
  }

  // ----- Replies by the requests before -----

  /** The request before the n-th that issued a token value. */
  function IssuedAt(requests: seq<Request>, n: nat, v: Value): (m: Option<nat>)
    requires n <= |requests|
    ensures m.Some? ==> m.value < n && (requests[m.value].Login? || requests[m.value].Refresh?)
  {
    if n == 0 then None
    else if ReplyTo(requests, n - 1) == Issued(v) then Some(n - 1)
    else IssuedAt(requests, n - 1, v)
  }

  /** Whose token it is: of the user that logged in, or of the one whose token was refreshed. */
  function OwnerOf(requests: seq<Request>, n: nat, v: Value): Option<UserId>
    requires n <= |requests|
    decreases n
  {
    var m := IssuedAt(requests, n, v);
    if m.None? then None
    else
      match requests[m.value]
      case Login(user, _) => Some(user)
      case Refresh(w, _) => OwnerOf(requests, m.value, w)
      case _ => None
  }

  /** Whether a user was last set active. */
  function LastSetActive(requests: seq<Request>, n: nat, user: UserId): bool
    requires n <= |requests|
  {
    if n == 0 then false
    else
      match requests[n - 1]
      case SetActive(u, active) => if u == user then active else LastSetActive(requests, n - 1, user)
      case _ => LastSetActive(requests, n - 1, user)
  }

  /** A request that ends a token: its own refresh, a logout of it by its owner, or a detected reuse of
      any token of its owner. */
  predicate Ends(requests: seq<Request>, i: nat, v: Value)
    requires i < |requests|
  {
    match requests[i]
    case Refresh(w, _) =>
      || (w == v && ReplyTo(requests, i).Issued?)
      || (ReplyTo(requests, i) == ReuseDetected && OwnerOf(requests, i, w) == OwnerOf(requests, i, v))
    case Logout(user, w) => w == v && OwnerOf(requests, i, v) == Some(user)
    case _ => false
  }

  /** The token was issued before the n-th request, and ended since. */
  predicate EndedBefore(requests: seq<Request>, n: nat, v: Value)
    requires n <= |requests|
  {
    && IssuedAt(requests, n, v).Some?
    && exists i | IssuedAt(requests, n, v).value < i < n :: Ends(requests, i, v)
  }

  /** What the table says of a token is what the requests say. */
  ghost predicate TableTells(requests: seq<Request>, n: nat, v: Value)
    requires n <= |requests|
  {
    var s, m := Run(requests[..n]), IssuedAt(requests, n, v);
    && (v < |s.tokens| <==> m.Some?)
    && (m.Some? ==>
          && OwnerOf(requests, n, v) == Some(s.tokens[v].user)
          && s.tokens[v].expiresAt == IssueTime(requests, m.value) + 7 * 24 * 60 * 60 * 1000
          && (s.tokens[v].revoked <==> EndedBefore(requests, n, v)))
  }

  function IssueTime(requests: seq<Request>, m: nat): int
    requires m < |requests| && (requests[m].Login? || requests[m].Refresh?)
  {
    requests[m].now
  }

  lemma {:induction false} ActiveTells(requests: seq<Request>, n: nat, user: UserId)
    requires n <= |requests|
    ensures user in Run(requests[..n]).active <==> LastSetActive(requests, n, user)
  {
    if n > 0 {
      ActiveTells(requests, n - 1, user);
      AfterRequest(requests, n - 1);
    }
  }

  /** A request that neither issues nor ends a token leaves what is told of it. */
  lemma EndedStep(requests: seq<Request>, n: nat, v: Value)
    requires n < |requests|
    ensures ReplyTo(requests, n) == Issued(v) ==>
              !EndedBefore(requests, n + 1, v) && IssuedAt(requests, n + 1, v) == Some(n)
    ensures ReplyTo(requests, n) != Issued(v) ==>
              && IssuedAt(requests, n + 1, v) == IssuedAt(requests, n, v)
              && OwnerOf(requests, n + 1, v) == OwnerOf(requests, n, v)
              && (EndedBefore(requests, n + 1, v)
                  <==> EndedBefore(requests, n, v) || (IssuedAt(requests, n, v).Some? && Ends(requests, n, v)))
  {
  }

  lemma IssuedStep(requests: seq<Request>, n: nat, v: Value)
    requires n < |requests| && ReplyTo(requests, n) == Issued(v)
    requires requests[n].Refresh? ==> TableTells(requests, n, requests[n].value)
    ensures TableTells(requests, n + 1, v)
  {
    hide EndedBefore, Ends;
    AfterRequest(requests, n);
    EndedStep(requests, n, v);
  }

  lemma KeptStep(requests: seq<Request>, n: nat, v: Value)
    requires n < |requests| && ReplyTo(requests, n) != Issued(v) && TableTells(requests, n, v)
    requires requests[n].Refresh? ==> TableTells(requests, n, requests[n].value)
    ensures TableTells(requests, n + 1, v)
  {
    hide EndedBefore, Run, OwnerOf, IssuedAt;
    AfterRequest(requests, n);
    EndedStep(requests, n, v);
  }

  lemma {:induction false} TableTellsAll(requests: seq<Request>, n: nat)
    requires n <= |requests|
    ensures forall v: Value :: TableTells(requests, n, v)
    decreases n
  {
    if n > 0 {
      TableTellsAll(requests, n - 1);
      forall v: Value
        ensures TableTells(requests, n, v)
      {
        if ReplyTo(requests, n - 1) == Issued(v) {
          IssuedStep(requests, n - 1, v);
        } else {
          KeptStep(requests, n - 1, v);
        }
      }
    }
  }

  /** The reply to every refresh by the requests before it alone. A token that nobody issued is unknown.
      One that was refreshed, logged out by its owner, or revoked with all of its owner's, is a reuse.
      Of the others one is too old seven days after its issue; and a young one is refreshed exactly if
      its owner was last set active. */
  lemma RefreshReply(requests: seq<Request>, n: nat)
    requires n < |requests| && requests[n].Refresh?
    ensures var v, now, reply := requests[n].value, requests[n].now, ReplyTo(requests, n);
            var m, owner := IssuedAt(requests, n, v), OwnerOf(requests, n, v);
            && (m.Some? <==> owner.Some?)
            && (reply == ReuseDetected <==> EndedBefore(requests, n, v))
            && (reply == Expired <==> m.Some? && !EndedBefore(requests, n, v)
                                      && now >= IssueTime(requests, m.value) + 604800000)
            && (reply.Issued? <==> m.Some? && !EndedBefore(requests, n, v)
                                   && now < IssueTime(requests, m.value) + 604800000
                                   && LastSetActive(requests, n, owner.value))
            && (reply.Issued? ==> IssuedAt(requests, n, reply.value).None?)
            && reply != Ok
  {
    var v := requests[n].value;
    TableTellsAll(requests, n);
    assert TableTells(requests, n, v) && TableTells(requests, n, |Run(requests[..n]).tokens|);
    if IssuedAt(requests, n, v).Some? {
      ActiveTells(requests, n, OwnerOf(requests, n, v).value);
    }
  }

  /** A login always gets a token that nobody had, a logout and a change of status never. */
  lemma OtherReplies(requests: seq<Request>, n: nat)
    requires n < |requests| && !requests[n].Refresh?
    ensures var reply := ReplyTo(requests, n);
            && (reply.Issued? <==> requests[n].Login?)
            && (reply.Issued? ==> IssuedAt(requests, n, reply.value).None?)
  {
    TableTellsAll(requests, n);
    assert TableTells(requests, n, |Run(requests[..n]).tokens|);
  }

  // ----- Counting -----

  function LiveCount(tokens: seq<Token>, user: UserId): nat {
    if tokens == [] then 0
    else
      var last := tokens[|tokens| - 1];
      LiveCount(tokens[..|tokens| - 1], user) + if last.user == user && !last.revoked then 1 else 0
  }

  function LiveOne(t: Token, user: UserId): nat {
    if t.user == user && !t.revoked then 1 else 0
  }

  lemma {:induction false} LiveCountUpdate(tokens: seq<Token>, v: nat, t: Token, user: UserId)
    requires v < |tokens|
    ensures LiveCount(tokens[v := t], user) + LiveOne(tokens[v], user) == LiveCount(tokens, user) + LiveOne(t, user)
  {
    var last := |tokens| - 1;
    if v < last {
      LiveCountUpdate(tokens[..last], v, t, user);
      assert tokens[v := t][..last] == tokens[..last][v := t];
    } else {
      assert tokens[v := t][..last] == tokens[..last];
    }
  }

  lemma LiveCountAppend(tokens: seq<Token>, t: Token, user: UserId)
    ensures LiveCount(tokens + [t], user) == LiveCount(tokens, user) + LiveOne(t, user)
  {
    assert (tokens + [t])[..|tokens|] == tokens;
  }

  /** A successful refresh leaves every user's number of unrevoked tokens as it was. */
  lemma RefreshKeepsLiveCount(s: State, value: Value, now: int, user: UserId)
    requires Serve(s, Refresh(value, now)).1.Issued?
    ensures LiveCount(Serve(s, Refresh(value, now)).0.tokens, user) == LiveCount(s.tokens, user)
  {
    var record := s.tokens[value];
    var revoked := Revoke(s, value);
    LiveCountUpdate(s.tokens, value, record.(revoked := true), user);
    LiveCountAppend(revoked.tokens, Token(record.user, record.chain, now + REFRESH_TTL_MS, false), user);
  }

  /** Reuse leaves the user without a live token and everybody else as they were. */
  lemma {:induction false} ReuseClearsUser(s: State, user: UserId, other: UserId)
    ensures LiveCount(RevokeAll(s, user).tokens, other) == if other == user then 0 else LiveCount(s.tokens, other)
    decreases |s.tokens|
  {
    if s.tokens != [] {
      var last := |s.tokens| - 1;
      var shorter := s.(tokens := s.tokens[..last]);
      ReuseClearsUser(shorter, user, other);
      assert RevokeAll(s, user).tokens[..last] == RevokeAll(shorter, user).tokens;
    }
  }
}
