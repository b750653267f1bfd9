/** Requests to accept one invite that overlap: the invite is read, the membership looked for, the
    member row inserted and the invite removed by separate statements. */
module InviteRace {
  import opened Counting

  type UserId = nat

  /** How far a request has come. */
  datatype Request =
    | Waiting(user: UserId)
    | HasInvite(user: UserId)   // the invite was found, not expired
    | MayJoin(user: UserId)     // no membership was found
    | Joined(user: UserId)      // the member row is in
    | Accepted(user: UserId)    // and the invite removed
    | Refused

  /** The invite, while it is there; the members of its company; the requests; and whether a request
      ever read the invite while another one was between reading and removing it. */
  datatype State = State(present: bool, members: seq<UserId>, requests: seq<Request>, overlapped: bool)

  datatype Action = ReadInvite(i: nat) | LookForMember(i: nat) | InsertMember(i: nat) | RemoveInvite(i: nat)

  predicate Enabled(s: State, a: Action) {
    && a.i < |s.requests|
    && match a
       case ReadInvite(i) => s.requests[i].Waiting?
       case LookForMember(i) => s.requests[i].HasInvite?
       case InsertMember(i) => s.requests[i].MayJoin?
       case RemoveInvite(i) => s.requests[i].Joined?
  }

  predicate Inside(r: Request) {
    r.HasInvite? || r.MayJoin? || r.Joined?
  }

  function Step(s: State, a: Action): State
    requires Enabled(s, a)
  {
    var user := s.requests[a.i].user;
    match a
    case ReadInvite(i) =>
      s.(requests := s.requests[i := if s.present then HasInvite(user) else Refused],
         overlapped := s.overlapped || (s.present && SomeInside(s.requests)))
    case LookForMember(i) => s.(requests := s.requests[i := if user in s.members then Refused else MayJoin(user)])
    case InsertMember(i) => s.(members := s.members + [user], requests := s.requests[i := Joined(user)])
    case RemoveInvite(i) => s.(present := false, requests := s.requests[i := Accepted(user)])
  }

  predicate SomeInside(requests: seq<Request>) {
    exists r <- requests :: Inside(r)
  }

  predicate Init(s: State) {
    && s.present && !s.overlapped
    && (forall i :: 0 <= i < |s.requests| ==> s.requests[i].Waiting?)
    && NoneTwice(s.members)
  }

  ghost predicate Race(states: seq<State>, actions: seq<Action>) {
    && |states| == |actions| + 1
    && Init(states[0])
    && forall n :: 0 <= n < |actions| ==> Enabled(states[n], actions[n]) && states[n + 1] == Step(states[n], actions[n])
  }

  /** One request that nobody comes between, statement by statement. */
  function Alone(s: State, i: nat): State
    requires i < |s.requests| && s.requests[i].Waiting?
  {
    var read := Step(s, ReadInvite(i));
    if read.requests[i].Refused? then read
    else
      var looked := Step(read, LookForMember(i));
      if looked.requests[i].Refused? then looked
      else Step(Step(looked, InsertMember(i)), RemoveInvite(i))
  }

  /** Undisturbed, a request joins and uses the invite up exactly if the invite is there and its user is
      not yet a member; a refused one leaves the members and the invite as they are. */
  lemma UndisturbedAccept(s: State, i: nat)
    requires i < |s.requests| && s.requests[i].Waiting?
    ensures var t, user := Alone(s, i), s.requests[i].user;
            if s.present && user !in s.members
            then t.requests == s.requests[i := Accepted(user)] && !t.present && t.members == s.members + [user]
            else t.requests == s.requests[i := Refused] && t.present == s.present && t.members == s.members
  {
  }

  /** Requests that have used the invite to join. */
  function Uses(requests: seq<Request>): nat {
    if requests == [] then 0
    else
      var last := requests[|requests| - 1];
      Uses(requests[..|requests| - 1]) + if last.Joined? || last.Accepted? then 1 else 0
  }

  lemma {:induction false} UsesUpdate(requests: seq<Request>, i: nat, r: Request)
    requires i < |requests|
    ensures Uses(requests[i := r]) + (if requests[i].Joined? || requests[i].Accepted? then 1 else 0)
            == Uses(requests) + if r.Joined? || r.Accepted? then 1 else 0
  {
    var last := |requests| - 1;
    if i < last {
      UsesUpdate(requests[..last], i, r);
      assert requests[i := r][..last] == requests[..last][i := r];
    } else {
      assert requests[i := r][..last] == requests[..last];
    }
  }

  lemma {:induction false} NoUses(requests: seq<Request>)
    requires forall i :: 0 <= i < |requests| ==> !requests[i].Joined? && !requests[i].Accepted?
    ensures Uses(requests) == 0
  {
    if requests != [] {
      NoUses(requests[..|requests| - 1]);
    }
  }

  // ----- Without overlap -----

  /** While requests do not overlap, at most one is inside, the invite is there for it, and nobody
      has used the invite before. */
  ghost predicate Orderly(s: State) {
    && NoneTwice(s.members)
    && (forall i, j :: 0 <= i < j < |s.requests| && Inside(s.requests[i]) ==> !Inside(s.requests[j]))
    && (forall i :: 0 <= i < |s.requests| && Inside(s.requests[i]) ==> s.present)
    && (forall i :: 0 <= i < |s.requests| && s.requests[i].MayJoin? ==> s.requests[i].user !in s.members)
    && (s.present ==> forall i :: 0 <= i < |s.requests| ==> !s.requests[i].Accepted?)
    && Uses(s.requests) <= 1
  }

  lemma OrderlyStep(s: State, a: Action)
    requires Orderly(s) && Enabled(s, a) && !Step(s, a).overlapped
    ensures Orderly(Step(s, a))
  {
    var t := Step(s, a);
    UsesUpdate(s.requests, a.i, t.requests[a.i]);
    if a.InsertMember? {
      forall i | 0 <= i < |s.requests|
        ensures !s.requests[i].Joined? && !s.requests[i].Accepted?
      {
        assert Inside(s.requests[a.i]);
      }
      NoUses(s.requests);
    }
    if a.ReadInvite? && s.present {
      assert forall i :: 0 <= i < |s.requests| ==> s.requests[i] in s.requests;
    }
  }

  lemma {:induction false} OrderlyRun(states: seq<State>, actions: seq<Action>, n: nat)
    requires Race(states, actions) && n < |states| && !states[n].overlapped
    ensures Orderly(states[n])
  {
    if n == 0 {
      NoUses(states[0].requests);
    } else {
      assert states[n - 1 + 1] == Step(states[n - 1], actions[n - 1]);
      OrderlyRun(states, actions, n - 1);
      OrderlyStep(states[n - 1], actions[n - 1]);
    }
  }

  /** As long as no request reads the invite while another is between reading and removing it, the
      invite is used at most once and nobody is a member twice. */
  lemma UsedOnceWithoutOverlap(states: seq<State>, actions: seq<Action>, n: nat)
    requires Race(states, actions) && n < |states| && !states[n].overlapped
    ensures Uses(states[n].requests) <= 1 && NoneTwice(states[n].members)
  {
    OrderlyRun(states, actions, n);
  }

  // ----- Exactly how often -----

  /** A look-up that finds no membership of its user. */
  predicate FindsNone(s: State, a: Action) {
    Enabled(s, a) && a.LookForMember? && s.requests[a.i].user !in s.members
  }

  predicate FindsNoneOf(s: State, a: Action, u: UserId) {
    FindsNone(s, a) && s.requests[a.i].user == u
  }

  /** How many look-ups so far found no membership, of anybody and of one user. */
  function Admitted(states: seq<State>, actions: seq<Action>, n: nat): nat
    requires n <= |actions| && n <= |states|
  {
    if n == 0 then 0
    else Admitted(states, actions, n - 1) + if FindsNone(states[n - 1], actions[n - 1]) then 1 else 0
  }

  function AdmittedOf(states: seq<State>, actions: seq<Action>, n: nat, u: UserId): nat
    requires n <= |actions| && n <= |states|
  {
    if n == 0 then 0
    else AdmittedOf(states, actions, n - 1, u) + if FindsNoneOf(states[n - 1], actions[n - 1], u) then 1 else 0
  }

  /** Requests that have joined or may. */
  function In(requests: seq<Request>): nat {
    if requests == [] then 0
    else
      var last := requests[|requests| - 1];
      In(requests[..|requests| - 1]) + One(last.MayJoin? || last.Joined? || last.Accepted?)
  }

  /** Requests of one user that may join. */
  function Joining(requests: seq<Request>, u: UserId): nat {
    if requests == [] then 0
    else Joining(requests[..|requests| - 1], u) + One(requests[|requests| - 1] == MayJoin(u))
  }

  lemma {:induction false} InUpdate(requests: seq<Request>, i: nat, r: Request)
    requires i < |requests|
    ensures In(requests[i := r]) + One(requests[i].MayJoin? || requests[i].Joined? || requests[i].Accepted?)
            == In(requests) + One(r.MayJoin? || r.Joined? || r.Accepted?)
  {
    var last := |requests| - 1;
    if i < last {
      InUpdate(requests[..last], i, r);
      assert requests[i := r][..last] == requests[..last][i := r];
    } else {
      assert requests[i := r][..last] == requests[..last];
    }
  }

  lemma {:induction false} JoiningUpdate(requests: seq<Request>, i: nat, r: Request, u: UserId)
    requires i < |requests|
    ensures Joining(requests[i := r], u) + One(requests[i] == MayJoin(u)) == Joining(requests, u) + One(r == MayJoin(u))
  {
    var last := |requests| - 1;
    if i < last {
      JoiningUpdate(requests[..last], i, r, u);
      assert requests[i := r][..last] == requests[..last][i := r];
    } else {
      assert requests[i := r][..last] == requests[..last];
    }
  }

  lemma {:induction false} NobodyIn(requests: seq<Request>, u: UserId)
    requires forall i :: 0 <= i < |requests| ==> requests[i].Waiting?
    ensures In(requests) == 0 && Joining(requests, u) == 0
  {
    if requests != [] {
      NobodyIn(requests[..|requests| - 1], u);
    }
  }

  /** Each look-up that finds no membership is one request that has joined or will; and each makes one
      member row of its user, now or later. */
  lemma {:induction false} AdmittedAreIn(states: seq<State>, actions: seq<Action>, n: nat, u: UserId)
    requires Race(states, actions) && n < |states|
    ensures In(states[n].requests) == Admitted(states, actions, n)
    ensures Times(states[n].members, u) + Joining(states[n].requests, u)
            == Times(states[0].members, u) + AdmittedOf(states, actions, n, u)
  {
    if n == 0 {
      NobodyIn(states[0].requests, u);
    } else {
      AdmittedAreIn(states, actions, n - 1, u);
      var s, a := states[n - 1], actions[n - 1];
      assert states[n - 1 + 1] == Step(s, a);
      InUpdate(s.requests, a.i, Step(s, a).requests[a.i]);
      JoiningUpdate(s.requests, a.i, Step(s, a).requests[a.i], u);
      if a.InsertMember? {
        TimesAppend(s.members, s.requests[a.i].user, u);
      }
    }
  }

  predicate Ended(r: Request) {
    r.Accepted? || r.Refused?
  }

  lemma {:induction false} EndedUses(requests: seq<Request>, u: UserId)
    requires forall i :: 0 <= i < |requests| ==> Ended(requests[i])
    ensures Uses(requests) == In(requests) && Joining(requests, u) == 0
  {
    if requests != [] {
      EndedUses(requests[..|requests| - 1], u);
    }
  }

  lemma {:induction false} AtMostOneAdmitted(states: seq<State>, actions: seq<Action>, n: nat)
    requires n <= |actions| && n <= |states|
    ensures Admitted(states, actions, n) == 0 <==> forall m :: 0 <= m < n ==> !FindsNone(states[m], actions[m])
    ensures Admitted(states, actions, n) <= 1
            <==> forall l, m :: 0 <= l < m < n && FindsNone(states[l], actions[l]) ==> !FindsNone(states[m], actions[m])
    decreases n
  {
    if n > 0 {
      AtMostOneAdmitted(states, actions, n - 1);
      if Admitted(states, actions, n - 1) > 0 && FindsNone(states[n - 1], actions[n - 1]) {
        var l :| 0 <= l < n - 1 && FindsNone(states[l], actions[l]);
      }
    }
  }

  /** Once every request has ended, the invite has been used exactly as often as a look-up found no
      membership: so at most once exactly if no look-up finds none after another did. */
  lemma UsesAreAdmitted(states: seq<State>, actions: seq<Action>)
    requires Race(states, actions)
    requires forall i :: 0 <= i < |states[|actions|].requests| ==> Ended(states[|actions|].requests[i])
    ensures Uses(states[|actions|].requests) == Admitted(states, actions, |actions|)
    ensures Uses(states[|actions|].requests) <= 1
            <==> forall l, m :: 0 <= l < m < |actions| && FindsNone(states[l], actions[l]) ==>
                                  !FindsNone(states[m], actions[m])
  {
    AdmittedAreIn(states, actions, |actions|, 0);
    EndedUses(states[|actions|].requests, 0);
    AtMostOneAdmitted(states, actions, |actions|);
  }

  // ----- Exactly when nobody is a member twice -----

  /** At most one look-up of a user finds no membership. */
  ghost predicate AdmittedOnce(states: seq<State>, actions: seq<Action>, n: nat, u: UserId)
    requires n <= |actions| && n <= |states|
  {
    forall l, m :: 0 <= l < m < n && FindsNoneOf(states[l], actions[l], u) ==> !FindsNoneOf(states[m], actions[m], u)
  }

  lemma {:induction false} AtMostOneAdmittedOf(states: seq<State>, actions: seq<Action>, n: nat, u: UserId)
    requires n <= |actions| && n <= |states|
    ensures AdmittedOf(states, actions, n, u) == 0
            <==> forall m :: 0 <= m < n ==> !FindsNoneOf(states[m], actions[m], u)
    ensures AdmittedOf(states, actions, n, u) <= 1
            <==> AdmittedOnce(states, actions, n, u)
    decreases n
  {
    if n > 0 {
      AtMostOneAdmittedOf(states, actions, n - 1, u);
      if AdmittedOf(states, actions, n - 1, u) > 0 && FindsNoneOf(states[n - 1], actions[n - 1], u) {
        var l :| 0 <= l < n - 1 && FindsNoneOf(states[l], actions[l], u);
      }
    }
  }

  lemma {:induction false} MembersStay(states: seq<State>, actions: seq<Action>, n: nat, u: UserId)
    requires Race(states, actions) && n < |states| && u in states[0].members
    ensures u in states[n].members && AdmittedOf(states, actions, n, u) == 0
  {
    if n > 0 {
      MembersStay(states, actions, n - 1, u);
      assert states[n - 1 + 1] == Step(states[n - 1], actions[n - 1]);
    }
  }

  /** Once every request has ended, nobody is a member twice exactly if no two look-ups of one user
      found no membership. */
  lemma NoneTwiceIffAdmittedOnce(states: seq<State>, actions: seq<Action>)
    requires Race(states, actions)
    requires forall i :: 0 <= i < |states[|actions|].requests| ==> Ended(states[|actions|].requests[i])
    ensures NoneTwice(states[|actions|].members) <==> forall u: UserId :: AdmittedOnce(states, actions, |actions|, u)
  {
    hide AdmittedOnce, NoneTwice;
    var last := states[|actions|];
    NoneTwiceIffOnce(last.members);
    forall u: UserId
      ensures Once(last.members, u) <==> AdmittedOnce(states, actions, |actions|, u)
    {
      EndedTimes(states, actions, u);
    }
  }

  lemma EndedTimes(states: seq<State>, actions: seq<Action>, u: UserId)
    requires Race(states, actions)
    requires forall i :: 0 <= i < |states[|actions|].requests| ==> Ended(states[|actions|].requests[i])
    ensures Once(states[|actions|].members, u) <==> AdmittedOnce(states, actions, |actions|, u)
  {
    AdmittedAreIn(states, actions, |actions|, u);
    EndedUses(states[|actions|].requests, u);
    AtMostOneAdmittedOf(states, actions, |actions|, u);
    TimesOfMember(states[0].members, u);
    NoneTwiceIffOnce(states[0].members);
    assert Once(states[0].members, u);
    if u in states[0].members {
      MembersStay(states, actions, |actions|, u);
    }
  }

  // ----- With overlap -----

  ghost predicate Reaches(s: State) {
    exists states, actions :: RaceTo(states, actions, s)
  }

  ghost predicate RaceTo(states: seq<State>, actions: seq<Action>, s: State) {
    Race(states, actions) && states[|actions|] == s
  }

  lemma ReachStep(s: State, a: Action, t: State)
    requires Reaches(s) && Enabled(s, a)
    requires var u := Step(s, a);
             && t.present == u.present && t.members == u.members
             && t.requests == u.requests && t.overlapped == u.overlapped
    ensures Reaches(t)
  {
    var states, actions :| RaceTo(states, actions, s);
    var states', actions' := states + [t], actions + [a];
    assert t == Step(s, a);
    assert forall m :: 0 <= m < |actions| ==> actions'[m] == actions[m] && states'[m] == states[m];
    assert RaceTo(states', actions', t);
  }

  /** Two overlapping requests both use the invite; if they are of one user, the user is a member
      twice, since no constraint of the table forbids it. */
  lemma OverlapUsesTwice(a: UserId, b: UserId) returns (s: State)
    ensures Reaches(s) && Uses(s.requests) == 2 && s.members == [a, b]
    ensures a == b ==> !NoneTwice(s.members)
  {
    var s0 := State(true, [], [Waiting(a), Waiting(b)], false);
    var s1 := State(true, [], [HasInvite(a), Waiting(b)], false);
    var s2 := State(true, [], [HasInvite(a), HasInvite(b)], true);
    var s3 := State(true, [], [MayJoin(a), HasInvite(b)], true);
    var s4 := State(true, [], [MayJoin(a), MayJoin(b)], true);
    var s5 := State(true, [a], [Joined(a), MayJoin(b)], true);
    s := State(true, [a, b], [Joined(a), Joined(b)], true);
    assert RaceTo([s0], [], s0);
    ReachStep(s0, ReadInvite(0), s1);
    assert Inside(s1.requests[0]) && s1.requests[0] in s1.requests;
    ReachStep(s1, ReadInvite(1), s2);
    ReachStep(s2, LookForMember(0), s3);
    ReachStep(s3, LookForMember(1), s4);
    ReachStep(s4, InsertMember(0), s5);
    ReachStep(s5, InsertMember(1), s);
    assert s.requests[..1] == [Joined(a)] && s.requests[..1][..0] == [];
    assert Uses(s.requests[..1]) == 1;
    if a == b {
      assert s.members[0] == s.members[1];
    }
  }
}
