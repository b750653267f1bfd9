/** Logins that overlap: `ensureDefaultWorkspace` looks for a company of the user, inserts one, and
    inserts the owner's membership by separate statements. */
module WorkspaceRace {
  import opened Counting

  type UserId = nat

  /** How far a login has come; a company is its place in the table. */
  datatype Login =
    | Waiting(user: UserId)
    | FoundNone(user: UserId)
    | HasCompany(user: UserId, company: nat)   // the company row is in
    | Ended(user: UserId)

  datatype Member = Member(company: nat, user: UserId)

  /** The owners of the companies in the order of their creation, the memberships, the logins. */
  datatype State = State(owners: seq<UserId>, members: set<Member>, logins: seq<Login>)

  datatype Action = Look(i: nat) | InsertCompany(i: nat) | InsertMember(i: nat)

  predicate Enabled(s: State, a: Action) {
    && a.i < |s.logins|
    && match a
       case Look(i) => s.logins[i].Waiting?
       case InsertCompany(i) => s.logins[i].FoundNone?
       case InsertMember(i) => s.logins[i].HasCompany?
  }

  function Step(s: State, a: Action): State
    requires Enabled(s, a)
  {
    var user := s.logins[a.i].user;
    match a
    case Look(i) => s.(logins := s.logins[i := if user in s.owners then Ended(user) else FoundNone(user)])
    case InsertCompany(i) => s.(owners := s.owners + [user], logins := s.logins[i := HasCompany(user, |s.owners|)])
    case InsertMember(i) =>
      s.(members := s.members + {Member(s.logins[i].company, user)}, logins := s.logins[i := Ended(user)])
  }

  /** Companies of before have their owner as a member, and nobody owns two; logins are about to start. */
  ghost predicate Init(s: State) {
    && NoneTwice(s.owners)
    && (forall c: nat :: c < |s.owners| ==> Member(c, s.owners[c]) in s.members)
    && (forall i :: 0 <= i < |s.logins| ==> s.logins[i].Waiting?)
  }

  ghost predicate Race(states: seq<State>, actions: seq<Action>) {
    && |states| == |actions| + 1
    && Init(states[0])
    && forall n :: 0 <= n < |actions| ==> Enabled(states[n], actions[n]) && states[n + 1] == Step(states[n], actions[n])
  }

  /** One login that nobody comes between, statement by statement. */
  function Alone(s: State, i: nat): State
    requires i < |s.logins| && s.logins[i].Waiting?
  {
    var looked := Step(s, Look(i));
    if looked.logins[i].Ended? then looked
    else Step(Step(looked, InsertCompany(i)), InsertMember(i))
  }

  /** Undisturbed, the login of a user without a company makes one with the user's membership, and any
      other changes nothing but itself. */
  lemma UndisturbedLogin(s: State, i: nat)
    requires i < |s.logins| && s.logins[i].Waiting?
    ensures var t, user := Alone(s, i), s.logins[i].user;
            && t.logins == s.logins[i := Ended(user)]
            && (if user in s.owners then t.owners == s.owners && t.members == s.members
                else t.owners == s.owners + [user] && t.members == s.members + {Member(|s.owners|, user)})
  {
  }

  // ----- Owners are members -----

  /** Every company has its owner's membership or a login that is about to insert it. */
  ghost predicate OwnersComing(s: State) {
    && (forall c: nat :: c < |s.owners| ==> Member(c, s.owners[c]) in s.members || SomeoneHas(s, c))
    && (forall i :: 0 <= i < |s.logins| && s.logins[i].HasCompany? ==>
          s.logins[i].company < |s.owners| && s.owners[s.logins[i].company] == s.logins[i].user)
  }

  ghost predicate SomeoneHas(s: State, c: nat) {
    exists i :: 0 <= i < |s.logins| && Has(s.logins[i], c)
  }

  predicate Has(login: Login, c: nat) {
    login.HasCompany? && login.company == c
  }

  lemma OwnersComingStep(s: State, a: Action)
    requires OwnersComing(s) && Enabled(s, a)
    ensures OwnersComing(Step(s, a))
  {
    var t := Step(s, a);
    forall c: nat | c < |t.owners|
      ensures Member(c, t.owners[c]) in t.members || SomeoneHas(t, c)
    {
      if c == |s.owners| {
        assert Has(t.logins[a.i], c);
      } else if SomeoneHas(s, c) {
        var i :| 0 <= i < |s.logins| && Has(s.logins[i], c);
        assert i != a.i ==> Has(t.logins[i], c);
      }
    }
  }

  lemma {:induction false} OwnersComingUpTo(states: seq<State>, actions: seq<Action>, n: nat)
    requires Race(states, actions) && n < |states|
    ensures OwnersComing(states[n])
  {
    if n > 0 {
      OwnersComingUpTo(states, actions, n - 1);
      assert states[n - 1 + 1] == Step(states[n - 1], actions[n - 1]);
      OwnersComingStep(states[n - 1], actions[n - 1]);
    }
  }

  ghost predicate AllEnded(s: State) {
    forall i :: 0 <= i < |s.logins| ==> s.logins[i].Ended?
  }

  /** However logins overlap, once they have ended every company has its owner as a member. */
  lemma OwnersAreMembers(states: seq<State>, actions: seq<Action>, c: nat)
    requires Race(states, actions) && AllEnded(states[|actions|]) && c < |states[|actions|].owners|
    ensures Member(c, states[|actions|].owners[c]) in states[|actions|].members
  {
    OwnersComingUpTo(states, actions, |actions|);
  }

  // ----- How many companies a user gets -----

  /** A look-up that finds no company of its user. */
  predicate FindsNone(s: State, a: Action, u: UserId) {
    Enabled(s, a) && a.Look? && s.logins[a.i].user == u && u !in s.owners
  }

  function Missed(states: seq<State>, actions: seq<Action>, n: nat, u: UserId): nat
    requires n <= |actions| && n <= |states|
  {
    if n == 0 then 0
    else Missed(states, actions, n - 1, u) + One(FindsNone(states[n - 1], actions[n - 1], u))
  }

  /** Logins of one user that are about to insert a company. */
  function Inserting(logins: seq<Login>, u: UserId): nat {
    if logins == [] then 0
    else Inserting(logins[..|logins| - 1], u) + One(logins[|logins| - 1] == FoundNone(u))
  }

  lemma {:induction false} InsertingUpdate(logins: seq<Login>, i: nat, l: Login, u: UserId)
    requires i < |logins|
    ensures Inserting(logins[i := l], u) + One(logins[i] == FoundNone(u))
            == Inserting(logins, u) + One(l == FoundNone(u))
  {
    var last := |logins| - 1;
    if i < last {
      InsertingUpdate(logins[..last], i, l, u);
      assert logins[i := l][..last] == logins[..last][i := l];
    } else {
      assert logins[i := l][..last] == logins[..last];
    }
  }

  lemma {:induction false} NobodyInserts(logins: seq<Login>, u: UserId)
    requires forall i :: 0 <= i < |logins| ==> !logins[i].FoundNone?
    ensures Inserting(logins, u) == 0
  {
    if logins != [] {
      NobodyInserts(logins[..|logins| - 1], u);
    }
  }

  /** Each look-up that finds none makes one company of its user, now or later. */
  lemma {:induction false} MissesMakeCompanies(states: seq<State>, actions: seq<Action>, n: nat, u: UserId)
    requires Race(states, actions) && n < |states|
    ensures Times(states[n].owners, u) + Inserting(states[n].logins, u)
            == Times(states[0].owners, u) + Missed(states, actions, n, u)
    ensures u in states[0].owners ==> u in states[n].owners && Missed(states, actions, n, u) == 0
  {
    if n == 0 {
      NobodyInserts(states[0].logins, u);
    } else {
      MissesMakeCompanies(states, actions, n - 1, u);
      var s, a := states[n - 1], actions[n - 1];
      assert states[n - 1 + 1] == Step(s, a);
      InsertingUpdate(s.logins, a.i, Step(s, a).logins[a.i], u);
      if a.InsertCompany? {
        TimesAppend(s.owners, s.logins[a.i].user, u);
      }
    }
  }

  /** At most one look-up of a user finds no company. */
  ghost predicate MissedOnce(states: seq<State>, actions: seq<Action>, n: nat, u: UserId)
    requires n <= |actions| && n <= |states|
  {
    forall l, m :: 0 <= l < m < n && FindsNone(states[l], actions[l], u) ==> !FindsNone(states[m], actions[m], u)
  }

  lemma {:induction false} MissedCounts(states: seq<State>, actions: seq<Action>, n: nat, u: UserId)
    requires n <= |actions| && n <= |states|
    ensures Missed(states, actions, n, u) == 0 <==> forall m :: 0 <= m < n ==> !FindsNone(states[m], actions[m], u)
    ensures Missed(states, actions, n, u) <= 1 <==> MissedOnce(states, actions, n, u)
    decreases n
  {
    if n > 0 {
      MissedCounts(states, actions, n - 1, u);
      if Missed(states, actions, n - 1, u) > 0 && FindsNone(states[n - 1], actions[n - 1], u) {
        var l :| 0 <= l < n - 1 && FindsNone(states[l], actions[l], u);
      }
    }
  }

  lemma EndedOwns(states: seq<State>, actions: seq<Action>, u: UserId)
    requires Race(states, actions) && AllEnded(states[|actions|])
    ensures Once(states[|actions|].owners, u) <==> MissedOnce(states, actions, |actions|, u)
  {
    MissesMakeCompanies(states, actions, |actions|, u);
    NobodyInserts(states[|actions|].logins, u);
    MissedCounts(states, actions, |actions|, u);
    TimesOfMember(states[0].owners, u);
    NoneTwiceIffOnce(states[0].owners);
    assert Once(states[0].owners, u);
  }

  /** Once all logins have ended, nobody owns two companies exactly if no two look-ups of one user
      found none. */
  lemma OneCompanyEachIffMissedOnce(states: seq<State>, actions: seq<Action>)
    requires Race(states, actions) && AllEnded(states[|actions|])
    ensures NoneTwice(states[|actions|].owners) <==> forall u: UserId :: MissedOnce(states, actions, |actions|, u)
  {
    hide MissedOnce, NoneTwice, AllEnded;
    NoneTwiceIffOnce(states[|actions|].owners);
    forall u: UserId
      ensures Once(states[|actions|].owners, u) <==> MissedOnce(states, actions, |actions|, u)
    {
      EndedOwns(states, actions, u);
    }
  }

  /** Two first logins of a user that overlap make two companies. */
  lemma TwoLoginsMakeTwo(u: UserId) returns (states: seq<State>, actions: seq<Action>)
    ensures Race(states, actions) && AllEnded(states[|actions|]) && states[|actions|].owners == [u, u]
  {
    var s0 := State([], {}, [Waiting(u), Waiting(u)]);
    var s1 := s0.(logins := [FoundNone(u), Waiting(u)]);
    var s2 := s0.(logins := [FoundNone(u), FoundNone(u)]);
    var s3 := State([u], {}, [HasCompany(u, 0), FoundNone(u)]);
    var s4 := State([u, u], {}, [HasCompany(u, 0), HasCompany(u, 1)]);
    var s5 := State([u, u], {Member(0, u)}, [Ended(u), HasCompany(u, 1)]);
    var s6 := State([u, u], {Member(0, u), Member(1, u)}, [Ended(u), Ended(u)]);
    states := [s0, s1, s2, s3, s4, s5, s6];
    actions := [Look(0), Look(1), InsertCompany(0), InsertCompany(1), InsertMember(0), InsertMember(1)];
    assert s1 == Step(s0, actions[0]) && s2 == Step(s1, actions[1]) && s3 == Step(s2, actions[2]);
    assert s4 == Step(s3, actions[3]) && s5 == Step(s4, actions[4]) && s6 == Step(s5, actions[5]);
  }
}
