/** The recount of a role beside the event handlers: pages of members are served at different moments,
    and the count of them is stored over whatever the handlers have made of the counter. */
module RecountRace {
  import opened MemberCounters

  /** The counters and handlers, and what the pages served so far have shown. */
  datatype RaceState = RaceState(base: State, served: map<Subject, seq<Key>>)

  datatype RaceAction =
    | Handler(a: Action)             // a step of an event or its handler
    | Serve(subjects: set<Subject>)  // a page of members
    | Store(k: Key)                  // HSET of the count of the served members

  predicate RaceEnabled(s: RaceState, a: RaceAction) {
    a.Handler? ==> Enabled(s.base, a.a)
  }

  function RaceStep(s: RaceState, a: RaceAction): RaceState
    requires RaceEnabled(s, a)
  {
    match a
    case Handler(b) => s.(base := Step(s.base, b))
    case Serve(subjects) => s.(served := s.served + map subject | subject in subjects :: Shown(s.base.view, subject))
    case Store(k) =>
      if Recount(s.served, k) == 0 then s
      else s.(base := s.base.(counts := s.base.counts[k := Recount(s.served, k)]))
  }

  ghost predicate Race(states: seq<RaceState>, actions: seq<RaceAction>) {
    && |states| == |actions| + 1
    && states[0].base.handlers == [] && states[0].base.lives == map[] && states[0].base.gone == map[]
    && (forall s <- states[0].base.view :: Distinct(states[0].base.view[s]))
    && forall n :: 0 <= n < |actions| ==>
         RaceEnabled(states[n], actions[n]) && states[n + 1] == RaceStep(states[n], actions[n])
  }

  /** How the stored count differs from the recount at that moment: changes of members after their page. */
  function Outdated(s: RaceState, k: Key): int {
    Recount(s.served, k) - Recount(s.base.view, k)
  }

  /** A count of k that is written. */
  predicate Stores(s: RaceState, a: RaceAction, k: Key) {
    a == Store(k) && Recount(s.served, k) > 0
  }

  lemma RaceStepBalance(s: RaceState, a: RaceAction, k: Key)
    requires RaceEnabled(s, a) && StateOk(s.base)
    ensures StateOk(RaceStep(s, a).base)
    ensures !Stores(s, a, k) ==> Balance(RaceStep(s, a).base, k) == Balance(s.base, k)
    ensures Stores(s, a, k) ==>
              Balance(RaceStep(s, a).base, k)
              == Outdated(s, k) + AllOwed(s.base.handlers, k) - AllMisread(s.base.handlers, k)
  {
    if a.Handler? {
      StepKeepsBalance(s.base, a.a, k);
    }
  }

  lemma {:induction false} HandlersStayOk(states: seq<RaceState>, actions: seq<RaceAction>, n: nat, k: Key)
    requires Race(states, actions) && n < |states|
    ensures StateOk(states[n].base)
  {
    if n > 0 {
      HandlersStayOk(states, actions, n - 1, k);
      assert states[n - 1 + 1] == RaceStep(states[n - 1], actions[n - 1]);
      RaceStepBalance(states[n - 1], actions[n - 1], k);
    }
  }

  /** The last time k is stored. */
  ghost predicate LastStore(states: seq<RaceState>, actions: seq<RaceAction>, p: nat, k: Key) {
    && |states| == |actions| + 1 && p < |actions| && Stores(states[p], actions[p], k)
    && forall m :: p < m < |actions| ==> !Stores(states[m], actions[m], k)
  }

  lemma {:induction false} BalanceSinceStore(states: seq<RaceState>, actions: seq<RaceAction>, p: nat, n: nat, k: Key)
    requires Race(states, actions) && LastStore(states, actions, p, k) && p < n < |states|
    ensures Balance(states[n].base, k)
            == Outdated(states[p], k) + AllOwed(states[p].base.handlers, k) - AllMisread(states[p].base.handlers, k)
    decreases n
  {
    hide Balance, Outdated, AllOwed, AllMisread, Stores, RaceStep, RaceEnabled, StateOk;
    HandlersStayOk(states, actions, n - 1, k);
    assert states[n - 1 + 1] == RaceStep(states[n - 1], actions[n - 1]);
    RaceStepBalance(states[n - 1], actions[n - 1], k);
    if n > p + 1 {
      BalanceSinceStore(states, actions, p, n - 1, k);
    }
  }

  /** Once all handlers have finished, a counter that was stored is off by exactly what changed between
      the serving of a member's page and the store, what handlers still owed at the store, and what
      handlers misread from then on; what was wrong before is forgotten. */
  lemma DriftAfterStore(states: seq<RaceState>, actions: seq<RaceAction>, p: nat, k: Key)
    requires Race(states, actions) && LastStore(states, actions, p, k)
    requires var handlers := states[|actions|].base.handlers; forall h :: 0 <= h < |handlers| ==> Finished(handlers[h])
    ensures Drift(states[|actions|].base, k)
            == Outdated(states[p], k) + AllOwed(states[p].base.handlers, k)
               + (AllMisread(states[|actions|].base.handlers, k) - AllMisread(states[p].base.handlers, k))
  {
    BalanceSinceStore(states, actions, p, |actions|, k);
    NothingOwed(states[|actions|].base.handlers, k);
  }

  function JoinLooked(k: Key, m: Subject, todo: Deltas): Handler {
    Running(MemberAdd, m, 0, [], [k], [k], todo)
  }

  /** A member with the role joins; the page is served with it; the count is stored; and then the
      handler counts the member again. */
  lemma StoreBeforeIncrement(member: Id, role: Id) returns (states: seq<RaceState>, actions: seq<RaceAction>)
    ensures Race(states, actions) && LastStore(states, actions, 3, Role(role))
    ensures var last := states[|actions|].base;
            && (forall h :: 0 <= h < |last.handlers| ==> Finished(last.handlers[h]))
            && Drift(last, Role(role)) == 1 && Recount(last.view, Role(role)) == 1
  {
    var k, m := Role(role), RolesOf(member);
    var s3 := RaceState(State(map[], map[m := [k]], map[], map[], [JoinLooked(k, m, [(k, 1)])]), map[m := [k]]);
    var s4 := s3.(base := s3.base.(counts := map[k := 1]));
    var s5 := s3.(base := s3.base.(counts := map[k := 2], handlers := [JoinLooked(k, m, [])]));
    var s0, s1, s2 := UntilServed(k, m, s3);
    states := [s0, s1, s2, s3, s4, s5];
    actions := [Handler(Event(MemberAdd, m, [k])), Handler(Look(0)), Serve({m}), Store(k), Handler(Increment(0))];
    OneHolder(m, k);
    hide Holders;
    assert s4 == RaceStep(s3, actions[3]);
    CountsAgain(k, m, s4, s5);
  }

  lemma UntilServed(k: Key, m: Subject, s3: RaceState) returns (s0: RaceState, s1: RaceState, s2: RaceState)
    requires s3 == RaceState(State(map[], map[m := [k]], map[], map[], [JoinLooked(k, m, [(k, 1)])]), map[m := [k]])
    ensures s0 == RaceState(State(map[], map[], map[], map[], []), map[])
    ensures var join := Handler(Event(MemberAdd, m, [k])); RaceEnabled(s0, join) && s1 == RaceStep(s0, join)
    ensures RaceEnabled(s1, Handler(Look(0))) && s2 == RaceStep(s1, Handler(Look(0)))
    ensures s3 == RaceStep(s2, Serve({m}))
  {
    s0 := RaceState(State(map[], map[], map[], map[], []), map[]);
    s1 := s0.(base := State(map[], map[m := [k]], map[], map[], [Dispatched(MemberAdd, m, 0, [], [k])]));
    s2 := s3.(served := map[]);
    OneIncrement(k);
  }

  lemma CountsAgain(k: Key, m: Subject, s4: RaceState, s5: RaceState)
    requires s4.base.handlers == [JoinLooked(k, m, [(k, 1)])] && s4.base.counts == map[k := 1]
    requires s5 == s4.(base := s4.base.(counts := map[k := 2], handlers := [JoinLooked(k, m, [])]))
    ensures RaceEnabled(s4, Handler(Increment(0))) && s5 == RaceStep(s4, Handler(Increment(0)))
  {
    var todo: Deltas := [(k, 1)];
    assert todo[1..] == [];
  }

  lemma OneHolder(m: Subject, k: Key)
    ensures Recount(map[m := [k]], k) == 1
  {
    assert Holders(map[m := [k]], k) == {m};
  }
}
