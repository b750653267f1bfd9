/** The cached counters of a guild: members per role, members per presence status, users in voice.
    Event handlers keep them by single Redis increments, and increments of different handlers
    interleave. The partner is a recount over what Discord shows.

    A handler looks at the object it was handed only after it has awaited other things, and that
    object is live: the `old` one is a snapshot, the current one shows later changes too. A member who
    leaves takes the object along as it was; one who comes back gets a new one. */
module MemberCounters {

  type Id = nat

  /** A counter: members with a role (the everyone role is filtered out), with a status, or in voice. */
  datatype Key = Role(role: Id) | Status(status: Id) | Voice

  /** One thing Discord shows of a user, as the set of counters it makes the user count in. */
  datatype Subject = RolesOf(member: Id) | PresenceOf(user: Id) | VoiceOf(user: Id)

  datatype Kind = MemberAdd | MemberRemove | MemberUpdate | PresenceUpdate | VoiceStateUpdate

  /** The keys of `roles.cache` in order, or the one status or channel: no key twice. */
  predicate Distinct(keys: seq<Key>) {
    forall i, j :: 0 <= i < j < |keys| ==> keys[i] != keys[j]
  }

  // ----- The increments a handler issues -----

  type Deltas = seq<(Key, int)>

  /** One increment by `amount` for each key that is not among `except`. */
  function Each(keys: seq<Key>, except: seq<Key>, amount: int): Deltas {
    if keys == [] then []
    else
      var last := keys[|keys| - 1];
      Each(keys[..|keys| - 1], except, amount) + if last in except then [] else [(last, amount)]
  }

  /** What the handler of an event does, given the snapshot of before and what it sees now. */
  function Increments(kind: Kind, before: seq<Key>, seen: seq<Key>): Deltas {
    match kind
    case MemberAdd => Each(seen, [], 1)
    case MemberRemove => Each(seen, [], -1)
    case MemberUpdate => Each(before, seen, -1) + Each(seen, before, 1)
    case PresenceUpdate => Each(before, [], -1) + Each(seen, [], 1)
    case VoiceStateUpdate => Each(before, [], -1) + Each(seen, [], 1)
  }

  function SumFor(deltas: Deltas, k: Key): int {
    if deltas == [] then 0
    else SumFor(deltas[..|deltas| - 1], k) + if deltas[|deltas| - 1].0 == k then deltas[|deltas| - 1].1 else 0
  }

  function Has(keys: seq<Key>, k: Key): int {
    if k in keys then 1 else 0
  }

  /** What the increments of a handler come to for one counter. */
  function NetChange(kind: Kind, before: seq<Key>, seen: seq<Key>, k: Key): int {
    match kind
    case MemberAdd => Has(seen, k)
    case MemberRemove => -Has(seen, k)
    case _ => Has(seen, k) - Has(before, k)
  }

  lemma {:induction false} SumForConcat(a: Deltas, b: Deltas, k: Key)
    ensures SumFor(a + b, k) == SumFor(a, k) + SumFor(b, k)
  {
    if b == [] {
      assert a + b == a;
    } else {
      SumForConcat(a, b[..|b| - 1], k);
      assert (a + b)[..|a + b| - 1] == a + b[..|b| - 1];
    }
  }

  lemma {:induction false} SumForEach(keys: seq<Key>, except: seq<Key>, amount: int, k: Key)
    requires Distinct(keys)
    ensures SumFor(Each(keys, except, amount), k) == if k in keys && k !in except then amount else 0
  {
    if keys != [] {
      var last := |keys| - 1;
      var before, key := keys[..last], keys[last];
      SumForEach(before, except, amount, k);
      assert key !in before && (k in keys <==> k in before || k == key);
      if key in except {
        assert Each(before, except, amount) + [] == Each(before, except, amount);
      } else {
        AppendOne(Each(before, except, amount), key, amount);
      }
    }
  }

  lemma AppendOne(deltas: Deltas, key: Key, amount: int)
    ensures forall k :: SumFor(deltas + [(key, amount)], k) == SumFor(deltas, k) + if k == key then amount else 0
  {
    assert (deltas + [(key, amount)])[..|deltas|] == deltas;
  }

  /** The increments come to what the handler saw less what was there before. */
  lemma IncrementsNet(kind: Kind, before: seq<Key>, seen: seq<Key>, k: Key)
    requires Distinct(before) && Distinct(seen)
    ensures SumFor(Increments(kind, before, seen), k) == NetChange(kind, before, seen, k)
  {
    SumForEach(seen, [], 1, k);
    SumForEach(seen, [], -1, k);
    SumForEach(before, [], -1, k);
    SumForEach(before, seen, -1, k);
    SumForEach(seen, before, 1, k);
    SumForConcat(Each(before, seen, -1), Each(seen, before, 1), k);
    SumForConcat(Each(before, [], -1), Each(seen, [], 1), k);
  }

  // ----- The handlers, each on its own -----

  class CounterCache {
    var counts: map<Key, int>

    function Get(k: Key): int
      reads this
    {
      if k in counts then counts[k] else 0
    }

    constructor ()
      ensures forall k :: Get(k) == 0
    {
      counts := map[];
    }

    /** HINCRBY, INCR or DECR. */
    method IncrBy(k: Key, amount: int)
      modifies this
      ensures forall j :: Get(j) == old(Get(j)) + if j == k then amount else 0
    {
      counts := counts[k := (if k in counts then counts[k] else 0) + amount];
    }

    method IncrEach(keys: seq<Key>, except: seq<Key>, amount: int)
      modifies this
      ensures forall k :: Get(k) == old(Get(k)) + SumFor(Each(keys, except, amount), k)
    {
      var i := 0;
      while i < |keys|
        invariant 0 <= i <= |keys|
        invariant forall k :: Get(k) == old(Get(k)) + SumFor(Each(keys[..i], except, amount), k)
      {
        assert keys[..i + 1][..i] == keys[..i];
        if keys[i] !in except {
          IncrBy(keys[i], amount);
          AppendOne(Each(keys[..i], except, amount), keys[i], amount);
        } else {
          assert Each(keys[..i], except, amount) + [] == Each(keys[..i], except, amount);
        }
        i := i + 1;
      }
      assert keys[..i] == keys;
    }

    /** The counter part of a handler: first the keys that went, then the keys that came. */
    method Handle(kind: Kind, before: seq<Key>, seen: seq<Key>)
      requires Distinct(before) && Distinct(seen)
      modifies this
      ensures forall k :: Get(k) == old(Get(k)) + NetChange(kind, before, seen, k)
    {
      match kind {
        case MemberAdd => IncrEach(seen, [], 1);
        case MemberRemove => IncrEach(seen, [], -1);
        case MemberUpdate =>
          IncrEach(before, seen, -1);
          IncrEach(seen, before, 1);
        case _ =>
          IncrEach(before, [], -1);
          IncrEach(seen, [], 1);
      }
      forall k
        ensures SumFor(Increments(kind, before, seen), k) == NetChange(kind, before, seen, k)
      {
        IncrementsNet(kind, before, seen, k);
      }
      forall k
        ensures SumFor(Each(before, seen, -1) + Each(seen, before, 1), k)
                == SumFor(Each(before, seen, -1), k) + SumFor(Each(seen, before, 1), k)
        ensures SumFor(Each(before, [], -1) + Each(seen, [], 1), k)
                == SumFor(Each(before, [], -1), k) + SumFor(Each(seen, [], 1), k)
      {
        SumForConcat(Each(before, seen, -1), Each(seen, before, 1), k);
        SumForConcat(Each(before, [], -1), Each(seen, [], 1), k);
      }
    }
  }

  // ----- Interleaved handlers and the recount -----

  /** A handler: not yet looked, or with increments left to issue. */
  datatype Handler =
    | Dispatched(kind: Kind, subject: Subject, life: nat, before: seq<Key>, after: seq<Key>)
    | Running(kind: Kind, subject: Subject, life: nat, before: seq<Key>, after: seq<Key>, seen: seq<Key>, todo: Deltas)

  /** The cached counters; what Discord shows; how often a subject has gone, which tells its objects
      apart, and how each object was when it went; and the handlers. */
  datatype State = State(counts: map<Key, int>, view: map<Subject, seq<Key>>, lives: map<Subject, nat>,
                         gone: map<(Subject, nat), seq<Key>>, handlers: seq<Handler>)

  datatype Action =
    | Event(kind: Kind, subject: Subject, after: seq<Key>)   // Discord's view changes and a handler starts
    | Look(h: nat)                                           // the handler reads the live object
    | Increment(h: nat)                                      // the next increment of a handler

  function Count(counts: map<Key, int>, k: Key): int {
    if k in counts then counts[k] else 0
  }

  function Shown(view: map<Subject, seq<Key>>, s: Subject): seq<Key> {
    if s in view then view[s] else []
  }

  function LifeOf(s: State, subject: Subject): nat {
    if subject in s.lives then s.lives[subject] else 0
  }

  /** What an object shows: as it was when it went, or what Discord shows now. */
  function Content(s: State, subject: Subject, life: nat): seq<Key> {
    if (subject, life) in s.gone then s.gone[(subject, life)] else Shown(s.view, subject)
  }

  /** A faithful stream: members are added once and removed with nothing left to show; keys are distinct. */
  predicate Enabled(s: State, a: Action) {
    match a
    case Event(kind, subject, after) =>
      && Distinct(after)
      && (kind.MemberAdd? ==> Shown(s.view, subject) == [])
      && (kind.MemberRemove? ==> after == [])
    case Look(h) => h < |s.handlers| && s.handlers[h].Dispatched?
    case Increment(h) => h < |s.handlers| && s.handlers[h].Running? && s.handlers[h].todo != []
  }

  function Step(s: State, a: Action): State
    requires Enabled(s, a)
  {
    match a
    case Event(kind, subject, after) =>
      var life, before := LifeOf(s, subject), Shown(s.view, subject);
      var t := s.(view := s.view[subject := after],
                  handlers := s.handlers + [Dispatched(kind, subject, life, before, after)]);
      if kind.MemberRemove?
      then t.(lives := s.lives[subject := life + 1], gone := s.gone[(subject, life) := before])
      else t
    case Look(h) =>
      var d := s.handlers[h];
      var seen := Content(s, d.subject, d.life);
      s.(handlers := s.handlers[h := Running(d.kind, d.subject, d.life, d.before, d.after, seen,
                                             Increments(d.kind, d.before, seen))])
    case Increment(h) =>
      var r := s.handlers[h];
      var (k, amount) := r.todo[0];
      s.(counts := s.counts[k := Count(s.counts, k) + amount], handlers := s.handlers[h := r.(todo := r.todo[1..])])
  }

  ghost predicate Run(states: seq<State>, actions: seq<Action>) {
    && |states| == |actions| + 1
    && states[0].handlers == [] && states[0].lives == map[] && states[0].gone == map[]
    && (forall s :: s in states[0].view ==> Distinct(states[0].view[s]))
    && forall n :: 0 <= n < |actions| ==> Enabled(states[n], actions[n]) && states[n + 1] == Step(states[n], actions[n])
  }

  function Holders(view: map<Subject, seq<Key>>, k: Key): set<Subject> {
    set s | s in view && k in view[s]
  }

  /** How many users count in k, by what Discord shows. */
  function Recount(view: map<Subject, seq<Key>>, k: Key): int {
    |Holders(view, k)|
  }

  lemma HolderOrNot(view: map<Subject, seq<Key>>, s: Subject, k: Key)
    ensures Holders(view, k) == Holders(view - {s}, k) + if k in Shown(view, s) then {s} else {}
  {
  }

  lemma HoldersWithout(view: map<Subject, seq<Key>>, s: Subject, k: Key)
    ensures |Holders(view, k)| == |Holders(view - {s}, k)| + Has(Shown(view, s), k)
  {
    var others := Holders(view - {s}, k);
    HolderOrNot(view, s, k);
    assert s !in others;
  }

  lemma RecountChange(view: map<Subject, seq<Key>>, s: Subject, after: seq<Key>, k: Key)
    ensures Recount(view[s := after], k) == Recount(view, k) - Has(Shown(view, s), k) + Has(after, k)
  {
    HoldersWithout(view, s, k);
    HoldersWithout(view[s := after], s, k);
    assert view[s := after] - {s} == view - {s};
  }

  /** What a handler still owes a counter: the whole change of its event while it has not looked. */
  function Owed(h: Handler, k: Key): int {
    match h
    case Dispatched(_, _, _, before, after) => Has(after, k) - Has(before, k)
    case Running(_, _, _, _, _, _, todo) => SumFor(todo, k)
  }

  /** How far what a handler saw is off what its event was about. */
  function Misread(h: Handler, k: Key): int {
    match h
    case Dispatched(_, _, _, _, _) => 0
    case Running(kind, _, _, before, after, seen, _) =>
      if kind.MemberRemove? then Has(before, k) - Has(seen, k) else Has(seen, k) - Has(after, k)
  }

  function AllOwed(handlers: seq<Handler>, k: Key): int {
    if handlers == [] then 0 else AllOwed(handlers[..|handlers| - 1], k) + Owed(handlers[|handlers| - 1], k)
  }

  function AllMisread(handlers: seq<Handler>, k: Key): int {
    if handlers == [] then 0 else AllMisread(handlers[..|handlers| - 1], k) + Misread(handlers[|handlers| - 1], k)
  }

  lemma {:induction false} HandlerUpdate(handlers: seq<Handler>, h: nat, r: Handler, k: Key)
    requires h < |handlers|
    ensures AllOwed(handlers[h := r], k) == AllOwed(handlers, k) - Owed(handlers[h], k) + Owed(r, k)
    ensures AllMisread(handlers[h := r], k) == AllMisread(handlers, k) - Misread(handlers[h], k) + Misread(r, k)
  {
    var last := |handlers| - 1;
    if h < last {
      HandlerUpdate(handlers[..last], h, r, k);
      assert handlers[h := r][..last] == handlers[..last][h := r];
    } else {
      assert handlers[h := r][..last] == handlers[..last];
    }
  }

  lemma HandlerAppend(handlers: seq<Handler>, r: Handler, k: Key)
    ensures AllOwed(handlers + [r], k) == AllOwed(handlers, k) + Owed(r, k)
    ensures AllMisread(handlers + [r], k) == AllMisread(handlers, k) + Misread(r, k)
  {
    assert (handlers + [r])[..|handlers|] == handlers;
  }

  lemma SumForTail(deltas: Deltas, k: Key)
    requires deltas != []
    ensures SumFor(deltas, k) == (if deltas[0].0 == k then deltas[0].1 else 0) + SumFor(deltas[1..], k)
  {
    assert deltas == [deltas[0]] + deltas[1..];
    SumForConcat([deltas[0]], deltas[1..], k);
    assert [deltas[0]][..0] == [];
    assert SumFor([deltas[0]], k) == if deltas[0].0 == k then deltas[0].1 else 0;
  }

  predicate HandlerOk(h: Handler) {
    && Distinct(h.before) && Distinct(h.after)
    && (h.kind.MemberAdd? ==> h.before == [])
    && (h.kind.MemberRemove? ==> h.after == [])
  }

  /** Handlers as dispatched, and no key twice in what any object shows. */
  ghost predicate StateOk(s: State) {
    && (forall h :: 0 <= h < |s.handlers| ==> HandlerOk(s.handlers[h]))
    && (forall subject <- s.view :: Distinct(s.view[subject]))
    && (forall o <- s.gone :: Distinct(s.gone[o]))
  }

  /** Cached count, plus what is owed, less the recount, less the misreadings so far. */
  function Balance(s: State, k: Key): int {
    Count(s.counts, k) + AllOwed(s.handlers, k) - Recount(s.view, k) - AllMisread(s.handlers, k)
  }

  lemma StepKeepsOk(s: State, a: Action)
    requires Enabled(s, a) && StateOk(s)
    ensures StateOk(Step(s, a))
  {
    EmptyDistinct();
    hide Distinct, Increments;
  }

  lemma EmptyDistinct()
    ensures Distinct([])
  {
  }

  lemma ContentDistinct(s: State, subject: Subject, life: nat)
    requires StateOk(s)
    ensures Distinct(Content(s, subject, life))
  {
    EmptyDistinct();
    hide Distinct;
  }

  lemma LookKeepsBalance(s: State, h: nat, k: Key)
    requires Enabled(s, Look(h)) && StateOk(s)
    ensures Balance(Step(s, Look(h)), k) == Balance(s, k)
  {
    var d := s.handlers[h];
    assert HandlerOk(d);
    ContentDistinct(s, d.subject, d.life);
    hide AllOwed, AllMisread, Recount, Increments, Distinct, SumFor, Content, StateOk;
    IncrementsNet(d.kind, d.before, Content(s, d.subject, d.life), k);
    HandlerUpdate(s.handlers, h, Step(s, Look(h)).handlers[h], k);
  }

  lemma StepKeepsBalance(s: State, a: Action, k: Key)
    requires Enabled(s, a) && StateOk(s)
    ensures Balance(Step(s, a), k) == Balance(s, k) && StateOk(Step(s, a))
  {
    hide AllOwed, AllMisread, Recount, Increments, Distinct, SumFor, Content, StateOk;
    StepKeepsOk(s, a);
    match a
    case Event(kind, subject, after) =>
      RecountChange(s.view, subject, after, k);
      HandlerAppend(s.handlers, Dispatched(kind, subject, LifeOf(s, subject), Shown(s.view, subject), after), k);
    case Look(h) => LookKeepsBalance(s, h, k);
    case Increment(h) =>
      SumForTail(s.handlers[h].todo, k);
      HandlerUpdate(s.handlers, h, Step(s, a).handlers[h], k);
  }

  lemma {:induction false} BalanceKept(states: seq<State>, actions: seq<Action>, n: nat, k: Key)
    requires Run(states, actions) && n < |states|
    ensures Balance(states[n], k) == Balance(states[0], k) && StateOk(states[n])
  {
    if n > 0 {
      BalanceKept(states, actions, n - 1, k);
      assert states[n - 1 + 1] == Step(states[n - 1], actions[n - 1]);
      StepKeepsBalance(states[n - 1], actions[n - 1], k);
    }
  }

  predicate Finished(h: Handler) {
    h.Running? && h.todo == []
  }

  lemma {:induction false} NothingOwed(handlers: seq<Handler>, k: Key)
    requires forall h :: 0 <= h < |handlers| ==> Finished(handlers[h])
    ensures AllOwed(handlers, k) == 0
  {
    if handlers != [] {
      NothingOwed(handlers[..|handlers| - 1], k);
    }
  }

  function Drift(s: State, k: Key): int {
    Count(s.counts, k) - Recount(s.view, k)
  }

  /** Once all handlers have finished, each cached count has drifted from the recount by exactly
      the misreadings of the handlers, whatever the order of their increments. */
  lemma DriftIsMisreading(states: seq<State>, actions: seq<Action>, k: Key)
    requires Run(states, actions)
    requires forall h :: 0 <= h < |states[|actions|].handlers| ==> Finished(states[|actions|].handlers[h])
    ensures Drift(states[|actions|], k) == Drift(states[0], k) + AllMisread(states[|actions|].handlers, k)
  {
    BalanceKept(states, actions, |actions|, k);
    NothingOwed(states[|actions|].handlers, k);
  }

  /** A handler that saw the object as its event left it, or as it was when the member went. */
  predicate SawItsEvent(h: Handler) {
    h.Running? ==> if h.kind.MemberRemove? then h.seen == h.before else h.seen == h.after
  }

  lemma {:induction false} NothingMisread(handlers: seq<Handler>, k: Key)
    requires forall h :: 0 <= h < |handlers| ==> SawItsEvent(handlers[h])
    ensures AllMisread(handlers, k) == 0
  {
    if handlers != [] {
      NothingMisread(handlers[..|handlers| - 1], k);
    }
  }

  // ----- When a handler sees its own event -----

  /** An event that changes what an object shows: it is about the object, and does not take it away. */
  predicate Patches(s: State, a: Action, subject: Subject, life: nat) {
    a.Event? && !a.kind.MemberRemove? && a.subject == subject && LifeOf(s, subject) == life
  }

  predicate DispatchedAt(states: seq<State>, actions: seq<Action>, h: nat, d: nat) {
    d < |actions| && d < |states| && actions[d].Event? && |states[d].handlers| == h
  }

  /** Between a handler's event and its look no other event changes the object it looks at. */
  ghost predicate LooksInTime(states: seq<State>, actions: seq<Action>, h: nat) {
    |states| == |actions| + 1 &&
    forall d: nat, m: nat, l: nat ::
      DispatchedAt(states, actions, h, d) && d < m < l < |actions| && actions[l] == Look(h) ==>
        !Patches(states[m], actions[m], actions[d].subject, LifeOf(states[d], actions[d].subject))
  }

  /** What the object shows right after the handler's event. */
  function Expected(h: Handler): seq<Key> {
    if h.kind.MemberRemove? then h.before else h.after
  }

  /** The objects that are gone are those of earlier lives. */
  ghost predicate LivesOk(s: State) {
    forall subject, life: nat :: (subject, life) in s.gone <==> life < LifeOf(s, subject)
  }

  lemma ContentStep(s: State, a: Action, subject: Subject, life: nat)
    requires LivesOk(s) && Enabled(s, a) && life <= LifeOf(s, subject) && !Patches(s, a, subject, life)
    ensures LivesOk(Step(s, a)) && life <= LifeOf(Step(s, a), subject)
    ensures Content(Step(s, a), subject, life) == Content(s, subject, life)
  {
  }

  lemma DispatchStep(s: State, a: Action)
    requires LivesOk(s) && Enabled(s, a) && a.Event?
    ensures var t := Step(s, a); var h := t.handlers[|s.handlers|];
            && LivesOk(t) && h.life <= LifeOf(t, h.subject) && Content(t, h.subject, h.life) == Expected(h)
  {
  }

  /** What a step does to a handler that is there: at most it looks, and then it sees its object. */
  lemma HandlerStep(s: State, a: Action, h: nat)
    requires LivesOk(s) && Enabled(s, a) && h < |s.handlers| && s.handlers[h].life <= LifeOf(s, s.handlers[h].subject)
    ensures h < |Step(s, a).handlers| && LivesOk(Step(s, a))
    ensures var before, after := s.handlers[h], Step(s, a).handlers[h];
            && after.subject == before.subject && after.life == before.life <= LifeOf(Step(s, a), before.subject)
            && Expected(after) == Expected(before)
            && (after.Dispatched? ==> before.Dispatched?)
            && (after.Running? && before.Dispatched? ==>
                  a == Look(h) && after.seen == Content(s, before.subject, before.life))
            && (before.Running? ==> after.Running? && (SawItsEvent(before) ==> SawItsEvent(after)))
            && (!Patches(s, a, before.subject, before.life) ==>
                  Content(Step(s, a), before.subject, before.life) == Content(s, before.subject, before.life))
  {
    var handler := s.handlers[h];
    if !Patches(s, a, handler.subject, handler.life) {
      ContentStep(s, a, handler.subject, handler.life);
    }
  }

  /** A handler and the event that dispatched it: until it looks its object shows what the event left,
      if nothing else changes it, and so that is what it sees. */
  lemma {:induction false} FollowHandler(states: seq<State>, actions: seq<Action>, n: nat, h: nat) returns (d: nat)
    requires Run(states, actions) && n < |states| && h < |states[n].handlers|
    ensures LivesOk(states[n]) && d < n && DispatchedAt(states, actions, h, d)
    ensures var handler := states[n].handlers[h];
            && handler.subject == actions[d].subject && handler.life == LifeOf(states[d], actions[d].subject)
            && handler.life <= LifeOf(states[n], handler.subject)
            && (handler.Dispatched? && Untouched(states, actions, d, n) ==>
                  Content(states[n], handler.subject, handler.life) == Expected(handler))
            && (LooksInTime(states, actions, h) ==> SawItsEvent(handler))
    decreases n
  {
    var s, a := states[n - 1], actions[n - 1];
    assert states[n - 1 + 1] == Step(s, a);
    LivesUpTo(states, actions, n - 1);
    if h == |s.handlers| {
      d := n - 1;
      DispatchStep(s, a);
    } else {
      hide Content, Patches, LivesOk, Expected;
      d := FollowHandler(states, actions, n - 1, h);
      HandlerStep(s, a, h);
      if s.handlers[h].Dispatched? && !states[n].handlers[h].Dispatched? && LooksInTime(states, actions, h) {
        assert Untouched(states, actions, d, n - 1);
        SeenIsExpected(s.handlers[h], states[n].handlers[h]);
      }
    }
  }

  /** No event between two moments changes the object of the handler dispatched at the first. */
  ghost predicate Untouched(states: seq<State>, actions: seq<Action>, d: nat, n: nat)
    requires |states| == |actions| + 1 && d < n < |states| && actions[d].Event?
  {
    forall m: nat :: d < m < n ==>
      !Patches(states[m], actions[m], actions[d].subject, LifeOf(states[d], actions[d].subject))
  }

  lemma SeenIsExpected(before: Handler, after: Handler)
    requires after.Running? && after.seen == Expected(before) == Expected(after)
    ensures SawItsEvent(after)
  {
  }

  lemma {:induction false} LivesUpTo(states: seq<State>, actions: seq<Action>, n: nat)
    requires Run(states, actions) && n < |states|
    ensures LivesOk(states[n])
  {
    if n > 0 {
      LivesUpTo(states, actions, n - 1);
      assert states[n - 1 + 1] == Step(states[n - 1], actions[n - 1]);
    }
  }

  /** An aligned cache stays equal to the recount if between each event and its handler's look no other
      event changes the object the handler looks at. */
  lemma AlignedStaysAligned(states: seq<State>, actions: seq<Action>, k: Key)
    requires Run(states, actions) && Drift(states[0], k) == 0
    requires var handlers := states[|actions|].handlers;
             forall h: nat :: h < |handlers| ==> Finished(handlers[h]) && LooksInTime(states, actions, h)
    ensures Drift(states[|actions|], k) == 0
  {
    DriftIsMisreading(states, actions, k);
    forall h | 0 <= h < |states[|actions|].handlers|
      ensures SawItsEvent(states[|actions|].handlers[h])
    {
      var d := FollowHandler(states, actions, |actions|, h);
    }
    NothingMisread(states[|actions|].handlers, k);
  }

  ghost predicate Reaches(start: State, s: State) {
    exists states, actions :: RunTo(states, actions, start, s)
  }

  ghost predicate RunTo(states: seq<State>, actions: seq<Action>, start: State, s: State) {
    Run(states, actions) && states[0] == start && states[|actions|] == s
  }

  lemma RunAppend(states: seq<State>, actions: seq<Action>, a: Action, t: State)
    requires Run(states, actions) && Enabled(states[|actions|], a) && t == Step(states[|actions|], a)
    ensures Run(states + [t], actions + [a])
  {
    hide Step, Enabled;
    var states', actions' := states + [t], actions + [a];
    forall m | 0 <= m < |actions'|
      ensures Enabled(states'[m], actions'[m]) && states'[m + 1] == Step(states'[m], actions'[m])
    {
      if m < |actions| {
        assert states'[m] == states[m] && states'[m + 1] == states[m + 1] && actions'[m] == actions[m];
      }
    }
  }

  lemma ReachStep(start: State, s: State, a: Action, t: State)
    requires Reaches(start, s) && Enabled(s, a)
    requires var u := Step(s, a);
             && t.counts == u.counts && t.view == u.view && t.lives == u.lives
             && t.gone == u.gone && t.handlers == u.handlers
    ensures Reaches(start, t)
  {
    var states, actions :| RunTo(states, actions, start, s);
    assert t == Step(s, a);
    hide Step, Enabled, Run;
    RunAppend(states, actions, a, t);
    RunHasStart(states, actions);
    assert RunTo(states + [t], actions + [a], start, t);
  }

  lemma RunHasStart(states: seq<State>, actions: seq<Action>)
    requires Run(states, actions)
    ensures |states| == |actions| + 1
  {
  }

  /** A member joins and is given a role at once: the join handler looks late, sees the role, and
      both handlers count it. */
  lemma RoleOnJoinCountsTwice(member: Id, role: Id) returns (start: State, s: State)
    ensures Reaches(start, s) && Drift(start, Role(role)) == 0 && Drift(s, Role(role)) == 1
    ensures forall h :: 0 <= h < |s.handlers| ==> Finished(s.handlers[h])
  {
    var k, m := Role(role), RolesOf(member);
    start := State(map[], map[], map[], map[], []);
    var looked := BothLookLate(k, m);
    s := BothIncrement(start, looked, k, m);
    assert Holders(start.view, k) == {};
    assert Holders(s.view, k) == {m};
  }

  function JoinSeen(k: Key, m: Subject): Handler {
    Running(MemberAdd, m, 0, [], [], [k], [(k, 1)])
  }

  function GrantSeen(k: Key, m: Subject): Handler {
    Running(MemberUpdate, m, 0, [], [k], [k], [(k, 1)])
  }

  lemma BothLookLate(k: Key, m: Subject) returns (s: State)
    ensures Reaches(State(map[], map[], map[], map[], []), s)
    ensures s == State(map[], map[m := [k]], map[], map[], [JoinSeen(k, m), GrantSeen(k, m)])
  {
    var start := State(map[], map[], map[], map[], []);
    var join, grant := Dispatched(MemberAdd, m, 0, [], []), Dispatched(MemberUpdate, m, 0, [], [k]);
    var s2 := BothDispatched(k, m);
    var s3 := State(map[], map[m := [k]], map[], map[], [JoinSeen(k, m), grant]);
    s := State(map[], map[m := [k]], map[], map[], [JoinSeen(k, m), GrantSeen(k, m)]);
    OneIncrement(k);
    ReachStep(start, s2, Look(0), s3);
    ReachStep(start, s3, Look(1), s);
  }

  lemma BothDispatched(k: Key, m: Subject) returns (s: State)
    ensures Reaches(State(map[], map[], map[], map[], []), s)
    ensures s == State(map[], map[m := [k]], map[], map[],
                       [Dispatched(MemberAdd, m, 0, [], []), Dispatched(MemberUpdate, m, 0, [], [k])])
  {
    var start := State(map[], map[], map[], map[], []);
    var join, grant := Dispatched(MemberAdd, m, 0, [], []), Dispatched(MemberUpdate, m, 0, [], [k]);
    var s1 := State(map[], map[m := []], map[], map[], [join]);
    s := State(map[], map[m := [k]], map[], map[], [join, grant]);
    assert RunTo([start], [], start, start);
    ReachStep(start, start, Event(MemberAdd, m, []), s1);
    ReachStep(start, s1, Event(MemberUpdate, m, [k]), s);
  }

  lemma BothIncrement(start: State, s: State, k: Key, m: Subject) returns (t: State)
    requires Reaches(start, s) && s.counts == map[] && s.handlers == [JoinSeen(k, m), GrantSeen(k, m)]
    ensures Reaches(start, t) && t.view == s.view &&  Count(t.counts, k) == 2
    ensures forall h :: 0 <= h < |t.handlers| ==> Finished(t.handlers[h])
  {
    var joinDone, grantDone := JoinSeen(k, m).(todo := []), GrantSeen(k, m).(todo := []);
    var s1 := s.(counts := map[k := 1], handlers := [joinDone, GrantSeen(k, m)]);
    t := s.(counts := map[k := 2], handlers := [joinDone, grantDone]);
    var todo: Deltas := [(k, 1)];
    assert todo[1..] == [];
    assert s.handlers[0 := joinDone] == s1.handlers && s1.handlers[1 := grantDone] == t.handlers;
    ReachStep(start, s, Increment(0), s1);
    ReachStep(start, s1, Increment(1), t);
  }

  lemma OneIncrement(k: Key)
    ensures Increments(MemberAdd, [], [k]) == [(k, 1)] && Increments(MemberUpdate, [], [k]) == [(k, 1)]
  {
    assert [k][..0] == [];
    assert Each([k], [], 1) == [(k, 1)];
  }
}
