/** The channel-rename limiter: check the stamps of a Redis list, rename, then push a stamp, trim the
    list and renew its time to live. The worker runs several jobs at once; each Redis command is a
    step of its own and time may pass between any two. */
module RateLimiter {
  import opened Options

  const WINDOW_SEC := 600
  const MAX_UPDATES := 2

  /** One of the worker's concurrent job slots, as far as the channel at hand goes. */
  datatype Slot =
    | Idle
    | Checking(snapshot: seq<int>)   // LRANGE has answered
    | Allowed(snapshot: seq<int>)    // the check passed; the rename is on its way
    | Pushed                         // LPUSH done
    | Trimmed                        // LTRIM done, EXPIRE still to come

  /** The clock in milliseconds; the list, newest stamp first, with the deadline of its key; the slots;
      and the moments of all recorded renames, oldest first, which the program itself does not keep. */
  datatype State = State(now: int, list: seq<int>, deadline: Option<int>, slots: seq<Slot>, history: seq<int>)

  datatype Action =
    | Tick(to: int)
    | Read(i: nat)
    | Decide(i: nat)
    | Abandon(i: nat)   // the rename failed
    | Push(i: nat)
    | Trim(i: nat)
    | Expire(i: nat)

  function Sec(ms: int): int {
    ms / 1000
  }

  /** Stamps later than the cutoff. */
  function Recent(stamps: seq<int>, cutoff: int): nat {
    if stamps == [] then 0
    else Recent(stamps[..|stamps| - 1], cutoff) + if stamps[|stamps| - 1] > cutoff then 1 else 0
  }

  predicate Fires(s: State, to: int) {
    s.deadline.Some? && s.deadline.value <= to
  }

  predicate Enabled(s: State, a: Action) {
    match a
    case Tick(to) => s.now <= to
    case Read(i) => i < |s.slots| && s.slots[i].Idle?
    case Decide(i) => i < |s.slots| && s.slots[i].Checking?
    case Abandon(i) => i < |s.slots| && s.slots[i].Allowed?
    case Push(i) => i < |s.slots| && s.slots[i].Allowed?
    case Trim(i) => i < |s.slots| && s.slots[i].Pushed?
    case Expire(i) => i < |s.slots| && s.slots[i].Trimmed?
  }

  /** The verdict of `checkRateLimit` on a list of stamps at a moment. */
  predicate Allows(stamps: seq<int>, now: int) {
    Recent(stamps, Sec(now) - WINDOW_SEC) < MAX_UPDATES
  }

  function Step(s: State, a: Action): State
    requires Enabled(s, a)
  {
    match a
    case Tick(to) =>
      if Fires(s, to) then s.(now := to, list := [], deadline := None) else s.(now := to)
    case Read(i) => s.(slots := s.slots[i := Checking(s.list)])
    case Decide(i) =>
      var snapshot := s.slots[i].snapshot;
      s.(slots := s.slots[i := if Allows(snapshot, s.now) then Allowed(snapshot) else Idle])
    case Abandon(i) => s.(slots := s.slots[i := Idle])
    case Push(i) =>
      s.(list := [Sec(s.now)] + s.list, history := s.history + [s.now], slots := s.slots[i := Pushed])
    case Trim(i) =>
      s.(list := if |s.list| > MAX_UPDATES then s.list[..MAX_UPDATES] else s.list,
         slots := s.slots[i := Trimmed])
    case Expire(i) =>
      s.(deadline := if s.list == [] then None else Some(s.now + WINDOW_SEC * 1000),
         slots := s.slots[i := Idle])
  }

  /** C slots, nothing recorded yet. */
  predicate Init(s: State) {
    s.list == [] && s.deadline.None? && s.history == [] && forall i :: 0 <= i < |s.slots| ==> s.slots[i].Idle?
  }

  ghost predicate Run(states: seq<State>, actions: seq<Action>) {
    && |states| == |actions| + 1
    && Init(states[0])
    && forall n :: 0 <= n < |actions| ==> Enabled(states[n], actions[n]) && states[n + 1] == Step(states[n], actions[n])
  }

  function Stamps(history: seq<int>): (stamps: seq<int>)
    ensures |stamps| == |history|
    ensures forall k :: 0 <= k < |history| ==> stamps[k] == Sec(history[k])
  {
    seq(|history|, k requires 0 <= k < |history| => Sec(history[k]))
  }

  // ----- The limiter -----

  /** The machine sees the key as the limiter has it. */
  predicate Sees(s: State, list: seq<int>, deadline: Option<int>) {
    s.list == list && s.deadline == deadline
  }

  /** The two methods of the consumer on the Redis key of a channel, when nothing comes in between. */
  class ChannelLimit {
    var list: seq<int>
    var deadline: Option<int>

    constructor ()
      ensures list == [] && deadline.None?
    {
      list, deadline := [], None;
    }

    method CheckRateLimit(now: int) returns (canUpdate: bool)
      ensures canUpdate <==> Allows(list, now)
      ensures canUpdate <==> Recent(list, now / 1000 - 600) < 2
    {
      var cutoff := Sec(now) - WINDOW_SEC;
      var recent, k := 0, 0;
      while k < |list|
        invariant 0 <= k <= |list| && recent == Recent(list[..k], cutoff)
      {
        assert list[..k + 1][..k] == list[..k];
        if list[k] > cutoff {
          recent := recent + 1;
        }
        k := k + 1;
      }
      assert list[..k] == list;
      canUpdate := recent < MAX_UPDATES;
    }

    /** LPUSH, LTRIM and EXPIRE leave the key as the three steps of a slot do. */
    method RecordRateLimit(now: int)
      modifies this
      ensures forall s: State, i: nat {:trigger Enabled(s, Push(i))} ::
                Sees(s, old(list), old(deadline)) && s.now == now && Enabled(s, Push(i)) ==>
                  Sees(Recorded(s, i), list, deadline)
    {
      list := [Sec(now)] + list;
      if |list| > MAX_UPDATES {
        list := list[..MAX_UPDATES];
      }
      deadline := Some(now + WINDOW_SEC * 1000);
    }
  }

  /** A slot's three recording steps in a row. */
  function Recorded(s: State, i: nat): State
    requires Enabled(s, Push(i))
  {
    Step(Step(Step(s, Push(i)), Trim(i)), Expire(i))
  }

  // ----- The list against the full history -----

  function Min2(n: nat): nat {
    if n < MAX_UPDATES then n else MAX_UPDATES
  }

  predicate SameUpToLimit(s: State, cutoff: int) {
    Min2(Recent(s.list, cutoff)) == Min2(Recent(Stamps(s.history), cutoff))
  }

  /** For every cutoff a check can still use, the list shows as many stamps as the full history, up to the limit. */
  ghost predicate Agree(s: State) {
    forall cutoff :: cutoff >= Sec(s.now) - WINDOW_SEC ==> SameUpToLimit(s, cutoff)
  }

  predicate NewestFirst(list: seq<int>) {
    forall j, k :: 0 <= j < k < |list| ==> list[j] >= list[k]
  }

  ghost predicate Ordered(s: State) {
    && NewestFirst(s.list)
    && (forall k :: 0 <= k < |s.list| ==> s.list[k] <= Sec(s.now))
    && (forall j, k :: 0 <= j < k < |s.history| ==> s.history[j] <= s.history[k])
    && (forall k :: 0 <= k < |s.history| ==> s.history[k] <= s.now)
  }

  /** The key runs out while its newest stamp is still inside the window. */
  predicate LosesStamp(s: State, a: Action) {
    a.Tick? && Fires(s, a.to) && s.history != []
    && s.history[|s.history| - 1] / 1000 > a.to / 1000 - 600
  }

  /** A record whose EXPIRE is still to come. */
  predicate MidRecord(slot: Slot) {
    slot.Pushed? || slot.Trimmed?
  }

  ghost predicate SomeMidRecord(s: State) {
    exists i :: 0 <= i < |s.slots| && MidRecord(s.slots[i])
  }

  /** Outside a record, the key outlives its newest stamp. */
  ghost predicate KeyOutlives(s: State) {
    SomeMidRecord(s) || s.deadline.None? || s.history == []
    || s.deadline.value >= s.history[|s.history| - 1] + WINDOW_SEC * 1000
  }

  lemma {:induction false} RecentPrepend(x: int, stamps: seq<int>, cutoff: int)
    ensures Recent([x] + stamps, cutoff) == Recent(stamps, cutoff) + if x > cutoff then 1 else 0
  {
    if stamps != [] {
      var last := |stamps| - 1;
      RecentPrepend(x, stamps[..last], cutoff);
      assert ([x] + stamps)[..|stamps|] == [x] + stamps[..last];
    }
  }

  lemma StampsAppend(history: seq<int>, ms: int, cutoff: int)
    ensures Recent(Stamps(history + [ms]), cutoff)
            == Recent(Stamps(history), cutoff) + if Sec(ms) > cutoff then 1 else 0
  {
    assert Stamps(history + [ms])[..|history|] == Stamps(history);
  }

  lemma {:induction false} NoneRecent(stamps: seq<int>, cutoff: int)
    requires forall k :: 0 <= k < |stamps| ==> stamps[k] <= cutoff
    ensures Recent(stamps, cutoff) == 0
  {
    if stamps != [] {
      NoneRecent(stamps[..|stamps| - 1], cutoff);
    }
  }

  lemma {:induction false} SomeRecent(stamps: seq<int>, cutoff: int, k: nat)
    requires k < |stamps| && stamps[k] > cutoff
    ensures Recent(stamps, cutoff) > 0
  {
    var last := |stamps| - 1;
    if k < last {
      SomeRecent(stamps[..last], cutoff, k);
    }
  }

  /** The newest two stamps answer for the whole list. */
  lemma {:induction false} TrimKeepsRecent(list: seq<int>, cutoff: int)
    requires NewestFirst(list) && |list| >= MAX_UPDATES
    ensures Min2(Recent(list[..MAX_UPDATES], cutoff)) == Min2(Recent(list, cutoff))
  {
    var last := |list| - 1;
    if |list| == MAX_UPDATES {
      assert list[..MAX_UPDATES] == list;
    } else {
      TrimKeepsRecent(list[..last], cutoff);
      assert list[..last][..MAX_UPDATES] == list[..MAX_UPDATES];
      if list[last] > cutoff {
        var two := list[..MAX_UPDATES];
        assert two[..1] == [list[0]] && two[..1][..0] == [];
        assert Recent(two[..1], cutoff) == 1;
      }
    }
  }

  lemma OrderedStep(s: State, a: Action)
    requires Ordered(s) && Enabled(s, a)
    ensures Ordered(Step(s, a))
  {
  }

  lemma KeyOutlivesStep(s: State, a: Action)
    requires Ordered(s) && KeyOutlives(s) && Enabled(s, a)
    ensures KeyOutlives(Step(s, a))
  {
    var t := Step(s, a);
    if !a.Tick? && !a.Expire? && SomeMidRecord(s) {
      var i :| 0 <= i < |s.slots| && MidRecord(s.slots[i]);
      assert MidRecord(t.slots[i]);
    }
    if a.Push? {
      assert MidRecord(t.slots[a.i]);
    }
    if a.Trim? {
      assert MidRecord(t.slots[a.i]);
    }
  }

  /** A step keeps the agreement of list and history exactly if it does not run the key out from
      under a stamp that is still inside the window. */
  lemma AgreeStep(s: State, a: Action)
    requires Ordered(s) && Agree(s) && Enabled(s, a)
    ensures Agree(Step(s, a)) <==> !LosesStamp(s, a)
  {
    var t := Step(s, a);
    if LosesStamp(s, a) {
      var cutoff := Sec(a.to) - WINDOW_SEC;
      SomeRecent(Stamps(s.history), cutoff, |s.history| - 1);
      assert !SameUpToLimit(t, cutoff);
    } else {
      forall cutoff | cutoff >= Sec(t.now) - WINDOW_SEC
        ensures SameUpToLimit(t, cutoff)
      {
        assert SameUpToLimit(s, cutoff);
        match a
        case Push(_) =>
          RecentPrepend(Sec(s.now), s.list, cutoff);
          StampsAppend(s.history, s.now, cutoff);
        case Trim(_) =>
          if |s.list| > MAX_UPDATES {
            TrimKeepsRecent(s.list, cutoff);
          }
        case Tick(to) =>
          if Fires(s, to) {
            NoneRecent(Stamps(s.history), cutoff);
          }
        case _ =>
      }
    }
  }

  lemma {:induction false} BasicsHold(states: seq<State>, actions: seq<Action>, n: nat)
    requires Run(states, actions) && n < |states|
    ensures Ordered(states[n]) && KeyOutlives(states[n])
  {
    if n > 0 {
      BasicsHold(states, actions, n - 1);
      assert states[n - 1 + 1] == Step(states[n - 1], actions[n - 1]);
      OrderedStep(states[n - 1], actions[n - 1]);
      KeyOutlivesStep(states[n - 1], actions[n - 1]);
    }
  }

  ghost predicate KeepsStamps(states: seq<State>, actions: seq<Action>) {
    |states| == |actions| + 1 && forall n :: 0 <= n < |actions| ==> !LosesStamp(states[n], actions[n])
  }

  lemma {:induction false} AgreeUpTo(states: seq<State>, actions: seq<Action>, n: nat)
    requires Run(states, actions) && n < |states|
    requires forall m :: 0 <= m < n ==> !LosesStamp(states[m], actions[m])
    ensures Agree(states[n])
  {
    if n > 0 {
      AgreeUpTo(states, actions, n - 1);
      BasicsHold(states, actions, n - 1);
      assert states[n - 1 + 1] == Step(states[n - 1], actions[n - 1]);
      AgreeStep(states[n - 1], actions[n - 1]);
    }
  }

  /** Over a whole run, the trimmed list with its time to live shows what the full history shows, at
      every moment, exactly if the key never runs out under a stamp inside the window. */
  lemma ListStandsForHistory(states: seq<State>, actions: seq<Action>)
    requires Run(states, actions)
    ensures (forall n :: 0 <= n < |states| ==> Agree(states[n])) <==> KeepsStamps(states, actions)
  {
    if KeepsStamps(states, actions) {
      forall n | 0 <= n < |states|
        ensures Agree(states[n])
      {
        AgreeUpTo(states, actions, n);
      }
    } else {
      var n :| 0 <= n < |actions| && LosesStamp(states[n], actions[n]);
      BasicsHold(states, actions, n);
      if Agree(states[n]) {
        AgreeStep(states[n], actions[n]);
        assert !Agree(states[n + 1]);
      }
    }
  }

  /** The key can only run out too early between the LPUSH and the EXPIRE of a record. */
  lemma LossNeedsOpenRecord(states: seq<State>, actions: seq<Action>, n: nat)
    requires Run(states, actions) && n < |actions| && LosesStamp(states[n], actions[n])
    ensures SomeMidRecord(states[n])
  {
    BasicsHold(states, actions, n);
  }

  /** Where they agree, the list and the full history give the same verdict, then and at any later
      moment at which the answer is weighed. */
  lemma SameVerdict(s: State, later: int)
    requires Agree(s) && s.now <= later
    ensures Allows(s.list, later) <==> Allows(Stamps(s.history), later)
  {
    assert SameUpToLimit(s, Sec(later) - WINDOW_SEC);
  }

  // ----- How many renames a window holds -----

  // ----- What a verdict says -----

  /** The rename was recorded in the last 600 seconds, to the second. */
  predicate Lately(history: seq<int>, j: int, now: int)
    requires 0 <= j < |history|
  {
    history[j] / 1000 > now / 1000 - 600
  }

  ghost predicate TwoLately(history: seq<int>, now: int) {
    exists j, k :: 0 <= j < k < |history| && Lately(history, j, now) && Lately(history, k, now)
  }

  ghost predicate OneLately(history: seq<int>, now: int) {
    exists j :: 0 <= j < |history| && Lately(history, j, now)
  }

  lemma {:induction false} RecentByTwo(history: seq<int>, now: int)
    ensures Recent(Stamps(history), now / 1000 - 600) > 0 <==> OneLately(history, now)
    ensures Recent(Stamps(history), now / 1000 - 600) > 1 <==> TwoLately(history, now)
    decreases |history|
  {
    if history != [] {
      var last := |history| - 1;
      RecentByTwo(history[..last], now);
      assert Stamps(history)[..last] == Stamps(history[..last]);
      OneMoreLately(history, now);
    }
  }

  lemma OneMoreLately(history: seq<int>, now: int)
    requires history != []
    ensures var last := |history| - 1; var front, lately := history[..last], Lately(history, last, now);
            && (OneLately(history, now) <==> OneLately(front, now) || lately)
            && (TwoLately(history, now) <==> TwoLately(front, now) || (OneLately(front, now) && lately))
  {
    var last := |history| - 1;
    var front := history[..last];
    forall j | 0 <= j < last
      ensures Lately(front, j, now) == Lately(history, j, now)
    {
    }
    if j, k :| 0 <= j < k < |front| && Lately(front, j, now) && Lately(front, k, now) {
      assert Lately(history, j, now) && Lately(history, k, now);
    }
    if j :| 0 <= j < |front| && Lately(front, j, now) {
      assert Lately(history, j, now);
    }
    if j, k :| 0 <= j < k < |history| && Lately(history, j, now) && Lately(history, k, now) {
      assert Lately(front, j, now);
    }
  }

  lemma {:induction false} ReadIsKept(states: seq<State>, actions: seq<Action>, m: nat, n: nat, i: nat)
    requires Run(states, actions) && m < n <= |actions| && actions[m] == Read(i)
    requires forall k :: m < k < n ==> actions[k] != Decide(i)
    ensures i < |states[n].slots| && states[n].slots[i] == Checking(states[m].list) && states[m].now <= states[n].now
    decreases n
  {
    assert states[n - 1 + 1] == Step(states[n - 1], actions[n - 1]);
    if m < n - 1 {
      ReadIsKept(states, actions, m, n - 1, i);
    }
  }

  /** As long as the key never runs out under a stamp inside the window: a check lets its rename go on
      exactly if, of all the channel's renames recorded when it read the list, no two fall into the
      600 seconds before it decides. */
  lemma VerdictFromHistory(states: seq<State>, actions: seq<Action>, m: nat, n: nat, i: nat)
    requires Run(states, actions) && KeepsStamps(states, actions)
    requires m < n < |actions| && actions[m] == Read(i) && actions[n] == Decide(i)
    requires forall k :: m < k < n ==> actions[k] != Decide(i)
    ensures i < |states[n + 1].slots|
    ensures states[n + 1].slots[i].Allowed? <==> !TwoLately(states[m].history, states[n].now)
  {
    hide Agree, Recent, TwoLately;
    ListStandsForHistory(states, actions);
    ReadIsKept(states, actions, m, n, i);
    SameVerdict(states[m], states[n].now);
    RecentByTwo(states[m].history, states[n].now);
    assert states[n + 1] == Step(states[n], actions[n]);
  }

  /** Recorded renames in the window of 600 seconds after w. */
  function InWindow(stamps: seq<int>, w: int): nat {
    if stamps == [] then 0
    else
      var last := stamps[|stamps| - 1];
      InWindow(stamps[..|stamps| - 1], w) + if w < last <= w + 600 then 1 else 0
  }

  /** A job whose look at the list leaves it free to rename within a window after the cutoff. */
  predicate MayStillPush(slot: Slot, cutoff: int) {
    (slot.Checking? || slot.Allowed?) && Recent(slot.snapshot, cutoff) < MAX_UPDATES
  }

  function Candidates(slots: seq<Slot>, cutoff: int): (n: nat)
    ensures n <= |slots|
  {
    if slots == [] then 0
    else Candidates(slots[..|slots| - 1], cutoff) + if MayStillPush(slots[|slots| - 1], cutoff) then 1 else 0
  }

  lemma {:induction false} CandidatesUpdate(slots: seq<Slot>, i: nat, slot: Slot, cutoff: int)
    requires i < |slots|
    ensures Candidates(slots[i := slot], cutoff) + (if MayStillPush(slots[i], cutoff) then 1 else 0)
            == Candidates(slots, cutoff) + (if MayStillPush(slot, cutoff) then 1 else 0)
  {
    var last := |slots| - 1;
    if i < last {
      CandidatesUpdate(slots[..last], i, slot, cutoff);
      assert slots[i := slot][..last] == slots[..last][i := slot];
    } else {
      assert slots[i := slot][..last] == slots[..last];
    }
  }

  /** Jobs between their look at the list and their rename. */
  function InFlight(slots: seq<Slot>): (n: nat)
    ensures n <= |slots|
  {
    if slots == [] then 0
    else
      var last := slots[|slots| - 1];
      InFlight(slots[..|slots| - 1]) + if last.Checking? || last.Allowed? then 1 else 0
  }

  lemma {:induction false} CandidatesInFlight(slots: seq<Slot>, cutoff: int)
    ensures Candidates(slots, cutoff) <= InFlight(slots)
  {
    if slots != [] {
      CandidatesInFlight(slots[..|slots| - 1], cutoff);
    }
  }

  /** With k the most jobs that are in flight together. */
  predicate Budget(s: State, k: nat, cutoff: int) {
    var n := Recent(Stamps(s.history), cutoff);
    n + Candidates(s.slots, cutoff) <= k + if n > 0 then 1 else 0
  }

  /** For every cutoff still in play, the renames recorded after it and the jobs that may still add
      one are together no more than k and one. */
  ghost predicate WithinBudget(s: State, k: nat) {
    forall cutoff :: cutoff >= Sec(s.now) - WINDOW_SEC ==> Budget(s, k, cutoff)
  }

  predicate AllowedOk(slot: Slot, now: int) {
    slot.Allowed? ==> Allows(slot.snapshot, now)
  }

  ghost predicate WindowsOk(s: State, bound: nat) {
    forall w :: InWindow(Stamps(s.history), w) <= bound
  }

  ghost predicate LimitInv(s: State, k: nat) {
    && WithinBudget(s, k)
    && (forall i :: 0 <= i < |s.slots| ==> AllowedOk(s.slots[i], s.now))
    && WindowsOk(s, MAX_UPDATES - 1 + k)
  }

  lemma {:induction false} RecentAntitone(stamps: seq<int>, c: int, d: int)
    requires c <= d
    ensures Recent(stamps, d) <= Recent(stamps, c)
  {
    if stamps != [] {
      RecentAntitone(stamps[..|stamps| - 1], c, d);
    }
  }

  lemma {:induction false} WindowIsRecent(stamps: seq<int>, w: int)
    requires forall k :: 0 <= k < |stamps| ==> stamps[k] <= w + WINDOW_SEC
    ensures InWindow(stamps, w) == Recent(stamps, w)
  {
    if stamps != [] {
      WindowIsRecent(stamps[..|stamps| - 1], w);
    }
  }

  lemma AllowedStays(slot: Slot, now: int, later: int)
    requires AllowedOk(slot, now) && now <= later
    ensures AllowedOk(slot, later)
  {
    if slot.Allowed? {
      RecentAntitone(slot.snapshot, Sec(now) - WINDOW_SEC, Sec(later) - WINDOW_SEC);
    }
  }

  /** A push moves its job from the candidates to the record. */
  lemma BudgetPush(s: State, k: nat, i: nat, cutoff: int)
    requires Enabled(s, Push(i)) && Budget(s, k, cutoff) && AllowedOk(s.slots[i], s.now)
    requires cutoff >= Sec(s.now) - WINDOW_SEC
    ensures Budget(Step(s, Push(i)), k, cutoff)
  {
    RecentAntitone(s.slots[i].snapshot, Sec(s.now) - WINDOW_SEC, cutoff);
    CandidatesUpdate(s.slots, i, Pushed, cutoff);
    StampsAppend(s.history, s.now, cutoff);
  }

  /** A look at the list makes a candidate only while fewer than two renames are recorded. */
  lemma BudgetRead(s: State, k: nat, i: nat, cutoff: int)
    requires Enabled(s, Read(i)) && Budget(s, k, cutoff) && SameUpToLimit(s, cutoff)
    requires InFlight(Step(s, Read(i)).slots) <= k
    ensures Budget(Step(s, Read(i)), k, cutoff)
  {
    CandidatesUpdate(s.slots, i, Checking(s.list), cutoff);
    CandidatesInFlight(Step(s, Read(i)).slots, cutoff);
  }

  /** Other steps leave the record alone and make no candidate. */
  lemma BudgetSlot(s: State, k: nat, i: nat, slot: Slot, cutoff: int)
    requires i < |s.slots| && Budget(s, k, cutoff)
    requires MayStillPush(slot, cutoff) ==> MayStillPush(s.slots[i], cutoff)
    ensures Budget(s.(slots := s.slots[i := slot]), k, cutoff)
  {
    CandidatesUpdate(s.slots, i, slot, cutoff);
  }

  lemma BudgetStep(s: State, a: Action, k: nat, cutoff: int)
    requires LimitInv(s, k) && Agree(s) && Enabled(s, a) && InFlight(Step(s, a).slots) <= k
    requires cutoff >= Sec(Step(s, a).now) - WINDOW_SEC
    ensures Budget(Step(s, a), k, cutoff)
  {
    assert Budget(s, k, cutoff);
    match a
    case Tick(_) =>
    case Read(i) =>
      assert SameUpToLimit(s, cutoff);
      BudgetRead(s, k, i, cutoff);
    case Push(i) =>
      assert AllowedOk(s.slots[i], s.now);
      BudgetPush(s, k, i, cutoff);
    case _ =>
      BudgetSlot(s, k, a.i, Step(s, a).slots[a.i], cutoff);
  }

  lemma WindowStep(s: State, a: Action, k: nat, w: int)
    requires LimitInv(s, k) && Agree(s) && Ordered(s) && Enabled(s, a) && InFlight(Step(s, a).slots) <= k
    ensures InWindow(Stamps(Step(s, a).history), w) <= MAX_UPDATES - 1 + k
  {
    var t := Step(s, a);
    assert InWindow(Stamps(s.history), w) <= MAX_UPDATES - 1 + k;
    if a.Push? {
      var stamp := Sec(s.now);
      if w < stamp <= w + WINDOW_SEC {
        BudgetStep(s, a, k, w);
        WindowIsRecent(Stamps(t.history), w);
      } else {
        assert Stamps(t.history)[..|s.history|] == Stamps(s.history);
      }
    }
  }

  lemma LimitStep(s: State, a: Action, k: nat)
    requires LimitInv(s, k) && Agree(s) && Ordered(s) && Enabled(s, a) && InFlight(Step(s, a).slots) <= k
    ensures LimitInv(Step(s, a), k)
  {
    var t := Step(s, a);
    forall cutoff | cutoff >= Sec(t.now) - WINDOW_SEC
      ensures Budget(t, k, cutoff)
    {
      BudgetStep(s, a, k, cutoff);
    }
    forall i | 0 <= i < |t.slots|
      ensures AllowedOk(t.slots[i], t.now)
    {
      if t.slots[i] == s.slots[i] {
        AllowedStays(s.slots[i], s.now, t.now);
      }
    }
    forall w
      ensures InWindow(Stamps(t.history), w) <= MAX_UPDATES - 1 + k
    {
      WindowStep(s, a, k, w);
    }
  }

  lemma {:induction false} NoCandidates(slots: seq<Slot>, cutoff: int)
    requires forall i :: 0 <= i < |slots| ==> slots[i].Idle?
    ensures Candidates(slots, cutoff) == 0
  {
    if slots != [] {
      NoCandidates(slots[..|slots| - 1], cutoff);
    }
  }

  /** Never more than k jobs between their look and their rename. */
  ghost predicate AtMostInFlight(states: seq<State>, k: nat) {
    forall n :: 0 <= n < |states| ==> InFlight(states[n].slots) <= k
  }

  lemma {:induction false} LimitHolds(states: seq<State>, actions: seq<Action>, k: nat, n: nat)
    requires Run(states, actions) && n < |states| && KeepsStamps(states, actions) && AtMostInFlight(states, k)
    ensures LimitInv(states[n], k)
    decreases n
  {
    if n == 0 {
      forall cutoff
        ensures Budget(states[0], k, cutoff)
      {
        NoCandidates(states[0].slots, cutoff);
      }
    } else {
      LimitHolds(states, actions, k, n - 1);
      BasicsHold(states, actions, n - 1);
      AgreeUpTo(states, actions, n - 1);
      assert states[n - 1 + 1] == Step(states[n - 1], actions[n - 1]);
      LimitStep(states[n - 1], actions[n - 1], k);
    }
  }

  /** With at most k jobs in flight at once, every window of 600 seconds holds at most
      1 + k recorded renames of a channel, in every interleaving that never runs the key
      out under a fresh stamp. So the limit of two is kept when no two jobs are in flight together. */
  lemma RenamesPerWindow(states: seq<State>, actions: seq<Action>, k: nat, n: nat, w: int)
    requires Run(states, actions) && n < |states| && KeepsStamps(states, actions) && AtMostInFlight(states, k)
    ensures InWindow(Stamps(states[n].history), w) <= 1 + k
  {
    LimitHolds(states, actions, k, n);
  }

  lemma {:induction false} SlotsStay(states: seq<State>, actions: seq<Action>, n: nat)
    requires Run(states, actions) && n < |states|
    ensures |states[n].slots| == |states[0].slots|
  {
    if n > 0 {
      SlotsStay(states, actions, n - 1);
      assert states[n - 1 + 1] == Step(states[n - 1], actions[n - 1]);
    }
  }

  /** In any case no more jobs are in flight than the worker has slots. */
  lemma RenamesBySlots(states: seq<State>, actions: seq<Action>, n: nat, w: int)
    requires Run(states, actions) && n < |states| && KeepsStamps(states, actions)
    ensures InWindow(Stamps(states[n].history), w) <= 1 + |states[0].slots|
  {
    forall m | 0 <= m < |states|
      ensures InFlight(states[m].slots) <= |states[0].slots|
    {
      SlotsStay(states, actions, m);
    }
    RenamesPerWindow(states, actions, |states[0].slots|, n, w);
  }

  // ----- One slot, stamps lost or not -----

  /** The state as if the first j renames had never been recorded. */
  function Since(s: State, j: nat): State
    requires j <= |s.history|
  {
    s.(history := s.history[j..])
  }

  /** Stamps whose record is complete. */
  function Complete(s: State): int
    requires |s.slots| == 1
  {
    |s.history| - if MidRecord(s.slots[0]) then 1 else 0
  }

  /** The key outlives every stamp whose record is complete. */
  ghost predicate KeyCovers(s: State)
    requires |s.slots| == 1
  {
    s.deadline.Some? ==>
      forall i :: 0 <= i < Complete(s) && i < |s.history| ==> s.deadline.value >= s.history[i] + WINDOW_SEC * 1000
  }

  /** Since the last loss, before which j renames were recorded, the limiter works as if it had just
      started; and of those j all but the last are a window away from now and from what came after. */
  ghost predicate SinceLoss(s: State, j: nat) {
    && |s.slots| == 1 && j <= |s.history|
    && Ordered(s) && KeyCovers(s)
    && Ordered(Since(s, j)) && KeyOutlives(Since(s, j)) && Agree(Since(s, j)) && LimitInv(Since(s, j), 1)
    && (j >= 2 ==> s.now >= s.history[j - 2] + WINDOW_SEC * 1000)
    && WindowsOk(s, MAX_UPDATES + 1)
  }

  lemma OneInFlight(slots: seq<Slot>)
    requires |slots| == 1
    ensures InFlight(slots) <= 1
  {
  }

  lemma StepSince(s: State, a: Action, j: nat)
    requires j <= |s.history| && Enabled(s, a)
    ensures Enabled(Since(s, j), a) && j <= |Step(s, a).history|
    ensures Step(Since(s, j), a) == Since(Step(s, a), j)
  {
    if a.Push? {
      assert (s.history + [s.now])[j..] == s.history[j..] + [s.now];
    }
  }

  lemma KeyCoversStep(s: State, a: Action)
    requires |s.slots| == 1 && Ordered(s) && KeyCovers(s) && Enabled(s, a)
    ensures KeyCovers(Step(s, a))
  {
  }

  lemma {:induction false} InWindowConcat(a: seq<int>, b: seq<int>, w: int)
    ensures InWindow(a + b, w) == InWindow(a, w) + InWindow(b, w)
    decreases |b|
  {
    if b == [] {
      assert a + b == a;
    } else {
      InWindowConcat(a, b[..|b| - 1], w);
      assert (a + b)[..|a + b| - 1] == a + b[..|b| - 1];
    }
  }

  lemma {:induction false} NoneInWindow(stamps: seq<int>, w: int)
    requires forall k :: 0 <= k < |stamps| ==> stamps[k] <= w
    ensures InWindow(stamps, w) == 0
  {
    if stamps != [] {
      NoneInWindow(stamps[..|stamps| - 1], w);
    }
  }

  /** A window with a stamp of now holds, of the first j, at most the last. */
  lemma WindowSplits(history: seq<int>, j: nat, now: int, w: int)
    requires j <= |history| && w < Sec(now) <= w + WINDOW_SEC
    requires forall i :: 0 <= i < j - 1 ==> history[i] + WINDOW_SEC * 1000 <= now
    ensures InWindow(Stamps(history), w) <= 1 + InWindow(Stamps(history[j..]), w)
  {
    var stamps := Stamps(history);
    assert stamps == stamps[..j] + stamps[j..] && stamps[j..] == Stamps(history[j..]);
    InWindowConcat(stamps[..j], stamps[j..], w);
    if j > 0 {
      assert stamps[..j][..j - 1] == stamps[..j - 1];
      NoneInWindow(stamps[..j - 1], w);
    }
  }

  lemma PushInWindow(history: seq<int>, now: int, j: nat, w: int)
    requires j <= |history| && forall i :: 0 <= i < j - 1 ==> history[i] + WINDOW_SEC * 1000 <= now
    requires InWindow(Stamps(history), w) <= MAX_UPDATES + 1
    requires InWindow(Stamps((history + [now])[j..]), w) <= MAX_UPDATES
    ensures InWindow(Stamps(history + [now]), w) <= MAX_UPDATES + 1
  {
    if w < Sec(now) <= w + WINDOW_SEC {
      WindowSplits(history + [now], j, now, w);
    } else {
      assert Stamps(history + [now])[..|history|] == Stamps(history);
    }
  }

  lemma WindowSinceLoss(s: State, a: Action, j: nat, w: int)
    requires SinceLoss(s, j) && Enabled(s, a) && LimitInv(Since(Step(s, a), j), 1)
    ensures InWindow(Stamps(Step(s, a).history), w) <= MAX_UPDATES + 1
  {
    hide Ordered, KeyCovers, KeyOutlives, Agree, WithinBudget, InWindow, Stamps;
    var t := Step(s, a);
    assert InWindow(Stamps(s.history), w) <= MAX_UPDATES + 1;
    if a.Push? {
      LongAgo(s, j);
      assert InWindow(Stamps(Since(t, j).history), w) <= MAX_UPDATES;
      PushInWindow(s.history, s.now, j, w);
    }
  }

  lemma LongAgo(s: State, j: nat)
    requires Ordered(s) && j <= |s.history| && (j >= 2 ==> s.now >= s.history[j - 2] + WINDOW_SEC * 1000)
    ensures forall i :: 0 <= i < j - 1 ==> s.history[i] + WINDOW_SEC * 1000 <= s.now
  {
    assert forall i :: 0 <= i < j - 1 ==> s.history[i] <= s.history[j - 2];
  }

  /** A step that loses no stamp since the last loss. */
  lemma KeepingStep(s: State, a: Action, j: nat)
    requires SinceLoss(s, j) && Enabled(s, a) && !LosesStamp(Since(s, j), a)
    ensures SinceLoss(Step(s, a), j)
  {
    hide LimitInv, Agree, KeyOutlives, KeyCovers;
    var t := Step(s, a);
    StepSince(s, a, j);
    OrderedStep(s, a);
    OrderedStep(Since(s, j), a);
    KeyOutlivesStep(Since(s, j), a);
    KeyCoversStep(s, a);
    AgreeStep(Since(s, j), a);
    OneInFlight(t.slots);
    LimitStep(Since(s, j), a, 1);
    forall w
      ensures InWindow(Stamps(t.history), w) <= MAX_UPDATES + 1
    {
      WindowSinceLoss(s, a, j, w);
    }
  }

  /** A step that does lose one starts the limiter anew. */
  lemma LosingStep(s: State, a: Action, j: nat)
    requires SinceLoss(s, j) && Enabled(s, a) && LosesStamp(Since(s, j), a)
    ensures SinceLoss(Step(s, a), |s.history|)
  {
    var t := Step(s, a);
    OrderedStep(s, a);
    KeyCoversStep(s, a);
    FreshStart(s, a.to);
    assert MidRecord(s.slots[0]) by {
      var last := s.history[|s.history| - 1];
      assert Since(s, j).history[|Since(s, j).history| - 1] == last;
      assert s.deadline.value < last + WINDOW_SEC * 1000;
    }
  }

  lemma FreshStart(s: State, to: int)
    requires |s.slots| == 1 && s.now <= to && AllowedOk(s.slots[0], s.now)
    ensures var t := State(to, [], None, s.slots, []);
            Ordered(t) && KeyOutlives(t) && Agree(t) && LimitInv(t, 1)
  {
    var t := State(to, [], None, s.slots, []);
    AllowedStays(s.slots[0], s.now, to);
    forall cutoff
      ensures Budget(t, 1, cutoff)
    {
    }
  }

  lemma {:induction false} SinceLossHolds(states: seq<State>, actions: seq<Action>, n: nat) returns (j: nat)
    requires Run(states, actions) && |states[0].slots| == 1 && n < |states|
    ensures SinceLoss(states[n], j)
    decreases n
  {
    if n == 0 {
      j := 0;
      assert Since(states[0], 0) == states[0];
      FreshStart(states[0], states[0].now);
    } else {
      j := SinceLossHolds(states, actions, n - 1);
      assert states[n - 1 + 1] == Step(states[n - 1], actions[n - 1]);
      if LosesStamp(Since(states[n - 1], j), actions[n - 1]) {
        LosingStep(states[n - 1], actions[n - 1], j);
        j := |states[n - 1].history|;
      } else {
        KeepingStep(states[n - 1], actions[n - 1], j);
      }
    }
  }

  /** One slot never exceeds the limit by more than one, however often the key runs out under a
      stamp: of the stamps lost together only the newest can share a window with later ones. */
  lemma OneSlotAtMostThree(states: seq<State>, actions: seq<Action>, n: nat, w: int)
    requires Run(states, actions) && |states[0].slots| == 1 && n < |states|
    ensures InWindow(Stamps(states[n].history), w) <= 3
  {
    var j := SinceLossHolds(states, actions, n);
  }

  // ----- Both conditions matter -----

  lemma InWindowAppend(history: seq<int>, ms: int, w: int)
    ensures InWindow(Stamps(history + [ms]), w)
            == InWindow(Stamps(history), w) + if w < Sec(ms) <= w + WINDOW_SEC then 1 else 0
  {
    assert Stamps(history + [ms])[..|history|] == Stamps(history);
  }

  lemma WindowOfThree(a: int, b: int, c: int, w: int)
    requires w < Sec(a) <= w + WINDOW_SEC && w < Sec(b) <= w + WINDOW_SEC && w < Sec(c) <= w + WINDOW_SEC
    ensures InWindow(Stamps([a, b, c]), w) == 3
  {
    InWindowAppend([], a, w);
    InWindowAppend([a], b, w);
    InWindowAppend([a, b], c, w);
    assert [] + [a] == [a] && [a] + [b] == [a, b] && [a, b] + [c] == [a, b, c];
  }

  lemma RecentOfOne(x: int, cutoff: int)
    ensures Recent([x], cutoff) <= 1
  {
    assert [x][..0] == [];
  }

  /** Some run with n slots ends in s; `kept` tells whether it never lost a stamp inside the window. */
  ghost predicate Reaches(n: nat, kept: bool, s: State) {
    exists states, actions :: RunTo(n, kept, s, states, actions)
  }

  ghost predicate RunTo(n: nat, kept: bool, s: State, states: seq<State>, actions: seq<Action>) {
    && Run(states, actions)
    && |states[0].slots| == n
    && states[|actions|] == s
    && (KeepsStamps(states, actions) <==> kept)
  }

  lemma ReachStart(n: nat, s: State)
    requires Init(s) && |s.slots| == n
    ensures Reaches(n, true, s)
  {
    assert RunTo(n, true, s, [s], []);
  }

  lemma ReachStep(n: nat, kept: bool, s: State, a: Action)
    requires Reaches(n, kept, s) && Enabled(s, a)
    ensures Reaches(n, kept && !LosesStamp(s, a), Step(s, a))
  {
    var states, actions :| RunTo(n, kept, s, states, actions);
    var states', actions' := states + [Step(s, a)], actions + [a];
    assert forall m :: 0 <= m < |actions| ==> actions'[m] == actions[m] && states'[m] == states[m];
    assert actions'[|actions|] == a && states'[|actions|] == s;
    if !kept {
      var m :| 0 <= m < |actions| && LosesStamp(states[m], actions[m]);
      assert LosesStamp(states'[m], actions'[m]);
    }
    assert RunTo(n, kept && !LosesStamp(s, a), Step(s, a), states', actions');
  }

  /** A whole rename of slot i, up to its LPUSH. */
  lemma ReachRename(n: nat, kept: bool, s: State, i: nat, t: State)
    requires Reaches(n, kept, s) && i < |s.slots| && s.slots[i].Idle? && Allows(s.list, s.now)
    requires t.now == s.now && t.deadline == s.deadline
    requires t.list == [Sec(s.now)] + s.list && t.history == s.history + [s.now] && t.slots == s.slots[i := Pushed]
    ensures Reaches(n, kept, t)
  {
    ReachStep(n, kept, s, Read(i));
    var s1 := s.(slots := s.slots[i := Checking(s.list)]);
    assert Step(s, Read(i)) == s1;
    ReachStep(n, kept, s1, Decide(i));
    var s2 := s.(slots := s.slots[i := Allowed(s.list)]);
    assert s1.slots[i := Allowed(s.list)] == s2.slots;
    assert Step(s1, Decide(i)) == s2;
    ReachStep(n, kept, s2, Push(i));
    assert s2.slots[i := Pushed] == t.slots;
    assert Step(s2, Push(i)) == t;
  }

  /** LTRIM and EXPIRE of slot i on a list that needs no trimming. */
  lemma ReachFinish(n: nat, kept: bool, s: State, i: nat, t: State)
    requires Reaches(n, kept, s) && i < |s.slots| && s.slots[i].Pushed? && |s.list| <= MAX_UPDATES
    requires t.now == s.now && t.list == s.list && t.history == s.history && t.slots == s.slots[i := Idle]
    requires t.deadline == if s.list == [] then None else Some(s.now + WINDOW_SEC * 1000)
    ensures Reaches(n, kept, t)
  {
    ReachStep(n, kept, s, Trim(i));
    var s1 := s.(slots := s.slots[i := Trimmed]);
    assert Step(s, Trim(i)) == s1;
    ReachStep(n, kept, s1, Expire(i));
    assert s1.slots[i := Idle] == t.slots;
    assert Step(s1, Expire(i)) == t;
  }

  /** Two slots, as the worker has: both may see one stamp and both rename, which makes three
      renames within a window although the limit is two. */
  lemma TwoSlotsReachThree() returns (s: State)
    ensures Reaches(2, true, s) && InWindow(Stamps(s.history), 0) == 3
  {
    var s0 := State(1000, [], None, [Idle, Idle], []);
    var s1 := State(1000, [1], None, [Pushed, Idle], [1000]);
    var s2 := State(1000, [1], Some(601000), [Idle, Idle], [1000]);
    ReachStart(2, s0);
    ReachRename(2, true, s0, 0, s1);
    ReachFinish(2, true, s1, 0, s2);
    s := BothRename(s2);
    WindowOfThree(1000, 1000, 1000, 0);
  }

  lemma BothRename(s: State) returns (t: State)
    requires Reaches(2, true, s) && s == State(1000, [1], Some(601000), [Idle, Idle], [1000])
    ensures Reaches(2, true, t) && t.history == [1000, 1000, 1000]
  {
    RecentOfOne(1, Sec(s.now) - WINDOW_SEC);
    ReachStep(2, true, s, Read(0));
    var s1 := s.(slots := [Checking([1]), Idle]);
    assert Step(s, Read(0)).slots == s1.slots;
    ReachStep(2, true, s1, Decide(0));
    var s2 := s.(slots := [Allowed([1]), Idle]);
    assert Step(s1, Decide(0)).slots == s2.slots;
    var s3 := State(1000, [1, 1], Some(601000), [Allowed([1]), Pushed], [1000, 1000]);
    ReachRename(2, true, s2, 1, s3);
    ReachStep(2, true, s3, Push(0));
    t := Step(s3, Push(0));
  }

  /** One slot, but the key runs out between an LPUSH and its EXPIRE: the stamp just pushed is gone
      with the old one, the list starts anew, and a window ends up with three renames. */
  lemma LostStampBreaksLimit() returns (s: State)
    ensures Reaches(1, false, s) && InWindow(Stamps(s.history), 1) == 3
  {
    var s0 := State(1000, [], None, [Idle], []);
    var s1 := State(1000, [1], None, [Pushed], [1000]);
    var s2 := State(1000, [1], Some(601000), [Idle], [1000]);
    var s3 := State(600999, [1], Some(601000), [Idle], [1000]);
    var s4 := State(600999, [600, 1], Some(601000), [Pushed], [1000, 600999]);
    var s5 := State(601000, [], None, [Pushed], [1000, 600999]);
    ReachStart(1, s0);
    ReachRename(1, true, s0, 0, s1);
    ReachFinish(1, true, s1, 0, s2);
    ReachStep(1, true, s2, Tick(600999));
    assert Step(s2, Tick(600999)) == s3;
    RecentOfOne(1, Sec(600999) - WINDOW_SEC);
    ReachRename(1, true, s3, 0, s4);
    ReachStep(1, true, s4, Tick(601000));
    assert Step(s4, Tick(601000)) == s5 && LosesStamp(s4, Tick(601000));
    s := TwoMore(s5);
    WindowOfFour();
  }

  lemma TwoMore(s: State) returns (t: State)
    requires Reaches(1, false, s) && s == State(601000, [], None, [Pushed], [1000, 600999])
    ensures Reaches(1, false, t) && t.history == [1000, 600999, 601000, 601000]
  {
    var s1 := State(601000, [], None, [Idle], [1000, 600999]);
    var s2 := State(601000, [601], None, [Pushed], [1000, 600999, 601000]);
    var s3 := State(601000, [601], Some(1201000), [Idle], [1000, 600999, 601000]);
    t := State(601000, [601, 601], Some(1201000), [Pushed], [1000, 600999, 601000, 601000]);
    ReachFinish(1, false, s, 0, s1);
    ReachRename(1, false, s1, 0, s2);
    ReachFinish(1, false, s2, 0, s3);
    RecentOfOne(601, Sec(s3.now) - WINDOW_SEC);
    ReachRename(1, false, s3, 0, t);
  }

  lemma WindowOfFour()
    ensures InWindow(Stamps([1000, 600999, 601000, 601000]), 1) == 3
  {
    InWindowAppend([], 1000, 1);
    InWindowAppend([1000], 600999, 1);
    InWindowAppend([1000, 600999], 601000, 1);
    InWindowAppend([1000, 600999, 601000], 601000, 1);
    assert [] + [1000] == [1000] && [1000] + [600999] == [1000, 600999];
    assert [1000, 600999] + [601000] == [1000, 600999, 601000];
    assert [1000, 600999, 601000] + [601000] == [1000, 600999, 601000, 601000];
  }
}
