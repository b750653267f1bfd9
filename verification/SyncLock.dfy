/** The lock around the sync of one guild: `SET NX EX 120` to enter, an unconditional `DEL` to leave. */
module SyncLock {
  import opened Options

  const TTL_MS := 120 * 1000

  /** A request to sync the guild: waiting or refused or finished, or in the guarded section. */
  datatype Request = Outside | Inside(since: int)

  /** The clock in milliseconds, when the lock key runs out if it is set, and the requests. */
  datatype State = State(now: int, deadline: Option<int>, requests: seq<Request>)

  datatype Action =
    | Tick(to: int)
    | Enter(i: nat)   // SET NX EX; a request that finds the key set is refused
    | Leave(i: nat)   // the finally block, after success or failure

  predicate KeySet(s: State) {
    s.deadline.Some? && s.now < s.deadline.value
  }

  predicate Enabled(s: State, a: Action) {
    match a
    case Tick(to) => s.now <= to
    case Enter(i) => i < |s.requests| && s.requests[i].Outside?
    case Leave(i) => i < |s.requests| && s.requests[i].Inside?
  }

  function Step(s: State, a: Action): State
    requires Enabled(s, a)
  {
    match a
    case Tick(to) => s.(now := to)
    case Enter(i) =>
      if KeySet(s) then s
      else State(s.now, Some(s.now + TTL_MS), s.requests[i := Inside(s.now)])
    case Leave(i) => s.(deadline := None, requests := s.requests[i := Outside])
  }

  predicate Init(s: State) {
    s.deadline.None? && forall i :: 0 <= i < |s.requests| ==> s.requests[i].Outside?
  }

  ghost predicate Run(states: seq<State>, actions: seq<Action>) {
    && |states| == |actions| + 1
    && Init(states[0])
    && forall n :: 0 <= n < |actions| ==> Enabled(states[n], actions[n]) && states[n + 1] == Step(states[n], actions[n])
  }

  /** The lock key as `syncGuild` uses it. */
  class LockKey {
    var deadline: Option<int>

    constructor ()
      ensures deadline.None?
    {
      deadline := None;
    }

    /** `SET NX EX`: it succeeds and sets the key exactly when a request enters. */
    method Acquire(now: int) returns (acquired: bool)
      modifies this
      ensures forall s: State, i: nat {:trigger Enabled(s, Enter(i))} ::
                s.now == now && s.deadline == old(deadline) && Enabled(s, Enter(i)) ==>
                  var t := Step(s, Enter(i)); t.deadline == deadline && (acquired <==> t.requests[i].Inside?)
    {
      acquired := deadline.None? || deadline.value <= now;
      if acquired {
        deadline := Some(now + TTL_MS);
      }
    }

    /** `DEL`, whoever set the key. */
    method Release()
      modifies this
      ensures deadline.None?
    {
      deadline := None;
    }
  }

  // ----- Mutual exclusion -----

  ghost predicate Exclusive(s: State) {
    forall i, j :: 0 <= i < |s.requests| && 0 <= j < |s.requests| && s.requests[i].Inside? && s.requests[j].Inside?
      ==> i == j
  }

  predicate Overrun(s: State, i: nat) {
    i < |s.requests| && s.requests[i].Inside? && s.now >= s.requests[i].since + 120000
  }

  /** A request arrives while another one has been inside for the whole time to live of its lock. */
  ghost predicate EntersOnOverrun(s: State, a: Action) {
    a.Enter? && exists i :: Overrun(s, i)
  }

  /** One request inside, and the key is its own; or none inside and no key. */
  ghost predicate Inv(s: State) {
    && Exclusive(s)
    && (forall i :: 0 <= i < |s.requests| && s.requests[i].Inside? ==> s.deadline == Some(s.requests[i].since + TTL_MS))
    && ((forall i :: 0 <= i < |s.requests| ==> s.requests[i].Outside?) ==> s.deadline.None?)
  }

  lemma InvStep(s: State, a: Action)
    requires Inv(s) && Enabled(s, a)
    ensures !EntersOnOverrun(s, a) ==> Inv(Step(s, a))
    ensures EntersOnOverrun(s, a) ==> !Exclusive(Step(s, a))
  {
    var t := Step(s, a);
    if EntersOnOverrun(s, a) {
      var i: nat :| Overrun(s, i);
      assert t.requests[i].Inside? && t.requests[a.i].Inside? && i != a.i;
    } else if a.Enter? && !KeySet(s) {
      if i :| 0 <= i < |s.requests| && s.requests[i].Inside? {
        assert Overrun(s, i);
      }
      assert t.requests[a.i].Inside?;
    } else if a.Leave? {
      forall i | 0 <= i < |t.requests|
        ensures t.requests[i].Outside?
      {
        assert s.requests[a.i].Inside?;
      }
    }
  }

  lemma {:induction false} InvUpTo(states: seq<State>, actions: seq<Action>, n: nat)
    requires Run(states, actions) && n < |states|
    requires forall m :: 0 <= m < n ==> !EntersOnOverrun(states[m], actions[m])
    ensures Inv(states[n])
  {
    if n > 0 {
      InvUpTo(states, actions, n - 1);
      assert states[n - 1 + 1] == Step(states[n - 1], actions[n - 1]);
      InvStep(states[n - 1], actions[n - 1]);
    }
  }

  lemma {:induction false} InvOfExclusive(states: seq<State>, actions: seq<Action>, n: nat)
    requires Run(states, actions) && n < |states|
    requires forall m :: 0 <= m <= n ==> Exclusive(states[m])
    ensures Inv(states[n])
  {
    if n > 0 {
      InvOfExclusive(states, actions, n - 1);
      assert states[n - 1 + 1] == Step(states[n - 1], actions[n - 1]);
      InvStep(states[n - 1], actions[n - 1]);
    }
  }

  lemma OverrunBreaksExclusion(states: seq<State>, actions: seq<Action>, n: nat)
    requires Run(states, actions) && n < |actions| && EntersOnOverrun(states[n], actions[n])
    ensures exists m :: 0 <= m < |states| && !Exclusive(states[m])
  {
    if forall m :: 0 <= m <= n ==> Exclusive(states[m]) {
      InvOfExclusive(states, actions, n);
      InvStep(states[n], actions[n]);
      assert !Exclusive(states[n + 1]);
    }
  }

  /** Two requests are never inside together exactly if no request arrives while another one has
      used up the time to live of its lock. */
  lemma ExclusionIffNoOverrun(states: seq<State>, actions: seq<Action>)
    requires Run(states, actions)
    ensures (forall n :: 0 <= n < |states| ==> Exclusive(states[n]))
            <==> (forall n :: 0 <= n < |actions| ==> !EntersOnOverrun(states[n], actions[n]))
  {
    if forall n :: 0 <= n < |actions| ==> !EntersOnOverrun(states[n], actions[n]) {
      forall n | 0 <= n < |states|
        ensures Exclusive(states[n])
      {
        InvUpTo(states, actions, n);
      }
    } else {
      var n :| 0 <= n < |actions| && EntersOnOverrun(states[n], actions[n]);
      OverrunBreaksExclusion(states, actions, n);
    }
  }

  /** If every sync finishes within the time to live, no two are ever inside together. */
  lemma FinishedInTimeIsExclusive(states: seq<State>, actions: seq<Action>, n: nat)
    requires Run(states, actions) && n < |states|
    requires forall m, i :: 0 <= m < |states| && 0 <= i < |states[m].requests| ==> !Overrun(states[m], i)
    ensures Exclusive(states[n])
  {
    ExclusionIffNoOverrun(states, actions);
  }

  // ----- Which requests get in -----

  /** The request of action m got in. */
  predicate GotIn(states: seq<State>, actions: seq<Action>, m: nat)
    requires m < |actions| && |states| == |actions| + 1
  {
    var a := actions[m];
    && a.Enter? && a.i < |states[m].requests| && states[m].requests[a.i].Outside?
    && a.i < |states[m + 1].requests| && states[m + 1].requests[a.i].Inside?
  }

  /** The request of action m got in less than 120 seconds before moment n, and no sync has ended since. */
  ghost predicate HeldSince(states: seq<State>, actions: seq<Action>, m: nat, n: nat)
    requires m < n <= |actions| && |states| == |actions| + 1
  {
    && GotIn(states, actions, m) && states[n].now < states[m].now + 120000
    && forall k :: m < k < n ==> !actions[k].Leave?
  }

  ghost predicate Held(states: seq<State>, actions: seq<Action>, n: nat)
    requires n <= |actions| && |states| == |actions| + 1
  {
    exists m: nat :: m < n && HeldSince(states, actions, m, n)
  }

  /** The last request that got in, at some action before n, set the key; the key that is there is from it. */
  ghost predicate KeyFrom(states: seq<State>, actions: seq<Action>, m: nat, n: nat)
    requires m < n <= |actions| && |states| == |actions| + 1
  {
    && GotIn(states, actions, m) && states[n].deadline == Some(states[m].now + 120000)
    && forall k :: m < k < n ==> !actions[k].Leave?
  }

  /** A key that is there is from a request that got in, and no sync has ended since. */
  lemma {:induction false} KeyHasItsRequest(states: seq<State>, actions: seq<Action>, n: nat)
    requires Run(states, actions) && n < |states| && states[n].deadline.Some?
    ensures exists m: nat :: m < n && KeyFrom(states, actions, m, n)
  {
    assert n > 0;
    var a := actions[n - 1];
    assert states[n - 1 + 1] == Step(states[n - 1], a);
    if a.Enter? && !KeySet(states[n - 1]) {
      assert KeyFrom(states, actions, n - 1, n);
    } else {
      KeyHasItsRequest(states, actions, n - 1);
      var m: nat :| m < n - 1 && KeyFrom(states, actions, m, n - 1);
      assert KeyFrom(states, actions, m, n);
    }
  }

  /** A request that got in keeps the key set for 120 seconds, unless a sync ends. */
  lemma {:induction false} HeldKeyIsSet(states: seq<State>, actions: seq<Action>, m: nat, n: nat)
    requires Run(states, actions) && m < n < |states| && HeldSince(states, actions, m, n)
    ensures states[n].deadline == Some(states[m].now + 120000)
    decreases n
  {
    assert states[n - 1 + 1] == Step(states[n - 1], actions[n - 1]);
    if m < n - 1 {
      assert HeldSince(states, actions, m, n - 1);
      HeldKeyIsSet(states, actions, m, n - 1);
    }
  }

  /** In every run, also with overruns: a request gets in exactly if no sync that got in less than 120
      seconds ago holds the key, which the end of any sync takes away; a refused request changes nothing. */
  lemma GetsInIffNotHeld(states: seq<State>, actions: seq<Action>, n: nat)
    requires Run(states, actions) && n < |actions| && actions[n].Enter?
    ensures GotIn(states, actions, n) <==> !Held(states, actions, n)
    ensures !GotIn(states, actions, n) ==> states[n + 1] == states[n]
  {
    assert states[n + 1] == Step(states[n], actions[n]);
    if KeySet(states[n]) {
      KeyHasItsRequest(states, actions, n);
      var m: nat :| m < n && KeyFrom(states, actions, m, n);
      assert HeldSince(states, actions, m, n);
    }
    if Held(states, actions, n) {
      var m: nat :| m < n && HeldSince(states, actions, m, n);
      HeldKeyIsSet(states, actions, m, n);
    }
  }

  /** No guild stays locked: 120 seconds after the last request got in, the next one does. */
  lemma KeyRunsOut(states: seq<State>, actions: seq<Action>, n: nat)
    requires Run(states, actions) && n < |actions| && actions[n].Enter?
    requires forall m :: 0 <= m < n && GotIn(states, actions, m) ==> states[n].now >= states[m].now + 120000
    ensures GotIn(states, actions, n)
  {
    GetsInIffNotHeld(states, actions, n);
  }

  // ----- What an overrun does -----

  /** One slow sync takes the lock away from the next: its DEL removes the key of the request that
      came after it, so that a third one enters while the second is still within its time. */
  lemma SlowSyncFreesForeignLock()
    ensures exists states, actions :: SlowRun(states, actions)
  {
    var T := TTL_MS;
    var s0 := State(0, None, [Outside, Outside, Outside]);
    var s1 := State(0, Some(T), [Inside(0), Outside, Outside]);
    var s2 := s1.(now := T);
    var s3 := State(T, Some(2 * T), [Inside(0), Inside(T), Outside]);
    var s4 := State(T, None, [Outside, Inside(T), Outside]);
    var s5 := State(T, Some(2 * T), [Outside, Inside(T), Inside(T)]);
    var states, actions := [s0, s1, s2, s3, s4, s5], [Enter(0), Tick(T), Enter(1), Leave(0), Enter(2)];
    assert Step(s0, Enter(0)) == s1 && Step(s1, Tick(T)) == s2 && Step(s2, Enter(1)) == s3;
    assert Step(s3, Leave(0)) == s4 && Step(s4, Enter(2)) == s5;
    assert Run(states, actions);
    assert BothFresh(states[|actions|], 1, 2);
    assert SlowRun(states, actions);
  }

  /** Two requests inside together, both within the time to live of their locks. */
  predicate BothFresh(s: State, i: nat, j: nat) {
    && i < j < |s.requests|
    && s.requests[i].Inside? && s.requests[j].Inside?
    && !Overrun(s, i) && !Overrun(s, j)
  }

  ghost predicate SlowRun(states: seq<State>, actions: seq<Action>) {
    Run(states, actions) && exists i, j :: BothFresh(states[|actions|], i, j)
  }
}
