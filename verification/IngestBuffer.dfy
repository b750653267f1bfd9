/** The ingest buffer: events are pushed one at a time, and flushes that overlap freely carry whole
    buffers to ClickHouse, each with up to five attempts.

    A failed insert is taken to have written nothing, and the code after a successful insert not
    to throw. One action is what runs between two awaits. */
module IngestBuffer {

  type Event = nat

  const MAX_INSERT_RETRIES := 5

  datatype Config = Config(batchSize: nat, batchIntervalMs: nat)

  /** A flush: waiting for its insert attempt, finished, or given up with its batch put back. */
  datatype Flush =
    | InFlight(batch: seq<Event>, attempt: nat)
    | Inserted(batch: seq<Event>)
    | Requeued

  datatype Ingest = Ingest(buffer: seq<Event>, lastFlushAt: int, flushes: seq<Flush>)

  datatype Action =
    | Push(event: Event, now: int)
    | Timer(now: int)              // also what shutdown does: flush if there is anything
    | Succeed(flush: nat)          // the pending insert of a flush succeeds
    | Fail(flush: nat)             // the pending insert of a flush fails

  // ----- What each action does -----

  function StartFlush(s: Ingest, now: int): Ingest {
    if s.buffer == [] then s
    else Ingest([], now, s.flushes + [InFlight(s.buffer, 1)])
  }

  predicate FlushDue(cfg: Config, s: Ingest, now: int) {
    |s.buffer| >= cfg.batchSize || (|s.buffer| > 0 && now - s.lastFlushAt >= cfg.batchIntervalMs)
  }

  function Reverse(batch: seq<Event>): (r: seq<Event>)
    ensures |r| == |batch|
  {
    if batch == [] then [] else Reverse(batch[1..]) + [batch[0]]
  }

  function Step(cfg: Config, s: Ingest, a: Action): Ingest {
    match a
    case Push(event, now) =>
      var pushed := s.(buffer := s.buffer + [event]);
      if FlushDue(cfg, pushed, now) then StartFlush(pushed, now) else pushed
    case Timer(now) => StartFlush(s, now)
    case Succeed(k) =>
      if k < |s.flushes| && s.flushes[k].InFlight?
      then s.(flushes := s.flushes[k := Inserted(s.flushes[k].batch)]) else s
    case Fail(k) =>
      if k < |s.flushes| && s.flushes[k].InFlight? then
        var f := s.flushes[k];
        if f.attempt == MAX_INSERT_RETRIES
        then s.(buffer := Reverse(f.batch) + s.buffer, flushes := s.flushes[k := Requeued])
        else s.(flushes := s.flushes[k := InFlight(f.batch, f.attempt + 1)])
      else s
  }

  function Start(now: int): Ingest {
    Ingest([], now, [])
  }

  function Run(cfg: Config, start: int, actions: seq<Action>): Ingest {
    if actions == [] then Start(start)
    else Step(cfg, Run(cfg, start, actions[..|actions| - 1]), actions[|actions| - 1])
  }

  function Pushed(actions: seq<Action>): seq<Event> {
    if actions == [] then []
    else
      var before, last := Pushed(actions[..|actions| - 1]), actions[|actions| - 1];
      if last.Push? then before + [last.event] else before
  }

  // ----- The service -----

  /** The service object; `flushes` records every flush it has started. */
  class ClickHouseIngestor {
    const cfg: Config
    var buffer: seq<Event>
    var lastFlushAt: int
    var flushes: seq<Flush>

    function View(): Ingest
      reads this
    {
      Ingest(buffer, lastFlushAt, flushes)
    }

    constructor (cfg: Config, now: int)
      ensures this.cfg == cfg && View() == Start(now)
    {
      this.cfg := cfg;
      buffer := [];
      lastFlushAt := now;
      flushes := [];
    }

    method PushEvent(event: Event, now: int)
      modifies this
      ensures View() == Step(cfg, old(View()), Push(event, now))
    {
      buffer := buffer + [event];
      if |buffer| >= cfg.batchSize || (|buffer| > 0 && now - lastFlushAt >= cfg.batchIntervalMs) {
        BeginFlush(now);
      }
    }

    /** `flush` up to its first await. */
    method BeginFlush(now: int)
      modifies this
      ensures View() == StartFlush(old(View()), now)
    {
      if |buffer| == 0 {
        return;
      }
      var batch := buffer;
      buffer := [];
      lastFlushAt := now;
      flushes := flushes + [InFlight(batch, 1)];
    }

    method OnTimer(now: int)
      modifies this
      ensures View() == Step(cfg, old(View()), Timer(now))
    {
      if |buffer| > 0 {
        BeginFlush(now);
      }
    }

    method OnInserted(k: nat)
      requires k < |flushes| && flushes[k].InFlight?
      modifies this
      ensures View() == Step(cfg, old(View()), Succeed(k))
    {
      flushes := flushes[k := Inserted(flushes[k].batch)];
    }

    /** The catch block of one attempt. */
    method OnInsertFailed(k: nat)
      requires k < |flushes| && flushes[k].InFlight?
      modifies this
      ensures View() == Step(cfg, old(View()), Fail(k))
    {
      var f := flushes[k];
      if f.attempt == MAX_INSERT_RETRIES {
        var i := 0;
        assert Reverse([]) + buffer == buffer;
        while i < |f.batch|
          invariant 0 <= i <= |f.batch|
          invariant buffer == Reverse(f.batch[..i]) + old(buffer)
          invariant lastFlushAt == old(lastFlushAt) && flushes == old(flushes)
        {
          buffer := [f.batch[i]] + buffer;
          ReverseSnoc(f.batch[..i], f.batch[i]);
          assert f.batch[..i + 1] == f.batch[..i] + [f.batch[i]];
          i := i + 1;
        }
        assert f.batch[..i] == f.batch;
        flushes := flushes[k := Requeued];
      } else {
        flushes := flushes[k := InFlight(f.batch, f.attempt + 1)];
      }
    }
  }

  lemma {:induction false} ReverseSnoc(batch: seq<Event>, e: Event)
    ensures Reverse(batch + [e]) == [e] + Reverse(batch)
  {
    if batch != [] {
      ReverseSnoc(batch[1..], e);
      assert (batch + [e])[1..] == batch[1..] + [e];
    }
  }

  // ----- Conservation -----

  /** How often an event occurs in a sequence. */
  function Times(events: seq<Event>, e: Event): nat {
    multiset(events)[e]
  }

  lemma {:induction false} ReverseKeepsEvents(batch: seq<Event>, e: Event)
    ensures Times(Reverse(batch), e) == Times(batch, e)
  {
    if batch != [] {
      ReverseKeepsEvents(batch[1..], e);
      assert batch == [batch[0]] + batch[1..];
    }
  }

  /** How often an event is in the ClickHouse table. */
  function InTable(flushes: seq<Flush>, e: Event): nat {
    if flushes == [] then 0
    else
      var last := flushes[|flushes| - 1];
      InTable(flushes[..|flushes| - 1], e) + if last.Inserted? then Times(last.batch, e) else 0
  }

  /** How often an event waits in a batch for an insert attempt. */
  function OnItsWay(flushes: seq<Flush>, e: Event): nat {
    if flushes == [] then 0
    else
      var last := flushes[|flushes| - 1];
      OnItsWay(flushes[..|flushes| - 1], e) + if last.InFlight? then Times(last.batch, e) else 0
  }

  function Carried(f: Flush, e: Event): nat {
    if f.Requeued? then 0 else Times(f.batch, e)
  }

  lemma {:induction false} FlushChanges(flushes: seq<Flush>, k: nat, f: Flush, e: Event)
    requires k < |flushes|
    ensures InTable(flushes[k := f], e) + OnItsWay(flushes[k := f], e) + Carried(flushes[k], e)
            == InTable(flushes, e) + OnItsWay(flushes, e) + Carried(f, e)
  {
    var last := |flushes| - 1;
    if k < last {
      FlushChanges(flushes[..last], k, f, e);
      assert flushes[k := f][..last] == flushes[..last][k := f];
    } else {
      assert flushes[k := f][..last] == flushes[..last];
    }
  }

  /** Where an event is: written, buffered or on its way. */
  function Everywhere(s: Ingest, e: Event): nat {
    InTable(s.flushes, e) + Times(s.buffer, e) + OnItsWay(s.flushes, e)
  }

  lemma StartFlushKeepsEvents(s: Ingest, now: int, e: Event)
    ensures Everywhere(StartFlush(s, now), e) == Everywhere(s, e)
  {
    var flushes := s.flushes + [InFlight(s.buffer, 1)];
    assert flushes[..|flushes| - 1] == s.flushes;
  }

  lemma StepKeepsEvents(cfg: Config, s: Ingest, a: Action, e: Event)
    ensures Everywhere(Step(cfg, s, a), e) == Everywhere(s, e) + if a.Push? && a.event == e then 1 else 0
  {
    match a
    case Push(event, now) => StartFlushKeepsEvents(s.(buffer := s.buffer + [event]), now, e);
    case Timer(now) => StartFlushKeepsEvents(s, now, e);
    case Succeed(k) =>
      if k < |s.flushes| && s.flushes[k].InFlight? {
        FlushChanges(s.flushes, k, Inserted(s.flushes[k].batch), e);
      }
    case Fail(k) =>
      if k < |s.flushes| && s.flushes[k].InFlight? {
        var f := s.flushes[k];
        ReverseKeepsEvents(f.batch, e);
        FlushChanges(s.flushes, k, Requeued, e);
        FlushChanges(s.flushes, k, InFlight(f.batch, f.attempt + 1), e);
      }
  }

  /** In every interleaving, pushed events are exactly the rows written, the events buffered and the
      events on their way: none is lost and none is written twice. */
  lemma {:induction false} EventsConserved(cfg: Config, start: int, actions: seq<Action>, e: Event)
    ensures var s := Run(cfg, start, actions);
            Times(Pushed(actions), e) == InTable(s.flushes, e) + Times(s.buffer, e) + OnItsWay(s.flushes, e)
    decreases |actions|
  {
    if actions != [] {
      var before := actions[..|actions| - 1];
      EventsConserved(cfg, start, before, e);
      StepKeepsEvents(cfg, Run(cfg, start, before), actions[|actions| - 1], e);
    }
  }

  /** Each flush is written at most once, has something to write, and makes at most five attempts. */
  lemma {:induction false} FlushesAreSound(cfg: Config, start: int, actions: seq<Action>, k: nat)
    requires k < |Run(cfg, start, actions).flushes|
    ensures match Run(cfg, start, actions).flushes[k]
            case InFlight(batch, attempt) => batch != [] && 1 <= attempt <= MAX_INSERT_RETRIES
            case Inserted(batch) => batch != []
            case Requeued => true
    decreases |actions|
  {
    if actions != [] {
      var before := actions[..|actions| - 1];
      if k < |Run(cfg, start, before).flushes| {
        FlushesAreSound(cfg, start, before, k);
      }
    }
  }

  // ----- When a flush starts and how it ends -----

  /** After any run the timer, and the shutdown with it, empties the buffer: what was in it is one more
      flush, at its first attempt. */
  lemma TimerFlushes(cfg: Config, start: int, actions: seq<Action>, now: int)
    ensures var s, t := Run(cfg, start, actions), Run(cfg, start, actions + [Timer(now)]);
            && t.buffer == []
            && (s.buffer == [] ==> t == s)
            && (s.buffer != [] ==> t.lastFlushAt == now && t.flushes == s.flushes + [InFlight(s.buffer, 1)])
  {
    assert (actions + [Timer(now)])[..|actions|] == actions;
  }

  /** After any run a push starts a flush, of the whole buffer and the new event, exactly if that is a
      batch or the interval since the last flush is over; otherwise the event is buffered last. */
  lemma PushFlushesIff(cfg: Config, start: int, actions: seq<Action>, event: Event, now: int)
    requires cfg.batchSize >= 1
    ensures var s, t := Run(cfg, start, actions), Run(cfg, start, actions + [Push(event, now)]);
            if |s.buffer| + 1 >= cfg.batchSize || now - s.lastFlushAt >= cfg.batchIntervalMs
            then t == Ingest([], now, s.flushes + [InFlight(s.buffer + [event], 1)])
            else t == s.(buffer := s.buffer + [event])
  {
    assert (actions + [Push(event, now)])[..|actions|] == actions;
  }

  predicate Pending(s: Ingest, k: nat) {
    k < |s.flushes| && s.flushes[k].InFlight?
  }

  /** How many attempts of a flush have failed. */
  function Failures(cfg: Config, start: int, actions: seq<Action>, k: nat): nat {
    if actions == [] then 0
    else
      var before := actions[..|actions| - 1];
      var failed := Pending(Run(cfg, start, before), k) && actions[|actions| - 1] == Fail(k);
      Failures(cfg, start, before, k) + if failed then 1 else 0
  }

  /** Whether an attempt of a flush has succeeded. */
  predicate Written(cfg: Config, start: int, actions: seq<Action>, k: nat) {
    actions != []
    && var before := actions[..|actions| - 1];
       Written(cfg, start, before, k) || (Pending(Run(cfg, start, before), k) && actions[|actions| - 1] == Succeed(k))
  }

  /** A flush is written exactly if an attempt succeeded, and its batch comes back exactly at the fifth
      failure; until then the attempt it waits for is the one after its failures. */
  lemma {:induction false} FlushFate(cfg: Config, start: int, actions: seq<Action>, k: nat)
    ensures var s, failures := Run(cfg, start, actions), Failures(cfg, start, actions, k);
            && failures <= 5
            && (k >= |s.flushes| ==> failures == 0 && !Written(cfg, start, actions, k))
            && (k < |s.flushes| ==>
                  && (s.flushes[k].Inserted? <==> Written(cfg, start, actions, k))
                  && (s.flushes[k].Requeued? <==> failures == 5)
                  && (s.flushes[k].InFlight? ==> s.flushes[k].attempt == failures + 1))
    decreases |actions|
  {
    if actions != [] {
      FlushFate(cfg, start, actions[..|actions| - 1], k);
    }
  }

  function Share(f: Flush, e: Event): nat {
    if f.Inserted? then Times(f.batch, e) else 0
  }

  lemma {:induction false} InTableUpdate(flushes: seq<Flush>, k: nat, f: Flush, e: Event)
    requires k < |flushes|
    ensures InTable(flushes[k := f], e) + Share(flushes[k], e) == InTable(flushes, e) + Share(f, e)
  {
    var last := |flushes| - 1;
    if k < last {
      InTableUpdate(flushes[..last], k, f, e);
      assert flushes[k := f][..last] == flushes[..last][k := f];
    } else {
      assert flushes[k := f][..last] == flushes[..last];
    }
  }

  /** Where the batch of a pending flush goes: into the table with a success, to the front of the buffer
      with the fifth failure, and nowhere with any other. */
  lemma AttemptMovesBatch(cfg: Config, s: Ingest, k: nat, e: Event)
    requires Pending(s, k)
    ensures var f, t := s.flushes[k], Step(cfg, s, Succeed(k));
            InTable(t.flushes, e) == InTable(s.flushes, e) + Times(f.batch, e) && t.buffer == s.buffer
    ensures var f, t := s.flushes[k], Step(cfg, s, Fail(k));
            && InTable(t.flushes, e) == InTable(s.flushes, e)
            && Times(t.buffer, e) == Times(s.buffer, e) + (if f.attempt == 5 then Times(f.batch, e) else 0)
            && |t.buffer| >= |s.buffer| && t.buffer[|t.buffer| - |s.buffer|..] == s.buffer
  {
    var f := s.flushes[k];
    InTableUpdate(s.flushes, k, Inserted(f.batch), e);
    InTableUpdate(s.flushes, k, Requeued, e);
    InTableUpdate(s.flushes, k, InFlight(f.batch, f.attempt + 1), e);
    ReverseKeepsEvents(f.batch, e);
  }

  lemma {:induction false} ReverseAt(batch: seq<Event>, j: nat)
    requires j < |batch|
    ensures Reverse(batch)[j] == batch[|batch| - 1 - j]
  {
    if j < |batch| - 1 {
      ReverseAt(batch[1..], j);
    }
  }

  /** A batch that is given up comes back last event first, before what was buffered since; a batch that
      is tried again keeps its events and leaves the buffer alone. */
  lemma GivenUpComesBackReversed(cfg: Config, s: Ingest, k: nat)
    requires Pending(s, k)
    ensures var f, t := s.flushes[k], Step(cfg, s, Fail(k)); var n := |f.batch|;
            if f.attempt == 5
            then && |t.buffer| == n + |s.buffer| && t.buffer[n..] == s.buffer
                 && forall j :: 0 <= j < n ==> t.buffer[j] == f.batch[n - 1 - j]
            else t == s.(flushes := s.flushes[k := InFlight(f.batch, f.attempt + 1)])
  {
    var batch := s.flushes[k].batch;
    forall j | 0 <= j < |batch|
      ensures Reverse(batch)[j] == batch[|batch| - 1 - j]
    {
      ReverseAt(batch, j);
    }
  }

  // ----- Batch sizes -----

  /** After a push the buffer is shorter than a batch, even if batches had just been put back, and
      holds something only while the last flush is less than an interval ago. */
  lemma BufferShortAfterPush(cfg: Config, s: Ingest, event: Event, now: int)
    requires cfg.batchSize >= 1
    ensures var t := Step(cfg, s, Push(event, now));
            && |t.buffer| < cfg.batchSize
            && (t.buffer != [] ==> now - t.lastFlushAt < cfg.batchIntervalMs)
            && (t.buffer == [] ==> t.lastFlushAt == now)
  {
  }

  /** All batches of the flushes started, in the order they were started. */
  function Batches(flushes: seq<Flush>): seq<Event> {
    if flushes == [] then []
    else
      var last := flushes[|flushes| - 1];
      Batches(flushes[..|flushes| - 1]) + if last.Requeued? then [] else last.batch
  }

  ghost predicate NoneRequeued(flushes: seq<Flush>) {
    forall k :: 0 <= k < |flushes| ==> !flushes[k].Requeued?
  }

  lemma {:induction false} BatchesUpdate(flushes: seq<Flush>, k: nat, f: Flush)
    requires k < |flushes| && !flushes[k].Requeued? && !f.Requeued? && f.batch == flushes[k].batch
    ensures Batches(flushes[k := f]) == Batches(flushes)
  {
    var last := |flushes| - 1;
    if k < last {
      BatchesUpdate(flushes[..last], k, f);
      assert flushes[k := f][..last] == flushes[..last][k := f];
    } else {
      assert flushes[k := f][..last] == flushes[..last];
    }
  }

  lemma BatchesAppend(flushes: seq<Flush>, batch: seq<Event>)
    ensures Batches(flushes + [InFlight(batch, 1)]) == Batches(flushes) + batch
  {
    assert (flushes + [InFlight(batch, 1)])[..|flushes|] == flushes;
  }

  lemma StepKeepsOrder(cfg: Config, s: Ingest, a: Action)
    requires NoneRequeued(Step(cfg, s, a).flushes)
    ensures NoneRequeued(s.flushes)
    ensures var t := Step(cfg, s, a);
            Batches(t.flushes) + t.buffer
            == Batches(s.flushes) + s.buffer + if a.Push? then [a.event] else []
  {
    var t := Step(cfg, s, a);
    forall k | 0 <= k < |s.flushes|
      ensures !s.flushes[k].Requeued?
    {
      assert !t.flushes[k].Requeued?;
    }
    match a
    case Push(event, now) => BatchesAppend(s.flushes, s.buffer + [event]);
    case Timer(now) => BatchesAppend(s.flushes, s.buffer);
    case Succeed(k) =>
      if k < |s.flushes| && s.flushes[k].InFlight? {
        BatchesUpdate(s.flushes, k, Inserted(s.flushes[k].batch));
      }
    case Fail(k) =>
      if k < |s.flushes| && s.flushes[k].InFlight? {
        var f := s.flushes[k];
        assert !t.flushes[k].Requeued?;
        BatchesUpdate(s.flushes, k, InFlight(f.batch, f.attempt + 1));
      }
  }

  /** As long as no batch has been given up, the batches in the order they were taken, followed by
      the buffer, are the pushed events in order, however attempts fail and overlap. */
  lemma {:induction false} PushOrderKept(cfg: Config, start: int, actions: seq<Action>)
    requires NoneRequeued(Run(cfg, start, actions).flushes)
    ensures var s := Run(cfg, start, actions); Batches(s.flushes) + s.buffer == Pushed(actions)
    decreases |actions|
  {
    if actions != [] {
      var before := actions[..|actions| - 1];
      StepKeepsOrder(cfg, Run(cfg, start, before), actions[|actions| - 1]);
      PushOrderKept(cfg, start, before);
    }
  }

  /** No insert fails, the timer does not fire and no push comes a full interval after the last flush. */
  ghost predicate Undisturbed(cfg: Config, start: int, actions: seq<Action>) {
    forall n :: 0 <= n < |actions| ==> CalmAction(cfg, Run(cfg, start, actions[..n]), actions[n])
  }

  predicate CalmAction(cfg: Config, s: Ingest, a: Action) {
    match a
    case Push(_, now) => now - s.lastFlushAt < cfg.batchIntervalMs
    case Timer(_) => false
    case Succeed(_) => true
    case Fail(_) => false
  }

  predicate FullBatch(cfg: Config, f: Flush) {
    !f.Requeued? && |f.batch| == cfg.batchSize
  }

  lemma CalmStep(cfg: Config, s: Ingest, a: Action)
    requires CalmAction(cfg, s, a) && |s.buffer| < cfg.batchSize
    requires forall k :: 0 <= k < |s.flushes| ==> FullBatch(cfg, s.flushes[k])
    ensures var t := Step(cfg, s, a);
            && (forall k :: 0 <= k < |t.flushes| ==> FullBatch(cfg, t.flushes[k]))
            && if a.Push? && |s.buffer| + 1 == cfg.batchSize
               then |t.flushes| == |s.flushes| + 1 && t.buffer == []
               else |t.flushes| == |s.flushes| && |t.buffer| == |s.buffer| + if a.Push? then 1 else 0
  {
  }

  /** Undisturbed, every flush carries exactly batchSize events and fewer than that are left in the
      buffer: n pushes make n div batchSize flushes and leave n mod batchSize events. */
  lemma {:induction false} FullBatches(cfg: Config, start: int, actions: seq<Action>)
    requires cfg.batchSize >= 1 && Undisturbed(cfg, start, actions)
    ensures var s := Run(cfg, start, actions);
            && |Pushed(actions)| == |s.flushes| * cfg.batchSize + |s.buffer|
            && |s.buffer| < cfg.batchSize
            && forall k :: 0 <= k < |s.flushes| ==> FullBatch(cfg, s.flushes[k])
    decreases |actions|
  {
    if actions != [] {
      var last := |actions| - 1;
      var before := actions[..last];
      assert forall n :: 0 <= n < last ==> before[..n] == actions[..n];
      FullBatches(cfg, start, before);
      var r := Run(cfg, start, before);
      CalmStep(cfg, r, actions[last]);
      assert (|r.flushes| + 1) * cfg.batchSize == |r.flushes| * cfg.batchSize + cfg.batchSize;
    }
  }
}
