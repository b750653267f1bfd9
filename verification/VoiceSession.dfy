/** Voice minutes: a join leaves a time stamp under a key that lives for a day, a leave takes it and
    credits the time in between; and how the events of the bot are told apart. */
module VoiceSession {
  import opened Options

  const VOICE_JOIN_TTL_MS := 86400 * 1000

  type Id = nat

  /** The key of a user's stamp in a guild. */
  datatype Key = Key(guildId: Id, userId: Id)

  /** A channel field of an event: missing, only white space, or an id. */
  datatype Field = Missing | Blank | Channel(id: Id)

  /** A voice event of the queue; `user` is the first of its three user fields that is set. */
  datatype Event = Event(guildId: Id, user: Option<Id>, channelId: Field, payloadChannelId: Field)

  /** What becomes of an event: the stamp is set, or a row is pushed, with the minutes of a leave if
      it is one. */
  datatype Outcome = Stamped | Pushed(voiceMinutes: Option<nat>)

  datatype Credit = Credit(durationSeconds: nat, voiceMinutes: nat)

  type Stamps = map<Key, int>

  /** The value of the key, which Redis drops when its time is over. */
  function Get(stamps: Stamps, k: Key, now: int): Option<int> {
    if k in stamps && now < stamps[k] + VOICE_JOIN_TTL_MS then Some(stamps[k]) else None
  }

  function WholeSeconds(ms: int): nat {
    if ms < 0 then 0 else ms / 1000
  }

  /** Minutes, a begun one counting in full. */
  function MinutesUp(seconds: nat): nat {
    (seconds + 59) / 60
  }

  /** Whole seconds, and the fewest minutes that cover them. */
  function CreditOf(joinMs: int, leaveMs: int): (c: Credit)
    ensures joinMs <= leaveMs ==> 1000 * c.durationSeconds <= leaveMs - joinMs < 1000 * (c.durationSeconds + 1)
    ensures leaveMs < joinMs ==> c.durationSeconds == 0
    ensures c.durationSeconds <= 60 * c.voiceMinutes < c.durationSeconds + 60
  {
    Credit(WholeSeconds(leaveMs - joinMs), MinutesUp(WholeSeconds(leaveMs - joinMs)))
  }

  /** The consumer's test: the event names a channel. */
  predicate IsJoin(e: Event) {
    (if e.channelId.Missing? then e.payloadChannelId else e.channelId).Channel?
  }

  function Leave(stamps: Stamps, k: Key, now: int): Option<Credit> {
    var raw := Get(stamps, k, now);
    if raw.None? then None else Some(CreditOf(raw.value, now))
  }

  function Process(stamps: Stamps, e: Event, now: int): (Stamps, Outcome) {
    if e.user.None? then (stamps, Pushed(None))
    else
      var k := Key(e.guildId, e.user.value);
      if IsJoin(e) then (stamps[k := now], Stamped)
      else
        var leave := Leave(stamps, k, now);
        (stamps - {k}, Pushed(Some(if leave.None? then 0 else leave.value.voiceMinutes)))
  }

  class VoiceSessionService {
    var stamps: Stamps

    constructor ()
      ensures stamps == map[]
    {
      stamps := map[];
    }

    method RecordJoin(k: Key, now: int)
      modifies this
      ensures stamps == old(stamps)[k := now]
    {
      stamps := stamps[k := now];
    }

    /** Read the stamp, delete the key, and say how long ago it was set. */
    method RecordLeave(k: Key, now: int) returns (leave: Option<Credit>)
      modifies this
      ensures stamps == old(stamps) - {k}
      ensures leave == Leave(old(stamps), k, now)
    {
      var raw := Get(stamps, k, now);
      stamps := stamps - {k};
      if raw.None? {
        return None;
      }
      var durationSeconds := WholeSeconds(now - raw.value);
      return Some(Credit(durationSeconds, MinutesUp(durationSeconds)));
    }

    /** The voice part of the consumer's `processJob`. */
    method ProcessVoiceEvent(e: Event, now: int) returns (outcome: Outcome)
      modifies this
      ensures (stamps, outcome) == Process(old(stamps), e, now)
    {
      var channel := if e.channelId.Missing? then e.payloadChannelId else e.channelId;
      var isJoin := channel.Channel?;
      if isJoin && e.user.Some? {
        RecordJoin(Key(e.guildId, e.user.value), now);
        return Stamped;
      }
      if !isJoin && e.user.Some? {
        var leave := RecordLeave(Key(e.guildId, e.user.value), now);
        return Pushed(Some(if leave.None? then 0 else leave.value.voiceMinutes));
      }
      return Pushed(None);
    }
  }

  // ----- Runs -----

  datatype Timed = Timed(event: Event, now: int)

  function Run(events: seq<Timed>): Stamps {
    if events == [] then map[]
    else Process(Run(events[..|events| - 1]), events[|events| - 1].event, events[|events| - 1].now).0
  }

  predicate IsOf(e: Event, k: Key) {
    e.user == Some(k.userId) && e.guildId == k.guildId
  }

  /** The key's last event, if it is a join: when it was. */
  function OpenSince(events: seq<Timed>, k: Key): Option<int> {
    if events == [] then None
    else
      var last := events[|events| - 1];
      if IsOf(last.event, k) then if IsJoin(last.event) then Some(last.now) else None
      else OpenSince(events[..|events| - 1], k)
  }

  lemma {:induction false} StampIsLastJoin(events: seq<Timed>, k: Key)
    ensures var since := OpenSince(events, k);
            if k in Run(events) then since == Some(Run(events)[k]) else since == None
  {
    if events != [] {
      StampIsLastJoin(events[..|events| - 1], k);
    }
  }

  /** What the event credits to the key: nothing unless it is a leave of this key. */
  function CreditAt(before: seq<Timed>, last: Timed, k: Key): Option<Credit> {
    if IsOf(last.event, k) && !IsJoin(last.event) then Leave(Run(before), k, last.now) else None
  }

  /** Which events are joins: the event's own channel decides, also if it is blank, and the payload's
      only if the event has none. A join is stamped, and an event without a user pushed as it is. */
  lemma FateOfEvent(before: seq<Timed>, last: Timed)
    ensures last.event.channelId.Channel? ==> IsJoin(last.event)
    ensures last.event.channelId.Blank? ==> !IsJoin(last.event)
    ensures last.event.channelId.Missing? ==> (IsJoin(last.event) <==> last.event.payloadChannelId.Channel?)
    ensures var outcome := Process(Run(before), last.event, last.now).1;
            && (outcome.Stamped? <==> last.event.user.Some? && IsJoin(last.event))
            && (last.event.user.None? ==> outcome == Pushed(None) && Run(before + [last]) == Run(before))
  {
    assert (before + [last])[..|before|] == before;
  }

  /** A leave credits the time since the user's last event if that was a join less than a day ago,
      and nothing otherwise: so a join is credited by the next event of its user or never, and never
      twice. */
  lemma LeaveCreditsLastJoin(before: seq<Timed>, last: Timed, k: Key)
    requires IsOf(last.event, k) && !IsJoin(last.event)
    ensures var since, credit := OpenSince(before, k), CreditAt(before, last, k);
            && (credit.Some? <==> since.Some? && last.now - since.value < 86400000)
            && (credit.Some? ==> credit.value == CreditOf(since.value, last.now))
            && OpenSince(before + [last], k) == None
  {
    StampIsLastJoin(before, k);
    assert (before + [last])[..|before|] == before;
  }

  /** The minutes on the pushed row are the credited ones. */
  lemma PushedMinutesAreCredited(before: seq<Timed>, last: Timed, k: Key)
    requires IsOf(last.event, k) && !IsJoin(last.event)
    ensures var credit := CreditAt(before, last, k);
            Process(Run(before), last.event, last.now).1
            == Pushed(Some(if credit.Some? then credit.value.voiceMinutes else 0))
  {
    assert last.event.user == Some(k.userId);
  }

  // ----- Sums -----

  function Seconds(events: seq<Timed>, k: Key): nat {
    if events == [] then 0
    else
      var before := events[..|events| - 1];
      var credit := CreditAt(before, events[|events| - 1], k);
      Seconds(before, k) + if credit.Some? then credit.value.durationSeconds else 0
  }

  function Minutes(events: seq<Timed>, k: Key): nat {
    if events == [] then 0
    else
      var before := events[..|events| - 1];
      var credit := CreditAt(before, events[|events| - 1], k);
      Minutes(before, k) + if credit.Some? then credit.value.voiceMinutes else 0
  }

  /** Leaves that credited something, be it zero seconds. */
  function Leaves(events: seq<Timed>, k: Key): nat {
    if events == [] then 0
    else
      var before := events[..|events| - 1];
      Leaves(before, k) + if CreditAt(before, events[|events| - 1], k).Some? then 1 else 0
  }

  predicate InOrder(events: seq<Timed>) {
    forall j, k :: 0 <= j < k < |events| ==> events[j].now <= events[k].now
  }

  lemma {:induction false} OpenSinceInRun(events: seq<Timed>, k: Key)
    requires InOrder(events)
    ensures OpenSince(events, k).Some? ==>
              events != [] && events[0].now <= OpenSince(events, k).value <= events[|events| - 1].now
  {
    if events != [] {
      OpenSinceInRun(events[..|events| - 1], k);
    }
  }

  lemma WholeSecondsFit(ms: int)
    ensures 0 <= ms ==> 1000 * WholeSeconds(ms) <= ms
  {
  }

  /** The credited time is no longer than the time that went by, and leaves room for the session that
      is still open. */
  lemma {:induction false} CreditWithinElapsed(events: seq<Timed>, k: Key)
    requires InOrder(events) && events != []
    ensures var end := if OpenSince(events, k).Some? then OpenSince(events, k).value else events[|events| - 1].now;
            events[0].now + 1000 * Seconds(events, k) <= end <= events[|events| - 1].now
    decreases |events|
  {
    hide WholeSeconds, MinutesUp, IsJoin, IsOf, Process;
    var before, last := events[..|events| - 1], events[|events| - 1];
    OpenSinceInRun(events, k);
    if before == [] {
      NothingAtFirst(last, k);
    } else {
      CreditWithinElapsed(before, k);
      assert before[0].now == events[0].now && before[|before| - 1].now <= last.now;
      if IsOf(last.event, k) && !IsJoin(last.event) {
        LeaveCreditsLastJoin(before, last, k);
        if CreditAt(before, last, k).Some? {
          WholeSecondsFit(last.now - OpenSince(before, k).value);
        }
      }
    }
  }

  lemma NothingAtFirst(last: Timed, k: Key)
    ensures CreditAt([], last, k).None? && Seconds([], k) == 0
  {
  }

  lemma MinutesRoundUp(seconds: nat)
    ensures seconds <= 60 * MinutesUp(seconds) <= seconds + 59
  {
  }

  /** Minutes cover the credited seconds and exceed them by less than a minute for each leave. */
  lemma {:induction false} MinutesCoverSeconds(events: seq<Timed>, k: Key)
    ensures Seconds(events, k) <= 60 * Minutes(events, k) <= Seconds(events, k) + 59 * Leaves(events, k)
    decreases |events|
  {
    hide MinutesUp, WholeSeconds, IsJoin, IsOf, Run;
    if events != [] {
      var before, last := events[..|events| - 1], events[|events| - 1];
      MinutesCoverSeconds(before, k);
      var credit := CreditAt(before, last, k);
      if credit.Some? {
        MinutesRoundUp(credit.value.durationSeconds);
      }
    }
  }

  /** One leave credits less than a day, and at most 1440 minutes. */
  lemma CreditUnderADay(before: seq<Timed>, last: Timed, k: Key)
    ensures var credit := CreditAt(before, last, k);
            credit.Some? ==> credit.value.durationSeconds < 86400 && credit.value.voiceMinutes <= 1440
  {
  }

  // ----- What the bot sends -----

  /** A voice state: the channel if the client knows it, and its id. */
  datatype VoiceState = VoiceState(channel: Option<Id>, channelId: Option<Id>)

  /** A known channel is the one with the state's id. */
  predicate Genuine(v: VoiceState) {
    v.channel.Some? ==> v.channel == v.channelId
  }

  /** The channel field of the event that the bot makes of a change of state. */
  function SentChannel(before: VoiceState, after: VoiceState): Field {
    var known := if after.channel.Some? then after.channel else before.channel;
    var id := if known.Some? then known else if after.channelId.Some? then after.channelId else before.channelId;
    if id.Some? then Channel(id.value) else Missing
  }

  datatype Update = Update(guildId: Id, user: Option<Id>, before: VoiceState, after: VoiceState, now: int)

  function SentEvent(u: Update): Timed {
    Timed(Event(u.guildId, u.user, SentChannel(u.before, u.after), SentChannel(u.before, u.after)), u.now)
  }

  function SentEvents(updates: seq<Update>): seq<Timed> {
    seq(|updates|, i requires 0 <= i < |updates| => SentEvent(updates[i]))
  }

  /** An event from the bot counts as a join exactly if either state has a channel: a leave carries
      the channel that was left. */
  lemma SentAsJoinIffAnyChannel(u: Update)
    requires Genuine(u.before) && Genuine(u.after)
    ensures IsJoin(SentEvent(u).event) <==> u.before.channelId.Some? || u.after.channelId.Some?
  {
  }

  /** With both states' channels known, the event carries the channel after the update, or else the one before. */
  lemma SentChannelIsTheLast(before: VoiceState, after: VoiceState)
    requires before.channel == before.channelId && after.channel == after.channelId
    ensures after.channelId.Some? ==> SentChannel(before, after) == Channel(after.channelId.value)
    ensures after.channelId.None? && before.channelId.Some? ==>
              SentChannel(before, after) == Channel(before.channelId.value)
    ensures after.channelId.None? && before.channelId.None? ==> SentChannel(before, after).Missing?
  {
  }

  predicate UpdateOf(u: Update, k: Key) {
    u.user == Some(k.userId) && u.guildId == k.guildId
  }

  predicate AnyChannel(u: Update) {
    u.before.channelId.Some? || u.after.channelId.Some?
  }

  ghost predicate AllGenuine(updates: seq<Update>) {
    forall u <- updates :: Genuine(u.before) && Genuine(u.after)
  }

  /** When the user's last update was, if it had a channel. */
  function LastWithChannel(updates: seq<Update>, k: Key): Option<int> {
    if updates == [] then None
    else
      var last := updates[|updates| - 1];
      if UpdateOf(last, k) then if AnyChannel(last) then Some(last.now) else None
      else LastWithChannel(updates[..|updates| - 1], k)
  }

  lemma SentFront(updates: seq<Update>)
    requires updates != []
    ensures SentEvents(updates)[..|updates| - 1] == SentEvents(updates[..|updates| - 1])
    ensures SentEvents(updates)[|updates| - 1] == SentEvent(updates[|updates| - 1])
  {
  }

  lemma {:induction false} OpenSinceLastWithChannel(updates: seq<Update>, k: Key)
    requires AllGenuine(updates)
    ensures OpenSince(SentEvents(updates), k) == LastWithChannel(updates, k)
    decreases |updates|
  {
    if updates != [] {
      var last := updates[|updates| - 1];
      SentFront(updates);
      SentAsJoinIffAnyChannel(last);
      OpenSinceLastWithChannel(updates[..|updates| - 1], k);
    }
  }

  /** An update whose handler read both states after the user had left, less than a day after the
      user's last one with a channel, and at least a second. */
  predicate LateRead(updates: seq<Update>, n: nat, k: Key)
    requires n < |updates|
  {
    var u, since := updates[n], LastWithChannel(updates[..n], k);
    UpdateOf(u, k) && !AnyChannel(u) && since.Some? && 1000 <= u.now - since.value < 86400000
  }

  /** What an update of the bot credits: exactly when neither state has a channel and the user's last
      update had one, less than a day ago, the time since that one; and so minutes exactly after a
      second. */
  lemma BotUpdateCreditsIff(updates: seq<Update>, n: nat, k: Key)
    requires n < |updates| && AllGenuine(updates)
    ensures var credit := CreditAt(SentEvents(updates[..n]), SentEvent(updates[n]), k);
            var since := LastWithChannel(updates[..n], k);
            && (credit.Some? <==> UpdateOf(updates[n], k) && !AnyChannel(updates[n])
                                  && since.Some? && updates[n].now - since.value < 86400000)
            && (credit.Some? ==> credit.value == CreditOf(since.value, updates[n].now))
            && (LateRead(updates, n, k) <==> credit.Some? && credit.value.voiceMinutes > 0)
            && (LateRead(updates, n, k) <==> credit.Some? && credit.value.durationSeconds > 0)
  {
    SentAsJoinIffAnyChannel(updates[n]);
    OpenSinceLastWithChannel(updates[..n], k);
    if IsOf(SentEvent(updates[n]).event, k) && !IsJoin(SentEvent(updates[n]).event) {
      LeaveCreditsLastJoin(SentEvents(updates[..n]), SentEvent(updates[n]), k);
    }
  }

  /** The bot's events credit nothing exactly if there is no such late read: leaves themselves, which
      carry the channel that was left, never credit anything. */
  lemma {:induction false} BotEventsCreditNothing(updates: seq<Update>, k: Key)
    requires AllGenuine(updates)
    ensures Minutes(SentEvents(updates), k) == 0 <==> forall n :: 0 <= n < |updates| ==> !LateRead(updates, n, k)
    ensures Seconds(SentEvents(updates), k) == 0 <==> forall n :: 0 <= n < |updates| ==> !LateRead(updates, n, k)
    decreases |updates|
  {
    hide SentEvent, IsJoin, Run, LateRead, CreditAt, LastWithChannel;
    if updates != [] {
      var last := |updates| - 1;
      var front := updates[..last];
      BotEventsCreditNothing(front, k);
      BotUpdateCreditsIff(updates, last, k);
      SentFront(updates);
      forall n | 0 <= n < last
        ensures LateRead(front, n, k) <==> LateRead(updates, n, k)
      {
        SameLateRead(updates, n, k);
      }
    }
  }

  lemma SameLateRead(updates: seq<Update>, n: nat, k: Key)
    requires n < |updates| - 1
    ensures LateRead(updates[..|updates| - 1], n, k) <==> LateRead(updates, n, k)
  {
    assert updates[..|updates| - 1][..n] == updates[..n];
  }

  /** A leave stamps the key; an hour later the user joins and leaves again at once, and the handler of
      the join reads both states after that: an hour outside voice is credited. */
  lemma LateReadCreditsAbsence(guild: Id, user: Id, channel: Id) returns (updates: seq<Update>)
    ensures AllGenuine(updates) && |updates| == 2 && updates[1].now - updates[0].now == 3600 * 1000
    ensures updates[0].before.channelId == Some(channel) && updates[0].after.channelId.None? && !AnyChannel(updates[1])
    ensures Minutes(SentEvents(updates), Key(guild, user)) == 60
  {
    var away, there := VoiceState(None, None), VoiceState(Some(channel), Some(channel));
    var k := Key(guild, user);
    var leave, late := Update(guild, Some(user), there, away, 0), Update(guild, Some(user), away, away, 3600 * 1000);
    updates := [leave, late];
    assert updates[..1] == [leave] && updates[..0] == [] && [leave][..0] == [];
    BotUpdateCreditsIff(updates, 0, k);
    BotUpdateCreditsIff(updates, 1, k);
    assert LastWithChannel([leave], k) == Some(0);
    SentFront(updates);
    SentFront([leave]);
    assert SentEvents([]) == [];
    assert Minutes(SentEvents([leave]), k) == 0;
  }
}
