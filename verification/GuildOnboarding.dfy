/** The race to create a guild: `onboardGuild` of the API and the guild-setup job of the worker run
    the same find, insert, settings, enqueue path, any number of them at once. One step is one
    database or queue statement; steps of different processes interleave freely. */
module GuildOnboarding {
  import opened Options

  type GuildId = nat
  type UserId = nat
  type DiscordId = nat

  datatype GuildRow = GuildRow(discordGuildId: DiscordId, ownerId: UserId)
  datatype SyncJob = SyncJob(guildId: GuildId, discordGuildId: DiscordId)

  /** The tables, with the settings keyed by guild and the users by Discord id, and the history-sync queue. */
  datatype Db = Db(
    guilds: map<GuildId, GuildRow>,
    settings: set<GuildId>,
    users: map<DiscordId, UserId>,
    queue: seq<SyncJob>
  )

  datatype Kind =
    | Onboard(user: UserId)
    // ownerFetched is false if the request for the owner's name is rejected
    | Setup(discordOwnerId: DiscordId, tokenSet: bool, ownerFetched: bool)

  datatype Failure = NoToken | OwnerNotFetched | DuplicateUser | DuplicateGuild | DuplicateSettings | GuildGone

  /** The statement a process executes next. */
  datatype Pc =
    | Find
    | AdoptRead(id: GuildId, recovering: bool)    // save of the owner: the SELECT
    | AdoptWrite(id: GuildId, recovering: bool)   // save of the owner: the UPDATE
    | FindUser
    | InsertUser
    | InsertGuild(owner: UserId)
    | SettingsRead(id: GuildId)                   // save of the settings: the SELECT
    | SettingsInsert(id: GuildId)                 // save of the settings: the INSERT
    | RecoverFind
    | RecoverFindSettings(id: GuildId)
    | Enqueue(id: GuildId)
    | Done
    | Failed(why: Failure)

  datatype Process = Process(kind: Kind, discordGuildId: DiscordId, pc: Pc)

  datatype State = State(db: Db, procs: seq<Process>)

  // ----- Statements -----

  ghost predicate HasGuild(db: Db, d: DiscordId) {
    exists id :: id in db.guilds && db.guilds[id].discordGuildId == d
  }

  /** `findOne({ where: { discordGuildId } })`. */
  ghost function FindGuild(db: Db, d: DiscordId): (found: Option<GuildId>)
    ensures found.Some? <==> HasGuild(db, d)
    ensures found.Some? ==> found.value in db.guilds && db.guilds[found.value].discordGuildId == d
  {
    if HasGuild(db, d) then
      var id :| id in db.guilds && db.guilds[id].discordGuildId == d;
      Some(id)
    else None
  }

  /** One statement of a process. `newId` is the primary key the database would generate. */
  ghost function Step(db: Db, p: Process, newId: nat): (Db, Process) {
    var d := p.discordGuildId;
    match p.pc
    case Find =>
      var found := FindGuild(db, d);
      (db, p.(pc :=
        match p.kind
        case Onboard(user) => if found.Some? then AdoptRead(found.value, false) else InsertGuild(user)
        case Setup(_, tokenSet, _) =>
          if found.Some? then Enqueue(found.value) else if tokenSet then FindUser else Failed(NoToken)))
    case AdoptRead(id, recovering) =>
      if p.kind.Onboard? && id in db.guilds && db.guilds[id].ownerId == p.kind.user
      then (db, p.(pc := AfterAdopt(id, recovering)))
      else (db, p.(pc := AdoptWrite(id, recovering)))
    case AdoptWrite(id, recovering) =>
      if p.kind.Onboard? && id in db.guilds
      then (db.(guilds := db.guilds[id := db.guilds[id].(ownerId := p.kind.user)]),
            p.(pc := AfterAdopt(id, recovering)))
      else (db, p.(pc := AfterAdopt(id, recovering)))
    case FindUser =>
      (db, p.(pc := if p.kind.Setup? && p.kind.discordOwnerId in db.users
                    then InsertGuild(db.users[p.kind.discordOwnerId])
                    else if p.kind.Setup? && !p.kind.ownerFetched then Failed(OwnerNotFetched)
                    else InsertUser))
    case InsertUser =>
      if p.kind.Setup? && p.kind.discordOwnerId !in db.users
      then (db.(users := db.users[p.kind.discordOwnerId := newId]), p.(pc := InsertGuild(newId)))
      else (db, p.(pc := Failed(DuplicateUser)))
    case InsertGuild(owner) =>
      if HasGuild(db, d)
      then (db, p.(pc := if p.kind.Onboard? then RecoverFind else Failed(DuplicateGuild)))
      else (db.(guilds := db.guilds[newId := GuildRow(d, owner)]), p.(pc := SettingsRead(newId)))
    case SettingsRead(id) =>
      (db, p.(pc := if id in db.settings then Enqueue(id) else SettingsInsert(id)))
    case SettingsInsert(id) =>
      if id in db.settings then (db, p.(pc := Failed(DuplicateSettings)))
      else (db.(settings := db.settings + {id}), p.(pc := Enqueue(id)))
    case RecoverFind =>
      var found := FindGuild(db, d);
      (db, p.(pc := if found.Some? then AdoptRead(found.value, true) else Failed(GuildGone)))
    case RecoverFindSettings(id) =>
      (db, p.(pc := if id in db.settings then Enqueue(id) else SettingsRead(id)))
    case Enqueue(id) =>
      (db.(queue := db.queue + [SyncJob(id, d)]), p.(pc := Done))
    case Done => (db, p)
    case Failed(_) => (db, p)
  }

  function AfterAdopt(id: GuildId, recovering: bool): Pc {
    if recovering then RecoverFindSettings(id) else Done
  }

  predicate Fresh(db: Db, k: nat) {
    k !in db.guilds
  }

  ghost predicate ProcessStep(s: State, t: State, i: nat, newId: nat) {
    && i < |s.procs|
    && Fresh(s.db, newId)
    && var (db, p) := Step(s.db, s.procs[i], newId);
       t == State(db, s.procs[i := p])
  }

  /** A login elsewhere in the system creates a user row. */
  ghost predicate LoginStep(s: State, t: State, discordId: DiscordId, user: UserId) {
    discordId !in s.db.users && t == s.(db := s.db.(users := s.db.users[discordId := user]))
  }

  ghost predicate Next(s: State, t: State) {
    || (exists i: nat, newId: nat :: ProcessStep(s, t, i, newId))
    || (exists discordId, user :: LoginStep(s, t, discordId, user))
  }

  // ----- Runs -----

  predicate Queued(db: Db, id: GuildId) {
    exists j <- db.queue :: j.guildId == id
  }

  /** Guilds of earlier runs are complete; every process of this run is about to start. */
  ghost predicate Init(s: State) {
    && UniqueGuilds(s.db)
    && s.db.settings == s.db.guilds.Keys
    && (forall id :: id in s.db.guilds ==> Queued(s.db, id))
    && JobsNameGuilds(s.db)
    && forall i :: 0 <= i < |s.procs| ==> s.procs[i].pc == Find
  }

  ghost predicate Run(states: seq<State>) {
    && |states| > 0
    && Init(states[0])
    && forall i :: 0 <= i < |states| - 1 ==> Next(states[i], states[i + 1])
  }

  predicate Finished(p: Process) {
    p.pc.Done? || p.pc.Failed?
  }

  // ----- One process on its own -----

  /** The next n statements of a process when nobody else runs. */
  ghost function Alone(db: Db, p: Process, newId: nat, n: nat): (Db, Process)
    decreases n
  {
    if n == 0 then (db, p)
    else var (db', p') := Step(db, p, newId); Alone(db', p', newId, n - 1)
  }

  lemma AloneStep(db: Db, p: Process, newId: nat, n: nat)
    ensures Alone(db, p, newId, n + 1) == (var (db', p') := Step(db, p, newId); Alone(db', p', newId, n))
  {
  }

  lemma AloneEnds(db: Db, p: Process, newId: nat, n: nat)
    requires Finished(p)
    ensures Alone(db, p, newId, n) == (db, p)
  {
  }

  lemma FoundIsTheOne(db: Db, id: GuildId)
    requires UniqueGuilds(db) && id in db.guilds
    ensures FindGuild(db, db.guilds[id].discordGuildId) == Some(id)
  {
  }

  /** Guild insert, settings and enqueue, from the statement that inserts the guild. */
  lemma CreateAlone(db: Db, p: Process, newId: nat, owner: UserId)
    requires p.pc == InsertGuild(owner) && !HasGuild(db, p.discordGuildId)
    requires newId !in db.settings
    ensures var created := db.(guilds := db.guilds[newId := GuildRow(p.discordGuildId, owner)],
                               settings := db.settings + {newId},
                               queue := db.queue + [SyncJob(newId, p.discordGuildId)]);
            Alone(db, p, newId, 4) == (created, p.(pc := Done))
  {
    var db1 := db.(guilds := db.guilds[newId := GuildRow(p.discordGuildId, owner)]);
    var db2 := db1.(settings := db1.settings + {newId});
    AloneStep(db, p, newId, 3);
    AloneStep(db1, p.(pc := SettingsRead(newId)), newId, 2);
    AloneStep(db1, p.(pc := SettingsInsert(newId)), newId, 1);
    AloneStep(db2, p.(pc := Enqueue(newId)), newId, 0);
  }

  /** The tables and the queue, as the two services change them. The recovery branch of `onboardGuild`
      is not here: it is taken only if another process inserts the guild in between. */
  class GuildStore {
    var guilds: map<GuildId, GuildRow>
    var settings: set<GuildId>
    var users: map<DiscordId, UserId>
    var queue: seq<SyncJob>

    ghost function View(): Db
      reads this
    {
      Db(guilds, settings, users, queue)
    }

    constructor ()
      ensures View() == Db(map[], {}, map[], [])
    {
      guilds, settings, users, queue := map[], {}, map[], [];
    }

    method Create(d: DiscordId, owner: UserId, newId: nat)
      modifies this
      ensures View() == old(View()).(guilds := old(guilds)[newId := GuildRow(d, owner)],
                                     settings := old(settings) + {newId},
                                     queue := old(queue) + [SyncJob(newId, d)])
    {
      guilds := guilds[newId := GuildRow(d, owner)];
      settings := settings + {newId};
      queue := queue + [SyncJob(newId, d)];
    }

    /** `onboardGuild`, undisturbed: adopt the guild that is there, or create it. */
    method OnboardGuild(d: DiscordId, user: UserId, newId: nat)
      requires UniqueGuilds(View()) && newId !in guilds && settings <= guilds.Keys
      modifies this
      ensures HasGuild(old(View()), d) ==>
                && settings == old(settings) && users == old(users) && queue == old(queue)
                && guilds == map id | id in old(guilds) ::
                     if old(guilds)[id].discordGuildId == d then GuildRow(d, user) else old(guilds)[id]
      ensures !HasGuild(old(View()), d) ==>
                && guilds == old(guilds)[newId := GuildRow(d, user)] && settings == old(settings) + {newId}
                && users == old(users) && queue == old(queue) + [SyncJob(newId, d)]
      ensures (View(), Process(Onboard(user), d, Done))
              == Alone(old(View()), Process(Onboard(user), d, Find), newId, 5)
    {
      ghost var db, p := View(), Process(Onboard(user), d, Find);
      AloneStep(db, p, newId, 4);
      if id :| id in guilds && guilds[id].discordGuildId == d {
        FoundIsTheOne(db, id);
        guilds := guilds[id := guilds[id].(ownerId := user)];
        AdoptAlone(db, p.(pc := AdoptRead(id, false)), newId, user);
      } else {
        Create(d, user, newId);
        CreateAlone(db, p.(pc := InsertGuild(user)), newId, user);
      }
    }

    /** The setup job, undisturbed: enqueue a history sync for the guild that is there, or create the
        guild for its Discord owner, whose user row it creates too if need be. */
    method ProcessJob(d: DiscordId, discordOwnerId: DiscordId, tokenSet: bool, ownerFetched: bool, newId: nat)
      returns (end: Pc)
      requires UniqueGuilds(View()) && newId !in guilds && settings <= guilds.Keys
      modifies this
      ensures end == if HasGuild(old(View()), d) then Done
                     else if !tokenSet then Failed(NoToken)
                     else if discordOwnerId in old(users) || ownerFetched then Done
                     else Failed(OwnerNotFetched)
      ensures end.Failed? ==> View() == old(View())
      ensures HasGuild(old(View()), d) ==>
                && guilds == old(guilds) && settings == old(settings) && users == old(users)
                && exists id :: id in guilds && guilds[id].discordGuildId == d && queue == old(queue) + [SyncJob(id, d)]
      ensures !HasGuild(old(View()), d) && end.Done? ==>
                && discordOwnerId in users
                && users == old(users)[discordOwnerId := users[discordOwnerId]]
                && users[discordOwnerId] == (if discordOwnerId in old(users) then old(users)[discordOwnerId] else newId)
                && guilds == old(guilds)[newId := GuildRow(d, users[discordOwnerId])]
                && settings == old(settings) + {newId} && queue == old(queue) + [SyncJob(newId, d)]
      ensures (View(), Process(Setup(discordOwnerId, tokenSet, ownerFetched), d, end))
              == Alone(old(View()), Process(Setup(discordOwnerId, tokenSet, ownerFetched), d, Find), newId, 7)
    {
      ghost var db, p := View(), Process(Setup(discordOwnerId, tokenSet, ownerFetched), d, Find);
      AloneStep(db, p, newId, 6);
      if id :| id in guilds && guilds[id].discordGuildId == d {
        FoundIsTheOne(db, id);
        queue := queue + [SyncJob(id, d)];
        AloneStep(db, p.(pc := Enqueue(id)), newId, 5);
        AloneEnds(View(), p.(pc := Done), newId, 5);
        return Done;
      }
      if !tokenSet {
        AloneEnds(db, p.(pc := Failed(NoToken)), newId, 6);
        return Failed(NoToken);
      }
      AloneStep(db, p.(pc := FindUser), newId, 5);
      if discordOwnerId in users {
        CreateAlone(db, p.(pc := InsertGuild(users[discordOwnerId])), newId, users[discordOwnerId]);
        Create(d, users[discordOwnerId], newId);
        AloneMore(db, p.(pc := InsertGuild(users[discordOwnerId])), newId, 4, 1);
      } else if !ownerFetched {
        AloneEnds(db, p.(pc := Failed(OwnerNotFetched)), newId, 5);
        return Failed(OwnerNotFetched);
      } else {
        AloneStep(db, p.(pc := InsertUser), newId, 4);
        users := users[discordOwnerId := newId];
        CreateAlone(View(), p.(pc := InsertGuild(newId)), newId, newId);
        Create(d, newId, newId);
      }
      return Done;
    }
  }

  lemma AdoptAlone(db: Db, p: Process, newId: nat, user: UserId)
    requires p.kind == Onboard(user) && p.pc.AdoptRead? && !p.pc.recovering && p.pc.id in db.guilds
    ensures Alone(db, p, newId, 4)
            == (db.(guilds := db.guilds[p.pc.id := db.guilds[p.pc.id].(ownerId := user)]), p.(pc := Done))
  {
    var id := p.pc.id;
    var adopted := db.(guilds := db.guilds[id := db.guilds[id].(ownerId := user)]);
    AloneStep(db, p, newId, 3);
    if db.guilds[id].ownerId == user {
      assert adopted.guilds == db.guilds;
      AloneEnds(db, p.(pc := Done), newId, 3);
    } else {
      AloneStep(db, p.(pc := AdoptWrite(id, false)), newId, 2);
      AloneEnds(adopted, p.(pc := Done), newId, 2);
    }
  }

  lemma {:induction false} AloneMore(db: Db, p: Process, newId: nat, n: nat, more: nat)
    requires Finished(Alone(db, p, newId, n).1)
    ensures Alone(db, p, newId, n + more) == Alone(db, p, newId, n)
    decreases n
  {
    if n == 0 {
      AloneEnds(db, p, newId, more);
    } else {
      var (db', p') := Step(db, p, newId);
      AloneMore(db', p', newId, n - 1, more);
    }
  }

  // ----- Invariant -----

  /** At most one row for each Discord guild. */
  ghost predicate UniqueGuilds(db: Db) {
    forall a, b :: a in db.guilds && b in db.guilds && db.guilds[a].discordGuildId == db.guilds[b].discordGuildId
      ==> a == b
  }

  ghost predicate JobsNameGuilds(db: Db) {
    forall j <- db.queue :: j.guildId in db.guilds && db.guilds[j.guildId].discordGuildId == j.discordGuildId
  }

  /** A process that will insert the settings of a guild, unless somebody else has. */
  predicate SavesSettings(p: Process, id: GuildId) {
    p.pc == SettingsRead(id) || p.pc == SettingsInsert(id)
  }

  ghost predicate SettingsPending(s: State, id: GuildId) {
    exists k :: 0 <= k < |s.procs| && SavesSettings(s.procs[k], id)
  }

  ghost predicate EnqueuePending(s: State, id: GuildId) {
    exists k :: 0 <= k < |s.procs| && s.procs[k].pc == Enqueue(id)
  }

  /** Every guild row has its settings or a process about to insert them; every settings row has
      its job queued or a process about to queue it. */
  ghost predicate Completing(s: State) {
    && s.db.settings <= s.db.guilds.Keys
    && (forall id :: id in s.db.guilds ==> id in s.db.settings || SettingsPending(s, id))
    && (forall id :: id in s.db.settings ==> Queued(s.db, id) || EnqueuePending(s, id))
  }

  /** The guild row a process works on is its own. */
  predicate PointsAt(db: Db, p: Process, id: GuildId) {
    id in db.guilds && db.guilds[id].discordGuildId == p.discordGuildId
  }

  ghost predicate ProcessOk(db: Db, p: Process) {
    match p.pc
    case AdoptRead(id, _) => p.kind.Onboard? && PointsAt(db, p, id)
    case AdoptWrite(id, _) => p.kind.Onboard? && PointsAt(db, p, id)
    case FindUser => p.kind.Setup?
    case InsertUser => p.kind.Setup?
    case InsertGuild(owner) => p.kind.Onboard? ==> owner == p.kind.user
    case SettingsRead(id) => PointsAt(db, p, id)
    case SettingsInsert(id) => PointsAt(db, p, id)
    case RecoverFind => p.kind.Onboard? && HasGuild(db, p.discordGuildId)
    case RecoverFindSettings(id) => p.kind.Onboard? && PointsAt(db, p, id)
    case Enqueue(id) => PointsAt(db, p, id)
    case Find => true
    case Done => HasGuild(db, p.discordGuildId)
    case Failed(why) => if Aborted(p) then p.kind.Setup? else HasGuild(db, p.discordGuildId)
  }

  /** A setup job that gave up before it tried to insert the guild. */
  predicate Aborted(p: Process) {
    p.pc == Failed(NoToken) || p.pc == Failed(OwnerNotFetched) || p.pc == Failed(DuplicateUser)
  }

  /** An onboarding request that has written itself down as the owner, or found itself there. */
  predicate HasOwned(p: Process) {
    p.kind.Onboard?
    && (p.pc.SettingsRead? || p.pc.SettingsInsert? || p.pc.RecoverFindSettings? || p.pc.Enqueue? || Finished(p))
  }

  ghost predicate IsOnboarder(s: State, d: DiscordId, user: UserId) {
    exists k :: 0 <= k < |s.procs| && s.procs[k].discordGuildId == d && s.procs[k].kind == Onboard(user)
  }

  ghost predicate OwnerOk(s: State) {
    forall k, id :: 0 <= k < |s.procs| && HasOwned(s.procs[k]) && id in s.db.guilds
                    && s.db.guilds[id].discordGuildId == s.procs[k].discordGuildId
      ==> IsOnboarder(s, s.procs[k].discordGuildId, s.db.guilds[id].ownerId)
  }

  ghost predicate Inv(s: State) {
    && UniqueGuilds(s.db)
    && JobsNameGuilds(s.db)
    && Completing(s)
    && (forall k :: 0 <= k < |s.procs| ==> ProcessOk(s.db, s.procs[k]))
    && OwnerOk(s)
  }

  // ----- Every statement keeps the invariant -----

  /** What every statement keeps: rows stay, with their Discord guild; settings and queued jobs stay. */
  ghost predicate Grows(db: Db, db': Db) {
    && (forall id :: id in db.guilds ==>
          id in db'.guilds && db'.guilds[id].discordGuildId == db.guilds[id].discordGuildId)
    && db.settings <= db'.settings
    && db.queue <= db'.queue
  }

  lemma StepGrows(db: Db, p: Process, newId: nat)
    requires Fresh(db, newId)
    ensures Grows(db, Step(db, p, newId).0)
  {
  }

  lemma GrowsKeeps(db: Db, db': Db, p: Process)
    requires Grows(db, db') && ProcessOk(db, p)
    ensures ProcessOk(db', p)
  {
    if HasGuild(db, p.discordGuildId) {
      GrowsKeepsGuild(db, db', p.discordGuildId);
    }
  }

  lemma GrowsKeepsGuild(db: Db, db': Db, d: DiscordId)
    requires Grows(db, db') && HasGuild(db, d)
    ensures HasGuild(db', d)
  {
    var id :| id in db.guilds && db.guilds[id].discordGuildId == d;
    assert id in db'.guilds && db'.guilds[id].discordGuildId == d;
  }

  lemma TablesKept(db: Db, p: Process, newId: nat)
    requires Fresh(db, newId) && UniqueGuilds(db) && JobsNameGuilds(db) && ProcessOk(db, p)
    ensures var db' := Step(db, p, newId).0; UniqueGuilds(db') && JobsNameGuilds(db')
  {
  }

  lemma ProcessKept(db: Db, p: Process, newId: nat)
    requires Fresh(db, newId) && ProcessOk(db, p)
    ensures var (db', p') := Step(db, p, newId); ProcessOk(db', p')
  {
    var (db', p') := Step(db, p, newId);
    var d := p.discordGuildId;
    StepGrows(db, p, newId);
    if HasGuild(db, d) {
      GrowsKeepsGuild(db, db', d);
    }
    if p.pc.AdoptRead? || p.pc.AdoptWrite? || p.pc.Enqueue? || p.pc.SettingsInsert? {
      PointsAtGuild(db', p', p.pc.id);
    }
  }

  lemma PointsAtGuild(db: Db, p: Process, id: GuildId)
    requires PointsAt(db, p, id)
    ensures HasGuild(db, p.discordGuildId)
  {
  }

  lemma CompletingKept(s: State, t: State, i: nat, newId: nat)
    requires Inv(s) && ProcessStep(s, t, i, newId)
    ensures Completing(t)
  {
    var p, p' := s.procs[i], t.procs[i];
    StepGrows(s.db, p, newId);
    forall id | id in t.db.guilds
      ensures id in t.db.settings || SettingsPending(t, id)
    {
      if id in s.db.guilds && id !in s.db.settings {
        var k :| 0 <= k < |s.procs| && SavesSettings(s.procs[k], id);
        assert k != i ==> SavesSettings(t.procs[k], id);
        assert id in t.db.settings || SavesSettings(t.procs[k], id);
      } else if id !in s.db.guilds {
        assert SavesSettings(t.procs[i], id);
      }
    }
    forall id | id in t.db.settings
      ensures Queued(t.db, id) || EnqueuePending(t, id)
    {
      if id in s.db.settings {
        if Queued(s.db, id) {
          QueuedKept(s.db, t.db, id);
        } else {
          var k :| 0 <= k < |s.procs| && s.procs[k].pc == Enqueue(id);
          if k == i {
            assert t.db.queue[|s.db.queue|].guildId == id;
          } else {
            assert t.procs[k].pc == Enqueue(id);
          }
        }
      } else {
        assert t.procs[i].pc == Enqueue(id);
      }
    }
  }

  lemma QueuedKept(db: Db, db': Db, id: GuildId)
    requires db.queue <= db'.queue && Queued(db, id)
    ensures Queued(db', id)
  {
    var j :| j in db.queue && j.guildId == id;
    assert j in db'.queue;
  }

  lemma OwnerKept(s: State, t: State, i: nat, newId: nat)
    requires Inv(s) && ProcessStep(s, t, i, newId)
    ensures OwnerOk(t)
  {
    var p, p' := s.procs[i], t.procs[i];
    forall k, id | 0 <= k < |t.procs| && HasOwned(t.procs[k]) && id in t.db.guilds
                   && t.db.guilds[id].discordGuildId == t.procs[k].discordGuildId
      ensures IsOnboarder(t, t.procs[k].discordGuildId, t.db.guilds[id].ownerId)
    {
      var d := t.procs[k].discordGuildId;
      if id in s.db.guilds && t.db.guilds[id] == s.db.guilds[id] {
        OwnerWas(s, t, i, newId, k, id);
        OnboardersStay(s, t, i, newId, d, s.db.guilds[id].ownerId);
      } else if id in s.db.guilds {
        assert s.procs[i].discordGuildId == d && s.procs[i].kind == Onboard(t.db.guilds[id].ownerId);
        OnboardersStay(s, t, i, newId, d, t.db.guilds[id].ownerId);
      } else {
        assert !HasGuild(s.db, d);
        InsertedByOnboarder(s, t, i, newId, k);
        OnboardersStay(s, t, i, newId, d, t.db.guilds[id].ownerId);
      }
    }
  }

  lemma OnboardersStay(s: State, t: State, i: nat, newId: nat, d: DiscordId, user: UserId)
    requires ProcessStep(s, t, i, newId) && IsOnboarder(s, d, user)
    ensures IsOnboarder(t, d, user)
  {
    var k :| 0 <= k < |s.procs| && s.procs[k].discordGuildId == d && s.procs[k].kind == Onboard(user);
    assert t.procs[k].discordGuildId == d && t.procs[k].kind == Onboard(user);
  }

  /** A row the statement left alone belonged to an onboarding user before. */
  lemma OwnerWas(s: State, t: State, i: nat, newId: nat, k: nat, id: GuildId)
    requires Inv(s) && ProcessStep(s, t, i, newId) && k < |t.procs| && HasOwned(t.procs[k])
    requires id in s.db.guilds && t.db.guilds[id] == s.db.guilds[id]
    requires s.db.guilds[id].discordGuildId == t.procs[k].discordGuildId
    ensures IsOnboarder(s, t.procs[k].discordGuildId, s.db.guilds[id].ownerId)
  {
    var p := s.procs[k];
    if HasOwned(p) {
    } else {
      assert k == i && p.kind.Onboard?;
      assert p.pc.AdoptRead? || p.pc.AdoptWrite?;
      assert p.pc.id == id;
      assert s.procs[k].discordGuildId == t.procs[k].discordGuildId;
      assert s.procs[k].kind == Onboard(s.db.guilds[id].ownerId);
    }
  }

  /** If a request has owned the guild it was there before, so a guild just inserted is the request's own. */
  lemma InsertedByOnboarder(s: State, t: State, i: nat, newId: nat, k: nat)
    requires Inv(s) && ProcessStep(s, t, i, newId) && k < |t.procs| && HasOwned(t.procs[k])
    requires newId in t.db.guilds && t.db.guilds[newId].discordGuildId == t.procs[k].discordGuildId
    requires !HasGuild(s.db, t.procs[k].discordGuildId)
    ensures IsOnboarder(s, t.procs[k].discordGuildId, t.db.guilds[newId].ownerId)
  {
    if k != i {
      assert false;
    }
    assert s.procs[k].kind == Onboard(t.db.guilds[newId].ownerId);
  }

  lemma InvStep(s: State, t: State, i: nat, newId: nat)
    requires Inv(s) && ProcessStep(s, t, i, newId)
    ensures Inv(t)
  {
    var p := s.procs[i];
    StepGrows(s.db, p, newId);
    TablesKept(s.db, p, newId);
    ProcessKept(s.db, p, newId);
    forall k | 0 <= k < |t.procs|
      ensures ProcessOk(t.db, t.procs[k])
    {
      if k != i {
        GrowsKeeps(s.db, t.db, s.procs[k]);
      }
    }
    CompletingKept(s, t, i, newId);
    OwnerKept(s, t, i, newId);
  }

  lemma InvLogin(s: State, t: State, discordId: DiscordId, user: UserId)
    requires Inv(s) && LoginStep(s, t, discordId, user)
    ensures Inv(t)
  {
    forall k | 0 <= k < |t.procs|
      ensures ProcessOk(t.db, t.procs[k])
    {
      GrowsKeeps(s.db, t.db, s.procs[k]);
    }
    forall id | id in t.db.guilds
      ensures id in t.db.settings || SettingsPending(t, id)
    {
      assert SettingsPending(s, id) ==> SettingsPending(t, id);
    }
    forall id | id in t.db.settings
      ensures Queued(t.db, id) || EnqueuePending(t, id)
    {
      assert EnqueuePending(s, id) ==> EnqueuePending(t, id);
    }
    forall k, id | 0 <= k < |t.procs| && HasOwned(t.procs[k]) && id in t.db.guilds
                   && t.db.guilds[id].discordGuildId == t.procs[k].discordGuildId
      ensures IsOnboarder(t, t.procs[k].discordGuildId, t.db.guilds[id].ownerId)
    {
      assert IsOnboarder(s, t.procs[k].discordGuildId, t.db.guilds[id].ownerId);
    }
  }

  lemma InvInit(s: State)
    requires Init(s)
    ensures Inv(s)
  {
  }

  lemma InvNext(s: State, t: State)
    requires Inv(s) && Next(s, t)
    ensures Inv(t)
  {
    if i: nat, newId: nat :| ProcessStep(s, t, i, newId) {
      InvStep(s, t, i, newId);
    } else {
      var discordId, user :| LoginStep(s, t, discordId, user);
      InvLogin(s, t, discordId, user);
    }
  }

  lemma {:induction false} InvRun(states: seq<State>, n: nat)
    requires Run(states) && n < |states|
    ensures Inv(states[n])
  {
    if n == 0 {
      InvInit(states[0]);
    } else {
      InvRun(states, n - 1);
      assert Next(states[n - 1], states[n - 1 + 1]);
      InvNext(states[n - 1], states[n]);
    }
  }

  // ----- Main results -----

  /** However the statements interleave, the table never holds two rows for one Discord guild. */
  lemma NeverTwoGuildRows(states: seq<State>, n: nat, a: GuildId, b: GuildId)
    requires Run(states) && n < |states|
    requires a in states[n].db.guilds && b in states[n].db.guilds
    requires states[n].db.guilds[a].discordGuildId == states[n].db.guilds[b].discordGuildId
    ensures a == b
  {
    InvRun(states, n);
  }

  ghost predicate AllFinished(s: State) {
    forall k :: 0 <= k < |s.procs| ==> Finished(s.procs[k])
  }

  /** The guild d is complete: one row, its settings, and its history-sync job. */
  ghost predicate Complete(db: Db, d: DiscordId, id: GuildId) {
    && id in db.guilds && db.guilds[id].discordGuildId == d
    && (forall other :: other in db.guilds && db.guilds[other].discordGuildId == d ==> other == id)
    && id in db.settings
    && SyncJob(id, d) in db.queue
  }

  /** A process for d that did not give up before its guild insert. */
  ghost predicate SomeoneTried(s: State, d: DiscordId) {
    exists k :: 0 <= k < |s.procs| && s.procs[k].discordGuildId == d && !Aborted(s.procs[k])
  }

  /** When all have finished, the guild is complete if it was there before or if some process got
      as far as its guild insert, and otherwise it has no row at all: the only way to lose a guild
      is that every process for it is a setup job stopped by a missing token, by a rejected request
      for the owner's name, or by a user row that somebody else inserted first. */
  lemma FinishedMeansComplete(states: seq<State>, d: DiscordId)
    requires Run(states)
    requires AllFinished(states[|states| - 1])
    ensures var last := states[|states| - 1];
            if HasGuild(states[0].db, d) || SomeoneTried(last, d)
            then exists id :: Complete(last.db, d, id)
            else !HasGuild(last.db, d)
  {
    var last := states[|states| - 1];
    InvRun(states, |states| - 1);
    if HasGuild(states[0].db, d) {
      GuildsStay(states, |states| - 1, d);
    } else if !SomeoneTried(last, d) && HasGuild(last.db, d) {
      GuildNeedsInserter(states, |states| - 1, d);
      assert false;
    }
    if HasGuild(last.db, d) {
      var id :| id in last.db.guilds && last.db.guilds[id].discordGuildId == d;
      assert Queued(last.db, id);
      var j :| j in last.db.queue && j.guildId == id;
      assert j == SyncJob(id, d);
      assert Complete(last.db, d, id);
    }
  }

  /** If any onboarding request has finished, the owner is one of the onboarding users. */
  lemma OwnerIsOnboarder(states: seq<State>, n: nat, k: nat, id: GuildId)
    requires Run(states) && n < |states| && k < |states[n].procs|
    requires states[n].procs[k].kind.Onboard? && Finished(states[n].procs[k])
    requires id in states[n].db.guilds && states[n].db.guilds[id].discordGuildId == states[n].procs[k].discordGuildId
    ensures IsOnboarder(states[n], states[n].procs[k].discordGuildId, states[n].db.guilds[id].ownerId)
  {
    InvRun(states, n);
  }

  /** An onboarding request never ends without its guild row, not even when it ends with an error. */
  lemma OnboardLeavesGuild(states: seq<State>, n: nat, k: nat)
    requires Run(states) && n < |states| && k < |states[n].procs|
    requires states[n].procs[k].kind.Onboard? && Finished(states[n].procs[k])
    ensures HasGuild(states[n].db, states[n].procs[k].discordGuildId)
  {
    InvRun(states, n);
    assert ProcessOk(states[n].db, states[n].procs[k]);
  }

  lemma NextGrows(s: State, t: State)
    requires Next(s, t)
    ensures Grows(s.db, t.db)
  {
    if i: nat, newId: nat :| ProcessStep(s, t, i, newId) {
      StepGrows(s.db, s.procs[i], newId);
    }
  }

  lemma {:induction false} GuildsStay(states: seq<State>, n: nat, d: DiscordId)
    requires Run(states) && n < |states| && HasGuild(states[0].db, d)
    ensures HasGuild(states[n].db, d)
  {
    if n > 0 {
      GuildsStay(states, n - 1, d);
      assert Next(states[n - 1], states[n - 1 + 1]);
      NextGrows(states[n - 1], states[n]);
      GrowsKeepsGuild(states[n - 1].db, states[n].db, d);
    }
  }

  /** A process past a successful guild insert. */
  predicate Inserted(p: Process) {
    p.pc.SettingsRead? || p.pc.SettingsInsert? || p.pc.Enqueue? || p.pc.Done? || p.pc == Failed(DuplicateSettings)
  }

  ghost predicate SomeoneInserted(s: State, d: DiscordId) {
    exists k :: 0 <= k < |s.procs| && s.procs[k].discordGuildId == d && Inserted(s.procs[k])
  }

  /** A row that is new in the run was inserted by a process for its guild, which goes on from there. */
  lemma {:induction false} GuildNeedsInserter(states: seq<State>, n: nat, d: DiscordId)
    requires Run(states) && n < |states| && !HasGuild(states[0].db, d) && HasGuild(states[n].db, d)
    ensures SomeoneInserted(states[n], d)
  {
    if n > 0 {
      var s, t := states[n - 1], states[n];
      assert Next(s, states[n - 1 + 1]);
      if HasGuild(s.db, d) {
        GuildNeedsInserter(states, n - 1, d);
      }
      if i: nat, newId: nat :| ProcessStep(s, t, i, newId) {
        InserterStep(s, t, i, newId, d);
      } else {
        var discordId, user :| LoginStep(s, t, discordId, user);
      }
    }
  }

  lemma InserterStep(s: State, t: State, i: nat, newId: nat, d: DiscordId)
    requires ProcessStep(s, t, i, newId)
    requires HasGuild(s.db, d) ==> SomeoneInserted(s, d)
    requires HasGuild(t.db, d)
    ensures SomeoneInserted(t, d)
  {
    if HasGuild(s.db, d) {
      var k :| 0 <= k < |s.procs| && s.procs[k].discordGuildId == d && Inserted(s.procs[k]);
      assert t.procs[k].discordGuildId == d && Inserted(t.procs[k]);
    } else {
      assert t.procs[i].discordGuildId == d && Inserted(t.procs[i]);
    }
  }

  /** The losing case is real: a login that creates the owner's user row between the setup job's
      look-up and its insert makes the job fail, and no guild row is ever made. */
  lemma LoginCanLoseGuild(d: DiscordId, owner: DiscordId, user: UserId)
    ensures exists states: seq<State> :: Run(states) && AllFinished(states[|states| - 1])
                             && |states[0].procs| == 1 && states[0].procs[0].kind == Setup(owner, true, true)
                             && states[0].procs[0].discordGuildId == d
                             && !HasGuild(states[|states| - 1].db, d)
  {
    var empty := Db(map[], {}, map[], []);
    var p := Process(Setup(owner, true, true), d, Find);
    var withUser := empty.(users := map[owner := user]);
    var s0 := State(empty, [p]);
    var s1 := State(empty, [p.(pc := FindUser)]);
    var s2 := State(empty, [p.(pc := InsertUser)]);
    var s3 := State(withUser, [p.(pc := InsertUser)]);
    var s4 := State(withUser, [p.(pc := Failed(DuplicateUser))]);
    assert ProcessStep(s0, s1, 0, 0);
    assert ProcessStep(s1, s2, 0, 0);
    assert LoginStep(s2, s3, owner, user);
    assert ProcessStep(s3, s4, 0, 0);
    var states := [s0, s1, s2, s3, s4];
    assert Run(states);
  }

  // ----- Whom a setup job makes the owner -----

  /** The user row of the Discord owner that the job names. */
  predicate OwnedByNamed(db: Db, p: Process, owner: UserId) {
    p.kind.Setup? && p.kind.discordOwnerId in db.users && db.users[p.kind.discordOwnerId] == owner
  }

  ghost predicate SetupOwner(s: State, d: DiscordId, owner: UserId) {
    exists k :: 0 <= k < |s.procs| && s.procs[k].discordGuildId == d && OwnedByNamed(s.db, s.procs[k], owner)
  }

  ghost predicate NobodyOnboards(s: State, d: DiscordId) {
    forall k :: 0 <= k < |s.procs| && s.procs[k].discordGuildId == d ==> s.procs[k].kind.Setup?
  }

  /** A setup job at its guild insert has looked up or inserted that user row, and every row of d was
      written by such a job. */
  ghost predicate OwnersAreNamed(s: State, d: DiscordId) {
    && NobodyOnboards(s, d)
    && (forall k :: 0 <= k < |s.procs| && s.procs[k].kind.Setup? && s.procs[k].pc.InsertGuild? ==>
          OwnedByNamed(s.db, s.procs[k], s.procs[k].pc.owner))
    && (forall id <- s.db.guilds :: s.db.guilds[id].discordGuildId == d ==> SetupOwner(s, d, s.db.guilds[id].ownerId))
  }

  /** Users stay, and processes keep what they are for. */
  ghost predicate KeepsUsers(s: State, t: State) {
    && (forall u <- s.db.users :: u in t.db.users && t.db.users[u] == s.db.users[u])
    && |t.procs| == |s.procs|
    && forall k :: 0 <= k < |s.procs| ==>
         t.procs[k].kind == s.procs[k].kind && t.procs[k].discordGuildId == s.procs[k].discordGuildId
  }

  lemma NextKeepsUsers(s: State, t: State)
    requires Next(s, t)
    ensures KeepsUsers(s, t)
  {
    if i: nat, newId: nat :| ProcessStep(s, t, i, newId) {
    }
  }

  lemma SetupOwnerStays(s: State, t: State, d: DiscordId, owner: UserId)
    requires KeepsUsers(s, t) && SetupOwner(s, d, owner)
    ensures SetupOwner(t, d, owner)
  {
    var k :| 0 <= k < |s.procs| && s.procs[k].discordGuildId == d && OwnedByNamed(s.db, s.procs[k], owner);
    assert t.procs[k].discordGuildId == d && OwnedByNamed(t.db, t.procs[k], owner);
  }

  /** What one statement does to the rows of d: nothing, or a setup job's insert. */
  lemma RowsOfStep(s: State, t: State, i: nat, newId: nat, d: DiscordId, id: GuildId)
    requires Inv(s) && ProcessStep(s, t, i, newId) && NobodyOnboards(s, d)
    requires id in t.db.guilds && t.db.guilds[id].discordGuildId == d
    ensures || (id in s.db.guilds && s.db.guilds[id] == t.db.guilds[id])
            || (s.procs[i].kind.Setup? && s.procs[i].discordGuildId == d
                && s.procs[i].pc == InsertGuild(t.db.guilds[id].ownerId))
  {
    assert ProcessOk(s.db, s.procs[i]);
  }

  lemma OwnersAreNamedStep(s: State, t: State, i: nat, newId: nat, d: DiscordId)
    requires Inv(s) && OwnersAreNamed(s, d) && ProcessStep(s, t, i, newId)
    ensures OwnersAreNamed(t, d)
  {
    assert Next(s, t);
    NextKeepsUsers(s, t);
    forall k | 0 <= k < |t.procs| && t.procs[k].kind.Setup? && t.procs[k].pc.InsertGuild?
      ensures OwnedByNamed(t.db, t.procs[k], t.procs[k].pc.owner)
    {
      assert k != i ==> OwnedByNamed(s.db, s.procs[k], s.procs[k].pc.owner);
    }
    forall id | id in t.db.guilds && t.db.guilds[id].discordGuildId == d
      ensures SetupOwner(t, d, t.db.guilds[id].ownerId)
    {
      RowsOfStep(s, t, i, newId, d, id);
      if id in s.db.guilds && s.db.guilds[id] == t.db.guilds[id] {
        SetupOwnerStays(s, t, d, t.db.guilds[id].ownerId);
      } else {
        assert OwnedByNamed(s.db, s.procs[i], t.db.guilds[id].ownerId);
        assert OwnedByNamed(t.db, t.procs[i], t.db.guilds[id].ownerId);
      }
    }
  }

  lemma OwnersAreNamedLogin(s: State, t: State, discordId: DiscordId, user: UserId, d: DiscordId)
    requires OwnersAreNamed(s, d) && LoginStep(s, t, discordId, user)
    ensures OwnersAreNamed(t, d)
  {
    assert Next(s, t);
    NextKeepsUsers(s, t);
    forall id | id in t.db.guilds && t.db.guilds[id].discordGuildId == d
      ensures SetupOwner(t, d, t.db.guilds[id].ownerId)
    {
      SetupOwnerStays(s, t, d, t.db.guilds[id].ownerId);
    }
  }

  lemma {:induction false} OwnersAreNamedUpTo(states: seq<State>, n: nat, d: DiscordId)
    requires Run(states) && n < |states| && !HasGuild(states[0].db, d) && NobodyOnboards(states[0], d)
    ensures OwnersAreNamed(states[n], d)
  {
    if n > 0 {
      OwnersAreNamedUpTo(states, n - 1, d);
      InvRun(states, n - 1);
      var s, t := states[n - 1], states[n];
      assert Next(s, states[n - 1 + 1]);
      if i: nat, newId: nat :| ProcessStep(s, t, i, newId) {
        OwnersAreNamedStep(s, t, i, newId, d);
      } else {
        var discordId, user :| LoginStep(s, t, discordId, user);
        OwnersAreNamedLogin(s, t, discordId, user, d);
      }
    }
  }

  /** A guild that is new in the run and that nobody onboards is owned by the user whose row has the
      Discord id that one of its setup jobs names as the owner. */
  lemma SetupMakesNamedOwner(states: seq<State>, n: nat, id: GuildId)
    requires Run(states) && n < |states| && id in states[n].db.guilds
    requires var d := states[n].db.guilds[id].discordGuildId; !HasGuild(states[0].db, d) && NobodyOnboards(states[0], d)
    ensures SetupOwner(states[n], states[n].db.guilds[id].discordGuildId, states[n].db.guilds[id].ownerId)
  {
    OwnersAreNamedUpTo(states, n, states[n].db.guilds[id].discordGuildId);
  }

  // ----- How many history syncs are queued -----

  function Jobs(queue: seq<SyncJob>, d: DiscordId): nat {
    if queue == [] then 0
    else Jobs(queue[..|queue| - 1], d) + if queue[|queue| - 1].discordGuildId == d then 1 else 0
  }

  predicate DoneFor(p: Process, d: DiscordId) {
    p.discordGuildId == d && p.pc.Done?
  }

  /** On the way to taking over a row that its first look-up found. */
  predicate TakingOver(p: Process, d: DiscordId) {
    p.discordGuildId == d && (p.pc.AdoptRead? || p.pc.AdoptWrite?) && !p.pc.recovering
  }

  /** Processes for d that are done, or about to be without anything to queue. */
  function Through(procs: seq<Process>, d: DiscordId): nat {
    if procs == [] then 0
    else
      var last := procs[|procs| - 1];
      Through(procs[..|procs| - 1], d) + if DoneFor(last, d) || TakingOver(last, d) then 1 else 0
  }

  function Dones(procs: seq<Process>, d: DiscordId): nat {
    if procs == [] then 0
    else Dones(procs[..|procs| - 1], d) + if DoneFor(procs[|procs| - 1], d) then 1 else 0
  }

  /** The first look-up of an onboarding request for d finds the guild. */
  ghost predicate FindsItThere(s: State, t: State, d: DiscordId) {
    && HasGuild(s.db, d)
    && exists k :: 0 <= k < |s.procs| && k < |t.procs| && s.procs[k].kind.Onboard? && s.procs[k].discordGuildId == d
                   && s.procs[k].pc.Find? && !t.procs[k].pc.Find?
  }

  ghost function TakeOvers(states: seq<State>, n: nat, d: DiscordId): nat
    requires n < |states|
  {
    if n == 0 then 0
    else TakeOvers(states, n - 1, d) + if FindsItThere(states[n - 1], states[n], d) then 1 else 0
  }

  lemma {:induction false} ThroughUpdate(procs: seq<Process>, i: nat, p: Process, d: DiscordId)
    requires i < |procs|
    ensures Through(procs[i := p], d) + (if DoneFor(procs[i], d) || TakingOver(procs[i], d) then 1 else 0)
            == Through(procs, d) + if DoneFor(p, d) || TakingOver(p, d) then 1 else 0
  {
    var last := |procs| - 1;
    if i < last {
      ThroughUpdate(procs[..last], i, p, d);
      assert procs[i := p][..last] == procs[..last][i := p];
    } else {
      assert procs[i := p][..last] == procs[..last];
    }
  }

  lemma JobsAppend(queue: seq<SyncJob>, job: SyncJob, d: DiscordId)
    ensures Jobs(queue + [job], d) == Jobs(queue, d) + if job.discordGuildId == d then 1 else 0
  {
    assert (queue + [job])[..|queue|] == queue;
  }

  lemma {:induction false} NoneThrough(procs: seq<Process>, d: DiscordId)
    requires forall k :: 0 <= k < |procs| ==> procs[k].pc == Find
    ensures Through(procs, d) == 0
  {
    if procs != [] {
      NoneThrough(procs[..|procs| - 1], d);
    }
  }

  lemma {:induction false} FinishedAreDones(procs: seq<Process>, d: DiscordId)
    requires forall k :: 0 <= k < |procs| ==> Finished(procs[k])
    ensures Through(procs, d) == Dones(procs, d)
  {
    if procs != [] {
      FinishedAreDones(procs[..|procs| - 1], d);
    }
  }

  lemma JobsStep(s: State, t: State, i: nat, newId: nat, d: DiscordId)
    requires ProcessStep(s, t, i, newId) && ProcessOk(s.db, s.procs[i])
    ensures Jobs(t.db.queue, d) + (if FindsItThere(s, t, d) then 1 else 0) + Through(s.procs, d)
            == Jobs(s.db.queue, d) + Through(t.procs, d)
  {
    ThroughUpdate(s.procs, i, t.procs[i], d);
    if s.procs[i].pc.Enqueue? {
      JobsAppend(s.db.queue, SyncJob(s.procs[i].pc.id, s.procs[i].discordGuildId), d);
    }
    assert FindsItThere(s, t, d) ==> s.procs[i].pc.Find? && s.procs[i].discordGuildId == d;
  }

  lemma {:induction false} JobsUpTo(states: seq<State>, n: nat, d: DiscordId)
    requires Run(states) && n < |states|
    ensures Jobs(states[n].db.queue, d) + TakeOvers(states, n, d)
            == Jobs(states[0].db.queue, d) + Through(states[n].procs, d)
  {
    if n == 0 {
      NoneThrough(states[0].procs, d);
    } else {
      JobsUpTo(states, n - 1, d);
      InvRun(states, n - 1);
      var s, t := states[n - 1], states[n];
      assert Next(s, states[n - 1 + 1]);
      if i: nat, newId: nat :| ProcessStep(s, t, i, newId) {
        JobsStep(s, t, i, newId, d);
      } else {
        var discordId, user :| LoginStep(s, t, discordId, user);
      }
    }
  }

  /** Once all processes have finished, each that ended done has queued exactly one history sync of its
      guild, except the onboarding requests whose first look-up found the guild. */
  lemma JobsAddUp(states: seq<State>, n: nat, d: DiscordId)
    requires Run(states) && n < |states| && forall k :: 0 <= k < |states[n].procs| ==> Finished(states[n].procs[k])
    ensures Jobs(states[n].db.queue, d) + TakeOvers(states, n, d)
            == Jobs(states[0].db.queue, d) + Dones(states[n].procs, d)
  {
    JobsUpTo(states, n, d);
    FinishedAreDones(states[n].procs, d);
  }
}
