/** Bringing the guild table to what Discord says: the events that mark a guild as joined or left,
    the paged list of the main bot's guilds, and the two passes of a reconciliation. */
module Reconciliation {
  import opened Options
  import opened Paging

  type GuildId = nat
  type DiscordId = nat

  datatype Status = Active | Inactive

  datatype Guild = Guild(discordGuildId: DiscordId, isBotInGuild: bool, status: Status, shardId: Option<int>)

  datatype Settings = Settings(botTokenStored: bool, botConnected: bool)

  /** A guild row with its settings row, if there is one. */
  datatype Entry = Entry(guild: Guild, settings: Option<Settings>)

  type Table = map<GuildId, Entry>

  /** What a reconciliation sees: the main bot's guilds if the list could be fetched, the guilds of
      the custom clients that logged in at the start, and which of these clients have their guild. */
  datatype View = View(listed: Option<set<DiscordId>>, custom: map<GuildId, DiscordId>, cached: set<GuildId>)

  ghost predicate UniqueDiscordIds(table: Table) {
    forall i, j :: i in table && j in table && table[i].guild.discordGuildId == table[j].guild.discordGuildId ==> i == j
  }

  /** The custom guilds come out of the guild table, so no two share a Discord id. */
  ghost predicate OneClientPerGuild(view: View) {
    forall i, j :: i in view.custom && j in view.custom && view.custom[i] == view.custom[j] ==> i == j
  }

  function Leave(e: Entry): Entry {
    Entry(e.guild.(status := Inactive, isBotInGuild := false),
          if e.settings.Some? then Some(e.settings.value.(botConnected := false)) else None)
  }

  function Join(e: Entry, shardId: int): Entry {
    Entry(e.guild.(isBotInGuild := true, shardId := Some(shardId)),
          if e.settings.Some? then Some(e.settings.value.(botConnected := true)) else None)
  }

  ghost predicate Known(table: Table, d: DiscordId) {
    exists id :: id in table && table[id].guild.discordGuildId == d
  }

  function TokenStored(e: Entry): bool {
    e.settings.Some? && e.settings.value.botTokenStored
  }

  function Saves(e: Entry): nat {
    if e.settings.Some? then 2 else 1
  }

  // ----- The list of the main bot's guilds -----

  const GUILDS_PAGE_LIMIT := 200

  datatype Reply = Page | RateLimited | AuthFailed | BadStatus

  datatype Fetched = Listed(ids: set<DiscordId>) | Failed

  function Itself(id: DiscordId): nat {
    id
  }

  function Elements(listing: seq<DiscordId>): set<DiscordId> {
    set id <- listing
  }

  lemma ElementsGrow(listing: seq<DiscordId>, n: nat, end: nat)
    requires n <= end <= |listing|
    ensures Elements(listing[..n]) + Elements(listing[n..end]) == Elements(listing[..end])
  {
    assert listing[..n] + listing[n..end] == listing[..end];
    assert forall id :: id in listing[..end] <==> id in listing[..n] || id in listing[n..end];
  }

  /** `fetchMainBotGuildIds`, from an endpoint that lists ids in increasing order: all the ids,
      however many pages there are and however often a later page is rate limited; but a rate limit on
      the very first request ends the loop with none, since `continue` goes on to test a cursor that is
      not there yet. `replies` are Discord's answers in turn; after them it serves pages. */
  method FetchMainBotGuildIds(listing: seq<DiscordId>, replies: seq<Reply>) returns (result: Fetched)
    requires Ascending(listing, Itself)
    ensures replies != [] && replies[0] == RateLimited ==> result == Listed({})
    ensures result.Listed? && (replies == [] || replies[0] != RateLimited) ==> result.ids == Elements(listing)
    ensures AuthFailed !in replies && BadStatus !in replies ==> result.Listed?
    ensures replies != [] && replies[0] in {AuthFailed, BadStatus} ==> result.Failed?
  {
    hide PageAfter, Elements, Ascending;
    var ids: set<DiscordId> := {};
    var after := None;
    var request, more := 0, true;
    ghost var n := 0;
    assert Elements(listing[..0]) == {} by {
      EmptyElements(listing);
    }
    while more
      invariant 0 <= request && 0 <= n <= |listing|
      invariant after == if n == 0 then None else Some(listing[n - 1])
      invariant ids == Elements(listing[..n])
      invariant request == 0 && replies != [] ==> n == 0 && more
      invariant more && request > 0 ==> n > 0 && (replies == [] || replies[0] == Page)
      invariant !more ==> after.None? && replies != [] && replies[0] == RateLimited
      decreases more, |replies| - request, |listing| - n
    {
      var reply := if request < |replies| then replies[request] else Page;
      request := if request < |replies| then request + 1 else request;
      if reply == AuthFailed || reply == BadStatus {
        return Failed;
      }
      if reply == RateLimited {
        more := after.Some?;
        continue;
      }
      var page := PageAfter(listing, Itself, after, GUILDS_PAGE_LIMIT);
      NextPage(listing, Itself, n, after, GUILDS_PAGE_LIMIT);
      ElementsGrow(listing, n, PageEnd(|listing|, n, GUILDS_PAGE_LIMIT));
      ids := ids + Elements(page);
      n := n + |page|;
      if |page| < GUILDS_PAGE_LIMIT {
        break;
      }
      after := Some(page[|page| - 1]);
    }
    assert listing[..|listing|] == listing;
    result := Listed(ids);
  }

  lemma EmptyElements(listing: seq<DiscordId>)
    ensures Elements(listing[..0]) == {}
  {
  }

  // ----- What a reconciliation makes of each guild -----

  function Unlisted(view: View, e: Entry): Entry
    requires view.listed.Some?
  {
    if LeavesMain(view, e) then Leave(e) else e
  }

  function NewlyListed(view: View, e: Entry): Entry
    requires view.listed.Some?
  {
    if JoinsMain(view, e) then Join(e, 0) else e
  }

  /** The pass over the main bot's guilds. */
  function MainPass(view: View, e: Entry): Entry {
    if view.listed.None? then e else NewlyListed(view, Unlisted(view, e))
  }

  predicate LeavesMain(view: View, e: Entry)
    requires view.listed.Some?
  {
    && e.guild.isBotInGuild && !TokenStored(e)
    && e.guild.discordGuildId !in view.custom.Values && e.guild.discordGuildId !in view.listed.value
  }

  predicate JoinsMain(view: View, e: Entry)
    requires view.listed.Some?
  {
    && !e.guild.isBotInGuild
    && e.guild.discordGuildId !in view.custom.Values && e.guild.discordGuildId in view.listed.value
  }

  /** The pass over one guild of the custom clients. */
  function CustomPass(inCache: bool, e: Entry): Entry {
    if !inCache && e.guild.isBotInGuild then Leave(e)
    else if inCache && !e.guild.isBotInGuild then Join(e, 0)
    else e
  }

  /** The Discord ids of custom guilds that their client has. */
  function CachedIds(view: View): set<DiscordId> {
    set c | c in view.custom && c in view.cached :: view.custom[c]
  }

  function MainReconciled(table: Table, view: View): Table {
    map id | id in table :: MainPass(view, table[id])
  }

  function CustomReconciled(table: Table, view: View, done: set<DiscordId>): Table {
    map id | id in table ::
      var d := table[id].guild.discordGuildId;
      if d in done then CustomPass(d in CachedIds(view), table[id]) else table[id]
  }

  function WithCustomPass(table: Table, d: DiscordId, inCache: bool): Table {
    map id | id in table :: if table[id].guild.discordGuildId == d then CustomPass(inCache, table[id]) else table[id]
  }

  function Reconciled(table: Table, view: View): Table {
    CustomReconciled(MainReconciled(table, view), view, view.custom.Values)
  }

  function OnCreated(table: Table, d: DiscordId, shardId: int): Table {
    map id | id in table :: if table[id].guild.discordGuildId == d then Join(table[id], shardId) else table[id]
  }

  function OnDeleted(table: Table, d: DiscordId): Table {
    map id | id in table :: if table[id].guild.discordGuildId == d then Leave(table[id]) else table[id]
  }

  /** An entry with exactly this guild row, and the settings row of before, if there was one, with the
      connection flag set so. */
  predicate IsRow(e: Entry, guild: Guild, before: Option<Settings>, connected: bool) {
    && e.guild == guild && (e.settings.Some? <==> before.Some?)
    && (e.settings.Some? ==> e.settings.value == Settings(before.value.botTokenStored, connected))
  }

  /** The two tables, and the number of `save` calls made on them. */
  class GuildTables {
    var table: Table
    var saves: nat

    constructor (table: Table)
      ensures this.table == table && saves == 0
    {
      this.table := table;
      saves := 0;
    }

    /** `syncOnGuildDelete`. */
    method OnGuildDelete(d: DiscordId)
      requires UniqueDiscordIds(table)
      modifies this
      ensures table == OnDeleted(old(table), d) && table.Keys == old(table).Keys
      ensures forall id <- table :: var e := old(table)[id];
                if e.guild.discordGuildId != d then table[id] == e
                else IsRow(table[id], Guild(d, false, Inactive, e.guild.shardId), e.settings, false)
      ensures saves >= old(saves) && (saves > old(saves) <==> Known(old(table), d))
    {
      if id :| id in table && table[id].guild.discordGuildId == d {
        saves := saves + Saves(table[id]);
        table := table[id := Leave(table[id])];
      }
    }

    /** `syncOnGuildCreate`. */
    method OnGuildCreate(d: DiscordId, shardId: int)
      requires UniqueDiscordIds(table)
      modifies this
      ensures table == OnCreated(old(table), d, shardId) && table.Keys == old(table).Keys
      ensures forall id <- table :: var e := old(table)[id];
                if e.guild.discordGuildId != d then table[id] == e
                else IsRow(table[id], Guild(d, true, e.guild.status, Some(shardId)), e.settings, true)
      ensures saves >= old(saves) && (saves > old(saves) <==> Known(old(table), d))
    {
      if id :| id in table && table[id].guild.discordGuildId == d {
        saves := saves + Saves(table[id]);
        table := table[id := Join(table[id], shardId)];
      }
    }

    /** `reconcileMainBot` once the list is there. */
    method ReconcileMainBot(view: View)
      requires UniqueDiscordIds(table)
      modifies this
      ensures table == MainReconciled(old(table), view)
      ensures saves >= old(saves) && (saves > old(saves) <==> table != old(table))
    {
      if view.listed.Some? {
        MarkUnlisted(view);
        MarkListed(view);
      }
    }

    /** Its first loop: guilds are looked up first, then marked as left one by one. */
    method MarkUnlisted(view: View)
      requires UniqueDiscordIds(table) && view.listed.Some?
      modifies this
      ensures table.Keys == old(table).Keys
      ensures forall id <- table :: table[id] == Unlisted(view, old(table)[id])
      ensures saves >= old(saves) && (saves > old(saves) <==> table != old(table))
    {
      ghost var before := table;
      var guilds := set id | id in table && table[id].guild.isBotInGuild && !TokenStored(table[id]);
      while guilds != {}
        invariant table.Keys == before.Keys && guilds <= before.Keys
        invariant forall id <- guilds :: before[id].guild.isBotInGuild && !TokenStored(before[id])
        invariant forall id <- table :: table[id] == if id in guilds then before[id] else Unlisted(view, before[id])
        invariant saves >= old(saves) && (saves > old(saves) <==> table != before)
        decreases guilds
      {
        var id :| id in guilds;
        var d := table[id].guild.discordGuildId;
        if d !in view.custom.Values && d !in view.listed.value {
          OnGuildDelete(d);
          assert table[id] != before[id];
        }
        guilds := guilds - {id};
      }
    }

    /** Its second loop: listed guilds are looked up one by one and marked as joined. */
    method MarkListed(view: View)
      requires UniqueDiscordIds(table) && view.listed.Some?
      modifies this
      ensures table.Keys == old(table).Keys
      ensures forall id <- table :: table[id] == NewlyListed(view, old(table)[id])
      ensures saves >= old(saves) && (saves > old(saves) <==> table != old(table))
    {
      ghost var before := table;
      var toSee := view.listed.value;
      while toSee != {}
        invariant table.Keys == before.Keys && toSee <= view.listed.value
        invariant forall id <- table :: table[id] ==
                    if before[id].guild.discordGuildId in toSee then before[id] else NewlyListed(view, before[id])
        invariant saves >= old(saves) && (saves > old(saves) <==> table != before)
        decreases toSee
      {
        var d :| d in toSee;
        if d !in view.custom.Values {
          if id :| id in table && table[id].guild.discordGuildId == d {
            if !table[id].guild.isBotInGuild {
              OnGuildCreate(d, 0);
              assert table[id] != before[id];
            }
          }
        }
        toSee := toSee - {d};
      }
    }

    /** One round of the loop of `reconcileCustomTokens`. */
    method ReconcileCustomGuild(d: DiscordId, inCache: bool)
      requires UniqueDiscordIds(table)
      modifies this
      ensures table == WithCustomPass(old(table), d, inCache)
      ensures saves >= old(saves) && (saves > old(saves) <==> table != old(table))
    {
      ghost var before := table;
      if id :| id in table && table[id].guild.discordGuildId == d {
        if !inCache {
          if table[id].guild.isBotInGuild {
            OnGuildDelete(d);
            assert table[id] != before[id];
          }
        } else {
          if !table[id].guild.isBotInGuild {
            OnGuildCreate(d, 0);
            assert table[id] != before[id];
          }
        }
      }
    }

    /** `reconcileCustomTokens`. */
    method ReconcileCustomTokens(view: View)
      requires UniqueDiscordIds(table) && OneClientPerGuild(view)
      modifies this
      ensures table == CustomReconciled(old(table), view, view.custom.Values)
      ensures saves >= old(saves) && (saves > old(saves) <==> table != old(table))
    {
      ghost var before := table;
      var clients := view.custom.Keys;
      while clients != {}
        invariant clients <= view.custom.Keys && UniqueDiscordIds(table)
        invariant table == CustomReconciled(before, view, IdsOf(view, view.custom.Keys - clients))
        invariant saves >= old(saves) && (saves > old(saves) <==> table != before)
        decreases clients
      {
        var c :| c in clients;
        ghost var done := IdsOf(view, view.custom.Keys - clients);
        CachedByOwnClient(view, c);
        IdsOfOneMore(view, clients, c);
        OneMoreClient(before, view, done, view.custom[c]);
        ReconcileCustomGuild(view.custom[c], c in view.cached);
        clients := clients - {c};
      }
      assert view.custom.Keys - clients == view.custom.Keys;
      IdsOfAll(view);
    }

    /** `reconcile`: the main bot's guilds, then the custom clients'. A run that leaves the tables
        as they are has not written. */
    method Reconcile(view: View)
      requires UniqueDiscordIds(table) && OneClientPerGuild(view)
      modifies this
      ensures table == Reconciled(old(table), view)
      ensures saves > old(saves) <==> table != old(table)
    {
      ReconcileMainBot(view);
      ghost var between := table;
      ReconcileCustomTokens(view);
      PassesDoNotUndo(old(table), view);
    }
  }

  /** The Discord ids of some custom guilds. */
  ghost function IdsOf(view: View, clients: set<GuildId>): set<DiscordId> {
    set c | c in clients && c in view.custom :: view.custom[c]
  }

  lemma IdsOfAll(view: View)
    ensures IdsOf(view, view.custom.Keys) == view.custom.Values
  {
  }

  lemma IdsOfOneMore(view: View, clients: set<GuildId>, c: GuildId)
    requires OneClientPerGuild(view) && c in clients && clients <= view.custom.Keys
    ensures view.custom[c] !in IdsOf(view, view.custom.Keys - clients)
    ensures IdsOf(view, view.custom.Keys - (clients - {c}))
            == IdsOf(view, view.custom.Keys - clients) + {view.custom[c]}
  {
  }

  /** A further custom guild changes its own row only, and no pass takes back another's change. */
  lemma OneMoreClient(table: Table, view: View, done: set<DiscordId>, d: DiscordId)
    requires d !in done
    ensures var sofar := CustomReconciled(table, view, done);
            && CustomReconciled(table, view, done + {d}) == WithCustomPass(sofar, d, d in CachedIds(view))
            && (sofar != table ==> CustomReconciled(table, view, done + {d}) != table)
  {
    hide CachedIds;
    var sofar, next := CustomReconciled(table, view, done), CustomReconciled(table, view, done + {d});
    if sofar != table {
      var id :| id in table && sofar[id] != table[id];
      assert next[id] == sofar[id];
    }
  }

  lemma CachedByOwnClient(view: View, c: GuildId)
    requires OneClientPerGuild(view) && c in view.custom
    ensures view.custom[c] in CachedIds(view) <==> c in view.cached
  {
  }

  /** The two passes never change the same guild, so that the second does not hide the first. */
  lemma PassesDoNotUndo(table: Table, view: View)
    ensures Reconciled(table, view) == table ==> MainReconciled(table, view) == table
  {
    forall id <- table
      ensures Reconciled(table, view)[id] == table[id] ==> MainPass(view, table[id]) == table[id]
    {
    }
  }

  // ----- What holds after a reconciliation -----

  /** Some custom client that is logged in serves this guild. */
  predicate Custom(view: View, d: DiscordId) {
    exists c :: c in view.custom && view.custom[c] == d
  }

  /** Some such client has the guild in its cache. */
  predicate Cached(view: View, d: DiscordId) {
    exists c :: c in view.custom && view.custom[c] == d && c in view.cached
  }

  /** Every guild agrees with the view: one of a custom client with that client's cache, any other
      with the list, except that an unlisted one whose token is stored keeps what it had. */
  lemma AgreesWithView(table: Table, view: View, id: GuildId)
    requires id in table && view.listed.Some?
    ensures var before, after := table[id], Reconciled(table, view)[id]; var d := before.guild.discordGuildId;
            after.guild.isBotInGuild <==>
              if Custom(view, d) then Cached(view, d)
              else
                || d in view.listed.value
                || (before.settings.Some? && before.settings.value.botTokenStored && before.guild.isBotInGuild)
  {
    assert Custom(view, table[id].guild.discordGuildId) <==> table[id].guild.discordGuildId in view.custom.Values;
  }

  /** Without a list, the guilds of custom clients still come to agree and no other changes. */
  lemma AgreesWithoutList(table: Table, view: View, id: GuildId)
    requires id in table && view.listed.None?
    ensures var before, after := table[id], Reconciled(table, view)[id]; var d := before.guild.discordGuildId;
            if Custom(view, d) then (after.guild.isBotInGuild <==> Cached(view, d)) else after == before
  {
    assert Custom(view, table[id].guild.discordGuildId) <==> table[id].guild.discordGuildId in view.custom.Values;
  }

  /** What a reconciliation makes of each row: one whose flag it does not change stays as it is, one
      that comes back joins on shard 0 with its status, one that goes is inactive and keeps its shard. */
  lemma ChangesOnlyWithFlag(table: Table, view: View, id: GuildId)
    requires id in table
    ensures var before, after := table[id], Reconciled(table, view)[id]; var g := before.guild;
            if after.guild.isBotInGuild == g.isBotInGuild then after == before
            else if g.isBotInGuild
              then IsRow(after, Guild(g.discordGuildId, false, Inactive, g.shardId), before.settings, false)
              else IsRow(after, Guild(g.discordGuildId, true, g.status, Some(0)), before.settings, true)
  {
  }

  lemma SecondRunChangesNothing(table: Table, view: View)
    ensures Reconciled(Reconciled(table, view), view) == Reconciled(table, view)
  {
    var once := Reconciled(table, view);
    forall id <- once
      ensures Reconciled(once, view)[id] == once[id]
    {
      ChangesOnlyWithFlag(table, view, id);
      ChangesOnlyWithFlag(once, view, id);
      if view.listed.Some? {
        AgreesWithView(table, view, id);
        AgreesWithView(once, view, id);
      } else {
        AgreesWithoutList(table, view, id);
        AgreesWithoutList(once, view, id);
      }
    }
  }

  // ----- A rate limit on the first page -----

  /** The main bot's own guilds: no live custom client, no stored token. */
  predicate MainBotOnly(view: View, e: Entry) {
    e.guild.discordGuildId !in view.custom.Values && !TokenStored(e)
  }

  ghost predicate AgreesWithListing(table: Table, view: View, listing: seq<DiscordId>) {
    forall id :: id in table && MainBotOnly(view, table[id]) ==>
      (table[id].guild.isBotInGuild <==> table[id].guild.discordGuildId in listing)
  }

  /** With the list fetched in full, the main bot's guilds agree with what Discord lists. When the
      first request was rate limited the list is empty, and they agree only if none of them is
      listed: every guild that the bot is still in is marked as left. */
  lemma AgreementNeedsFirstPage(table: Table, view: View, listing: seq<DiscordId>, replies: seq<Reply>)
    requires view.listed == Some(if replies != [] && replies[0] == RateLimited then {} else Elements(listing))
    ensures AgreesWithListing(Reconciled(table, view), view, listing)
            <==> (replies == [] || replies[0] != RateLimited
                  || forall id :: id in table && MainBotOnly(view, table[id]) ==>
                                    table[id].guild.discordGuildId !in listing)
  {
    var after := Reconciled(table, view);
    forall id <- table
      ensures MainBotOnly(view, after[id]) == MainBotOnly(view, table[id])
      ensures MainBotOnly(view, table[id]) ==>
                (after[id].guild.isBotInGuild <==> table[id].guild.discordGuildId in view.listed.value)
      ensures after[id].guild.discordGuildId == table[id].guild.discordGuildId
    {
      AgreesWithView(table, view, id);
      ChangesOnlyWithFlag(table, view, id);
    }
    assert forall d :: d in Elements(listing) <==> d in listing;
    if AgreesWithListing(after, view, listing) && replies != [] && replies[0] == RateLimited {
      forall id | id in table && MainBotOnly(view, table[id])
        ensures table[id].guild.discordGuildId !in listing
      {
        assert id in after && MainBotOnly(view, after[id]);
      }
    }
  }

  // ----- The status of a guild that comes back -----

  datatype Event = Created(d: DiscordId, shardId: int) | Deleted(d: DiscordId) | Reconciliation(view: View)

  function Apply(table: Table, event: Event): Table {
    match event
    case Created(d, shardId) => OnCreated(table, d, shardId)
    case Deleted(d) => OnDeleted(table, d)
    case Reconciliation(view) => Reconciled(table, view)
  }

  function Run(table: Table, events: seq<Event>): Table {
    if events == [] then table else Apply(Run(table, events[..|events| - 1]), events[|events| - 1])
  }

  /** An event marks the guild as left: it is a delete, or a reconciliation that clears the flag. */
  predicate MarksLeft(table: Table, event: Event, id: GuildId) {
    id in table &&
    match event
    case Created(d, shardId) => false
    case Deleted(d) => table[id].guild.discordGuildId == d
    case Reconciliation(view) => table[id].guild.isBotInGuild && !Reconciled(table, view)[id].guild.isBotInGuild
  }

  predicate EverLeft(table: Table, events: seq<Event>, id: GuildId) {
    if events == [] then false
    else
      var before := events[..|events| - 1];
      EverLeft(table, before, id) || MarksLeft(Run(table, before), events[|events| - 1], id)
  }

  /** A guild is active after a run exactly if it was at the start and was never marked as left: no
      event restores the status when the bot comes back. */
  lemma {:induction false} StatusIsNeverRestored(table: Table, events: seq<Event>, id: GuildId)
    requires id in table
    ensures id in Run(table, events)
    ensures Run(table, events)[id].guild.status.Active?
            <==> table[id].guild.status.Active? && !EverLeft(table, events, id)
    decreases |events|
  {
    if events != [] {
      StatusIsNeverRestored(table, events[..|events| - 1], id);
    }
  }

  /** A bot that leaves and comes back is in the guild, and the guild stays inactive. */
  lemma RejoinedStaysInactive(table: Table, id: GuildId, shardId: int)
    requires id in table
    ensures var d := table[id].guild.discordGuildId;
            var after := Run(table, [Deleted(d), Created(d, shardId)]);
            id in after && after[id].guild.isBotInGuild && after[id].guild.status.Inactive?
  {
    var d := table[id].guild.discordGuildId;
    var events := [Deleted(d), Created(d, shardId)];
    assert events[..1] == [Deleted(d)] && events[..1][..0] == [];
    assert Run(table, events[..1]) == OnDeleted(table, d);
  }
}
