/** History sync: page through each channel's messages, leave out those already stored, and insert
    the rest in chunks that keep to one week each. */
module HistorySync {
  import opened Calendar
  import opened Options

  const MESSAGES_LIMIT_PER_REQUEST := 100
  const CLICKHOUSE_INSERT_CHUNK_SIZE := 10000

  datatype Result<+T> = Ok(value: T) | Failed

  /** A message, and the event made of it: its id and the day of its timestamp. */
  datatype Message = Message(id: nat, day: Day)

  // ----- Paging -----

  /** How Discord answers one request. */
  datatype Reply = Page | RateLimited | Denied | ServerError

  /** A channel lists its messages newest first. */
  ghost predicate Descending(channel: seq<Message>) {
    forall j, k :: 0 <= j < k < |channel| ==> channel[j].id > channel[k].id
  }

  /** The messages older than the cursor. */
  function Older(channel: seq<Message>, before: Option<nat>): seq<Message> {
    if channel == [] || before.None? || channel[0].id < before.value then channel
    else Older(channel[1..], before)
  }

  /** One page of the endpoint. */
  function PageOf(channel: seq<Message>, before: Option<nat>, limit: nat): seq<Message> {
    var older := Older(channel, before);
    if |older| <= limit then older else older[..limit]
  }

  function Wanted(channel: seq<Message>, scanDepth: int): nat {
    if scanDepth <= 0 then 0 else if scanDepth < |channel| then scanDepth else |channel|
  }

  lemma {:induction false} OlderIsRest(channel: seq<Message>, n: nat)
    requires Descending(channel) && 0 < n <= |channel|
    ensures Older(channel, Some(channel[n - 1].id)) == channel[n..]
    decreases n
  {
    if n > 1 {
      OlderIsRest(channel[1..], n - 1);
      assert channel[1..][n - 2] == channel[n - 1];
      assert channel[1..][n - 1..] == channel[n..];
    } else if |channel| > 1 {
      assert channel[1..][0].id < channel[0].id;
    }
  }

  /** The page after n messages is the next stretch of the channel. */
  lemma NextPage(channel: seq<Message>, n: nat, before: Option<nat>, limit: nat)
    requires Descending(channel) && n <= |channel|
    requires before == if n == 0 then None else Some(channel[n - 1].id)
    ensures var page := PageOf(channel, before, limit);
            && |page| == (if n + limit < |channel| then limit else |channel| - n)
            && channel[..n] + page == channel[..n + |page|]
            && (page != [] ==> page[|page| - 1] == channel[n + |page| - 1])
  {
    if n > 0 {
      OlderIsRest(channel, n);
    }
  }

  /** Discord's answers without the rate limits: how many pages come before the first refusal, and which
      refusal that is, if any. */
  function FirstRefusal(replies: seq<Reply>): (nat, Option<Reply>) {
    if replies == [] then (0, None)
    else
      var (pages, refusal) := FirstRefusal(replies[1..]);
      match replies[0]
      case Page => (pages + 1, refusal)
      case RateLimited => (pages, refusal)
      case Denied => (0, Some(Denied))
      case ServerError => (0, Some(ServerError))
  }

  /** How many pages it takes: one for each begun hundred of the scan depth, or, if the channel ends
      before it, all the full ones and one that is short or empty. */
  function PagesNeeded(length: nat, scanDepth: int): nat {
    if scanDepth <= 0 then 0 else if scanDepth <= length then (scanDepth + 99) / 100 else length / 100 + 1
  }

  function First(channel: seq<Message>, n: nat): seq<Message> {
    if n < |channel| then channel[..n] else channel
  }

  /** What comes out by the answers: everything wanted if no refusal comes before the pages it takes; the
      hundreds before it if the channel is denied; and a failure at any other error. */
  function Outcome(channel: seq<Message>, scanDepth: int, replies: seq<Reply>): Result<seq<Message>> {
    var (pages, refusal) := FirstRefusal(replies);
    if refusal.None? || pages >= PagesNeeded(|channel|, scanDepth) then Ok(channel[..Wanted(channel, scanDepth)])
    else if refusal.value == Denied then Ok(First(channel, 100 * pages))
    else Failed
  }

  /** `fetchMessagesForChannel`: exactly what the answers allow. `replies` are Discord's answers to the
      requests in turn; after them it serves pages. */
  method FetchMessagesForChannel(channel: seq<Message>, scanDepth: int, replies: seq<Reply>)
    returns (result: Result<seq<Message>>)
    requires Descending(channel)
    ensures result == Outcome(channel, scanDepth, replies)
  {
    hide PageOf, Descending, Outcome, FirstRefusal, Counted, Ended, Progress;
    CountNone(replies);
    ProgressStarts(channel, scanDepth);
    var events: seq<Message> := [];
    var before := None;
    var fetched := 0;
    var request := 0;
    ghost var pages := 0;
    while fetched < scanDepth
      invariant 0 <= request <= |replies| && 0 <= fetched
      invariant Counted(replies, request, pages) && Progress(channel, scanDepth, events, before, fetched, pages)
      invariant fetched >= scanDepth ==> Ended(channel, scanDepth, events, fetched, pages)
      decreases |replies| - request, scanDepth - fetched
    {
      var wanted := scanDepth - fetched;
      var limit := if MESSAGES_LIMIT_PER_REQUEST < wanted then MESSAGES_LIMIT_PER_REQUEST else wanted;
      var reply := if request < |replies| then replies[request] else Page;
      CountReply(replies, request, pages);
      request := if request < |replies| then request + 1 else request;
      if reply == RateLimited {
        continue;
      }
      if reply == Denied || reply == ServerError {
        OutcomeOfRefusal(channel, scanDepth, replies, events, before, fetched, pages, reply);
        return if reply == Denied then Ok(events) else Failed;
      }
      var messages := PageOf(channel, before, limit);
      ProgressByPage(channel, scanDepth, events, before, fetched, pages, limit);
      pages := pages + 1;
      if |messages| == 0 {
        assert events + messages == events;
        break;
      }
      events := events + messages;
      before := Some(messages[|messages| - 1].id);
      fetched := fetched + |messages|;
      if |messages| < limit {
        break;
      }
    }
    OutcomeOfPages(channel, scanDepth, replies, request, events, fetched, pages);
    result := Ok(events);
  }

  /** Where the loop is after so many pages: all of them full, or the paging ended. */
  ghost predicate Progress(channel: seq<Message>, scanDepth: int, events: seq<Message>, before: Option<nat>,
                           fetched: nat, pages: nat) {
    && fetched <= |channel| && events == channel[..fetched]
    && before == (if fetched == 0 then None else Some(channel[fetched - 1].id))
    && if fetched < scanDepth then fetched == 100 * pages else Ended(channel, scanDepth, events, fetched, pages)
  }

  /** The paging has ended with everything wanted, after no fewer pages than that takes. */
  ghost predicate Ended(channel: seq<Message>, scanDepth: int, events: seq<Message>, fetched: nat, pages: nat) {
    fetched <= |channel| && events == channel[..fetched] && EndsThere(|channel|, scanDepth, fetched, pages)
  }

  lemma ProgressStarts(channel: seq<Message>, scanDepth: int)
    ensures Progress(channel, scanDepth, [], None, 0, 0)
    ensures scanDepth <= 0 ==> Ended(channel, scanDepth, [], 0, 0)
  {
    NothingWanted(|channel|, scanDepth);
  }

  /** A page brings the next stretch; if it is short the channel has ended. */
  lemma ProgressByPage(channel: seq<Message>, scanDepth: int, events: seq<Message>, before: Option<nat>,
                       fetched: nat, pages: nat, limit: nat)
    requires Descending(channel) && Progress(channel, scanDepth, events, before, fetched, pages) && fetched < scanDepth
    requires limit == if 100 < scanDepth - fetched then 100 else scanDepth - fetched
    ensures var page := PageOf(channel, before, limit);
            && |page| <= limit && limit > 0
            && (|page| < limit || fetched + |page| >= scanDepth ==>
                  Ended(channel, scanDepth, events + page, fetched + |page|, pages + 1))
            && (|page| == limit ==>
                  Progress(channel, scanDepth, events + page, Some(page[|page| - 1].id), fetched + |page|, pages + 1))
  {
    hide PageOf, Descending, EndsThere;
    NextPage(channel, fetched, before, limit);
    LastPage(|channel|, scanDepth, fetched, |PageOf(channel, before, limit)|, pages + 1);
  }

  /** So many pages have been served by the answers so far. */
  ghost predicate Counted(replies: seq<Reply>, request: nat, pages: nat)
    requires request <= |replies|
  {
    var (total, refusal) := FirstRefusal(replies);
    var (rest, same) := FirstRefusal(replies[request..]);
    refusal == same && (total == pages + rest || (request == |replies| && refusal.None? && total <= pages))
  }

  lemma CountNone(replies: seq<Reply>)
    ensures Counted(replies, 0, 0)
  {
    assert replies[0..] == replies;
  }

  lemma CountReply(replies: seq<Reply>, request: nat, pages: nat)
    requires request <= |replies| && Counted(replies, request, pages)
    ensures request == |replies| ==> FirstRefusal(replies).1.None? && Counted(replies, request, pages + 1)
    ensures request < |replies| && replies[request].Page? ==> Counted(replies, request + 1, pages + 1)
    ensures request < |replies| && replies[request].RateLimited? ==> Counted(replies, request + 1, pages)
    ensures request < |replies| && (replies[request].Denied? || replies[request].ServerError?) ==>
              FirstRefusal(replies) == (pages, Some(replies[request]))
  {
    if request < |replies| {
      assert replies[request..][1..] == replies[request + 1..];
    }
  }

  /** The loop ends with these pages, having fetched what is wanted. */
  predicate EndsThere(length: nat, scanDepth: int, fetched: nat, pages: nat) {
    && pages >= PagesNeeded(length, scanDepth)
    && if scanDepth <= 0 then fetched == 0 else if scanDepth <= length then fetched == scanDepth else fetched == length
  }

  lemma NothingWanted(length: nat, scanDepth: int)
    ensures scanDepth <= 0 ==> EndsThere(length, scanDepth, 0, 0)
  {
  }

  lemma RefusedEarly(length: nat, scanDepth: int, pages: nat)
    requires 100 * pages <= length && 100 * pages < scanDepth
    ensures pages < PagesNeeded(length, scanDepth)
  {
  }

  lemma LastPage(length: nat, scanDepth: int, fetched: nat, got: nat, pages: nat)
    requires pages > 0 && fetched == 100 * (pages - 1) && fetched <= length && fetched < scanDepth
    requires var wanted := scanDepth - fetched; var limit := if 100 < wanted then 100 else wanted;
             got == if fetched + limit < length then limit else length - fetched
    ensures var wanted := scanDepth - fetched; var limit := if 100 < wanted then 100 else wanted;
            if got < limit || fetched + got == scanDepth then EndsThere(length, scanDepth, fetched + got, pages)
            else fetched + got == 100 * pages < scanDepth
  {
  }

  lemma OutcomeOfRefusal(channel: seq<Message>, scanDepth: int, replies: seq<Reply>, events: seq<Message>,
                         before: Option<nat>, fetched: nat, pages: nat, refusal: Reply)
    requires FirstRefusal(replies) == (pages, Some(refusal)) && refusal in {Denied, ServerError}
    requires Progress(channel, scanDepth, events, before, fetched, pages) && fetched < scanDepth
    ensures Outcome(channel, scanDepth, replies) == if refusal == Denied then Ok(events) else Failed
  {
    RefusedEarly(|channel|, scanDepth, pages);
    assert 100 * pages == |channel| ==> channel[..100 * pages] == channel;
  }

  lemma OutcomeOfPages(channel: seq<Message>, scanDepth: int, replies: seq<Reply>, request: nat,
                       events: seq<Message>, fetched: nat, pages: nat)
    requires request <= |replies| && Counted(replies, request, pages)
    requires Ended(channel, scanDepth, events, fetched, pages)
    ensures Outcome(channel, scanDepth, replies) == Ok(events)
  {
    hide PagesNeeded;
    assert FirstRefusal(replies).1.None? || FirstRefusal(replies).0 >= pages;
    assert fetched == Wanted(channel, scanDepth);
  }

  lemma {:induction false} FirstRefusalAt(replies: seq<Reply>, i: nat)
    requires i <= |replies| && forall j :: 0 <= j < i ==> replies[j] in {Page, RateLimited}
    requires i < |replies| ==> replies[i] in {Denied, ServerError}
    ensures FirstRefusal(replies)
            == (multiset(replies[..i])[Page], if i < |replies| then Some(replies[i]) else None)
    decreases i
  {
    if i > 0 {
      assert forall j :: 0 <= j < i - 1 ==> replies[1..][j] == replies[j + 1];
      FirstRefusalAt(replies[1..], i - 1);
      assert replies[..i] == [replies[0]] + replies[1..][..i - 1];
    }
  }

  lemma PagesSuffice(length: nat, scanDepth: int, pages: nat)
    ensures pages >= PagesNeeded(length, scanDepth) <==> 100 * pages >= scanDepth || 100 * pages > length
  {
  }

  /** What comes out, by the first answer that is neither a page nor a rate limit, or by the end of the
      answers, and the number of pages before it. */
  lemma OutcomeExactly(channel: seq<Message>, scanDepth: int, replies: seq<Reply>, i: nat)
    requires i <= |replies| && forall j :: 0 <= j < i ==> replies[j] in {Page, RateLimited}
    requires i < |replies| ==> replies[i] in {Denied, ServerError}
    ensures var pages, result := multiset(replies[..i])[Page], Outcome(channel, scanDepth, replies);
            if i == |replies| || 100 * pages >= scanDepth || 100 * pages > |channel| then
              result == Ok(channel[..if scanDepth <= 0 then 0
                                     else if scanDepth < |channel| then scanDepth else |channel|])
            else if replies[i] == Denied then result == Ok(channel[..100 * pages])
            else result == Failed
  {
    FirstRefusalAt(replies, i);
    PagesSuffice(|channel|, scanDepth, multiset(replies[..i])[Page]);
    assert channel[..|channel|] == channel;
  }

  /** Whatever the answers, what comes out are the first messages in order; and all that are wanted,
      min(scanDepth, length), if Discord answers with pages and rate limits only. */
  lemma OutcomeIsPrefix(channel: seq<Message>, scanDepth: int, replies: seq<Reply>)
    ensures var result := Outcome(channel, scanDepth, replies);
            && (result.Failed? ==> ServerError in replies)
            && (result.Ok? ==> result.value <= channel[..Wanted(channel, scanDepth)])
            && (ServerError !in replies && Denied !in replies ==>
                  result == Ok(channel[..Wanted(channel, scanDepth)]))
  {
    RefusalIsReply(replies);
    var (pages, refusal) := FirstRefusal(replies);
    if refusal.Some? && pages < PagesNeeded(|channel|, scanDepth) {
      HundredsAreWanted(|channel|, scanDepth, pages);
    }
  }

  lemma {:induction false} RefusalIsReply(replies: seq<Reply>)
    ensures var refusal := FirstRefusal(replies).1;
            refusal.Some? ==> refusal.value in replies && refusal.value in {Denied, ServerError}
  {
    if replies != [] {
      RefusalIsReply(replies[1..]);
    }
  }

  lemma HundredsAreWanted(length: nat, scanDepth: int, pages: nat)
    requires pages < PagesNeeded(length, scanDepth)
    ensures 100 * pages <= length && 100 * pages < scanDepth
  {
  }

  // ----- Leaving out what is stored -----

  function Flatten(parts: seq<seq<Message>>): seq<Message> {
    if parts == [] then [] else Flatten(parts[..|parts| - 1]) + parts[|parts| - 1]
  }

  function Ids(events: seq<Message>): set<nat> {
    set m <- events :: m.id
  }

  /** The events whose id is neither known nor that of an earlier event. */
  function NewOnes(events: seq<Message>, known: set<nat>): seq<Message> {
    if events == [] then []
    else
      var before := NewOnes(events[..|events| - 1], known);
      var e := events[|events| - 1];
      if e.id in known || e.id in Ids(before) then before else before + [e]
  }

  ghost predicate DistinctIds(events: seq<Message>) {
    forall j, k :: 0 <= j < k < |events| ==> events[j].id != events[k].id
  }

  /** The loop of `run` over the channels' events, with the set of known ids growing along. */
  method CollectNew(channels: seq<seq<Message>>, known: set<nat>) returns (events: seq<Message>)
    ensures events == NewOnes(Flatten(channels), known)
  {
    events := [];
    var existing := known;
    var c := 0;
    while c < |channels|
      invariant 0 <= c <= |channels|
      invariant events == NewOnes(Flatten(channels[..c]), known)
      invariant existing == known + Ids(events)
    {
      assert channels[..c + 1][..c] == channels[..c];
      events, existing := CollectFromChannel(Flatten(channels[..c]), channels[c], known, events, existing);
      c := c + 1;
    }
    assert channels[..c] == channels;
  }

  method CollectFromChannel(ghost read: seq<Message>, channelEvents: seq<Message>, ghost known: set<nat>,
                            collected: seq<Message>, seen: set<nat>)
    returns (events: seq<Message>, existing: set<nat>)
    requires collected == NewOnes(read, known) && seen == known + Ids(collected)
    ensures events == NewOnes(read + channelEvents, known) && existing == known + Ids(events)
  {
    hide NewOnes, Ids;
    events, existing := collected, seen;
    var i := 0;
    assert read + channelEvents[..0] == read;
    while i < |channelEvents|
      invariant 0 <= i <= |channelEvents|
      invariant events == NewOnes(read + channelEvents[..i], known)
      invariant existing == known + Ids(events)
    {
      var e := channelEvents[i];
      NewOnesStep(read + channelEvents[..i], e, known);
      assert read + channelEvents[..i + 1] == read + channelEvents[..i] + [e];
      IdsAppend(events, e);
      if e.id !in existing {
        existing := existing + {e.id};
        events := events + [e];
      }
      i := i + 1;
    }
    assert channelEvents[..i] == channelEvents;
  }

  lemma NewOnesStep(read: seq<Message>, e: Message, known: set<nat>)
    ensures var before := NewOnes(read, known);
            NewOnes(read + [e], known) == if e.id in known || e.id in Ids(before) then before else before + [e]
  {
    assert (read + [e])[..|read|] == read;
  }

  lemma IdsAppend(events: seq<Message>, e: Message)
    ensures Ids(events + [e]) == Ids(events) + {e.id}
  {
    assert forall m :: m in events + [e] <==> m in events || m == e;
  }

  /** Reading on from some messages: what is new then are those whose ids are not known and have not been
      read; and of one message, it is new exactly if its id is not known. */
  lemma {:induction false} NewOnesContinue(a: seq<Message>, b: seq<Message>, known: set<nat>)
    ensures NewOnes(a + b, known) == NewOnes(a, known) + NewOnes(b, known + Ids(a))
    decreases |b|
  {
    if b == [] {
      assert a + b == a;
    } else {
      var front, e := b[..|b| - 1], b[|b| - 1];
      assert a + b == (a + front) + [e] && b == front + [e];
      NewOnesContinue(a, front, known);
      NewOnesStep(a + front, e, known);
      NewOnesStep(front, e, known + Ids(a));
      NewOnesSound(a + front, known);
      NewOnesSound(front, known + Ids(a));
      IdsConcat(a, front);
    }
  }

  lemma IdsConcat(a: seq<Message>, b: seq<Message>)
    ensures Ids(a + b) == Ids(a) + Ids(b)
  {
    assert forall m :: m in a + b <==> m in a || m in b;
  }

  lemma NewOnesOfOne(e: Message, known: set<nat>)
    ensures NewOnes([e], known) == if e.id in known then [] else [e]
  {
    assert [e][..0] == [];
  }

  lemma KeepOrLeave(before: seq<Message>, e: Message, known: set<nat>, read: set<nat>)
    requires DistinctIds(before) && Ids(before) == read - known
    ensures var after := if e.id in known || e.id in Ids(before) then before else before + [e];
            DistinctIds(after) && Ids(after) == read + {e.id} - known
  {
    IdsAppend(before, e);
    if e.id !in Ids(before) {
      DistinctAppend(before, e);
    }
  }

  /** What is collected: no id twice, no known id, and every other id. */
  lemma {:induction false} NewOnesSound(events: seq<Message>, known: set<nat>)
    ensures DistinctIds(NewOnes(events, known))
    ensures Ids(NewOnes(events, known)) == Ids(events) - known
  {
    if events != [] {
      hide Ids, DistinctIds, NewOnes;
      var front, e := events[..|events| - 1], events[|events| - 1];
      assert events == front + [e];
      NewOnesSound(front, known);
      NewOnesStep(front, e, known);
      IdsAppend(front, e);
      KeepOrLeave(NewOnes(front, known), e, known, Ids(front));
    }
  }

  lemma DistinctAppend(events: seq<Message>, e: Message)
    requires DistinctIds(events) && e.id !in Ids(events)
    ensures DistinctIds(events + [e])
  {
    forall k | 0 <= k < |events|
      ensures events[k].id != e.id
    {
      assert events[k] in events;
    }
  }

  /** A sync inserts nothing exactly if it knows every id it reads. */
  lemma NothingNewIffKnown(events: seq<Message>, known: set<nat>)
    ensures NewOnes(events, known) == [] <==> Ids(events) <= known
  {
    NewOnesSound(events, known);
    var collected := NewOnes(events, known);
    if collected != [] {
      assert collected[0].id in Ids(collected);
    }
  }

  // ----- Weeks and chunks -----

  function WeekKey(m: Message): string {
    WeekStartKey(m.day)
  }

  /** The rows of one week, in order; `keyOf` gives the week of a row. */
  function OfWeek(rows: seq<Message>, keyOf: Message -> string, key: string): seq<Message> {
    if rows == [] then []
    else
      var last := rows[|rows| - 1];
      OfWeek(rows[..|rows| - 1], keyOf, key) + if keyOf(last) == key then [last] else []
  }

  /** The weeks in the order in which they first come up. */
  function WeekKeys(rows: seq<Message>, keyOf: Message -> string): seq<string> {
    if rows == [] then []
    else
      var before, key := WeekKeys(rows[..|rows| - 1], keyOf), keyOf(rows[|rows| - 1]);
      if key in before then before else before + [key]
  }

  /** Cut into slices of the chunk size, the last one possibly shorter. */
  function Slices(rows: seq<Message>): seq<seq<Message>> {
    if rows == [] then []
    else if |rows| <= CLICKHOUSE_INSERT_CHUNK_SIZE then [rows]
    else [rows[..CLICKHOUSE_INSERT_CHUNK_SIZE]] + Slices(rows[CLICKHOUSE_INSERT_CHUNK_SIZE..])
  }

  function ChunksOf(keys: seq<string>, rows: seq<Message>, keyOf: Message -> string): seq<seq<Message>> {
    if keys == [] then []
    else ChunksOf(keys[..|keys| - 1], rows, keyOf) + Slices(OfWeek(rows, keyOf, keys[|keys| - 1]))
  }

  /** The inserts that `insertEvents` makes, in order. */
  function Chunks(rows: seq<Message>, keyOf: Message -> string): seq<seq<Message>> {
    ChunksOf(WeekKeys(rows, keyOf), rows, keyOf)
  }

  /** `insertEvents`: group the rows by week in a map that remembers the order of its keys, then
      insert each group in slices. */
  method InsertEvents(rows: seq<Message>) returns (inserts: seq<seq<Message>>)
    ensures inserts == Chunks(rows, WeekKey)
  {
    hide WeekKeys, OfWeek, Slices, WeekKey;
    var keys, byWeek := GroupByWeek(rows);
    inserts := [];
    var w := 0;
    while w < |keys|
      invariant 0 <= w <= |keys|
      invariant inserts == ChunksOf(keys[..w], rows, WeekKey)
    {
      assert keys[..w + 1][..w] == keys[..w];
      var slices := InsertSlices(byWeek[keys[w]]);
      inserts := inserts + slices;
      w := w + 1;
    }
    assert keys[..w] == keys;
  }

  method GroupByWeek(rows: seq<Message>) returns (keys: seq<string>, byWeek: map<string, seq<Message>>)
    ensures keys == WeekKeys(rows, WeekKey)
    ensures forall key <- keys :: key in byWeek && byWeek[key] == OfWeek(rows, WeekKey, key)
  {
    hide WeekKeys, OfWeek, WeekKey;
    keys, byWeek := [], map[];
    EmptyWeeks(WeekKey);
    assert rows[..0] == [];
    var r := 0;
    while r < |rows|
      invariant 0 <= r <= |rows|
      invariant keys == WeekKeys(rows[..r], WeekKey)
      invariant forall key :: key in byWeek <==> key in keys
      invariant forall key :: OfWeek(rows[..r], WeekKey, key) == if key in byWeek then byWeek[key] else []
    {
      var key := WeekKey(rows[r]);
      WeekStep(rows, WeekKey, r);
      var list := if key in byWeek then byWeek[key] else [];
      keys := if key in byWeek then keys else keys + [key];
      byWeek := byWeek[key := list + [rows[r]]];
      r := r + 1;
    }
    assert rows[..r] == rows;
  }

  lemma EmptyWeeks(keyOf: Message -> string)
    ensures WeekKeys([], keyOf) == [] && forall key :: OfWeek([], keyOf, key) == []
  {
  }

  lemma WeekStep(rows: seq<Message>, keyOf: Message -> string, r: nat)
    requires r < |rows|
    ensures var key, before := keyOf(rows[r]), WeekKeys(rows[..r], keyOf);
            WeekKeys(rows[..r + 1], keyOf) == if key in before then before else before + [key]
    ensures forall key :: OfWeek(rows[..r + 1], keyOf, key)
                          == if keyOf(rows[r]) == key then OfWeek(rows[..r], keyOf, key) + [rows[r]]
                             else OfWeek(rows[..r], keyOf, key)
  {
    assert rows[..r + 1][..r] == rows[..r];
  }

  method InsertSlices(weekRows: seq<Message>) returns (inserts: seq<seq<Message>>)
    ensures inserts == Slices(weekRows)
  {
    inserts := [];
    var i := 0;
    assert weekRows[0..] == weekRows;
    while i < |weekRows|
      invariant 0 <= i
      invariant Slices(weekRows) == inserts + if i <= |weekRows| then Slices(weekRows[i..]) else []
    {
      var end := if i + CLICKHOUSE_INSERT_CHUNK_SIZE < |weekRows| then i + CLICKHOUSE_INSERT_CHUNK_SIZE else |weekRows|;
      var chunk := weekRows[i..end];
      ghost var rest := weekRows[i..];
      if |rest| > CLICKHOUSE_INSERT_CHUNK_SIZE {
        assert rest[..CLICKHOUSE_INSERT_CHUNK_SIZE] == chunk;
        assert rest[CLICKHOUSE_INSERT_CHUNK_SIZE..] == weekRows[end..];
      } else {
        assert rest == chunk;
      }
      inserts := inserts + [chunk];
      i := i + CLICKHOUSE_INSERT_CHUNK_SIZE;
    }
  }

  // ----- The chunks partition the rows -----

  lemma {:induction false} OfWeekConcat(a: seq<Message>, b: seq<Message>, keyOf: Message -> string, key: string)
    ensures OfWeek(a + b, keyOf, key) == OfWeek(a, keyOf, key) + OfWeek(b, keyOf, key)
    decreases |b|
  {
    if b == [] {
      assert a + b == a;
    } else {
      OfWeekConcat(a, b[..|b| - 1], keyOf, key);
      assert (a + b)[..|a + b| - 1] == a + b[..|b| - 1];
    }
  }

  lemma {:induction false} FlattenConcat(a: seq<seq<Message>>, b: seq<seq<Message>>)
    ensures Flatten(a + b) == Flatten(a) + Flatten(b)
    decreases |b|
  {
    if b == [] {
      assert a + b == a;
    } else {
      var front, last := b[..|b| - 1], b[|b| - 1];
      FlattenConcat(a, front);
      FlattenStep(a + b);
      FlattenStep(b);
      assert (a + b)[..|a + b| - 1] == a + front && (a + b)[|a + b| - 1] == last;
      ConcatAssociates(Flatten(a), Flatten(front), last);
    }
  }

  lemma FlattenStep(parts: seq<seq<Message>>)
    requires parts != []
    ensures Flatten(parts) == Flatten(parts[..|parts| - 1]) + parts[|parts| - 1]
  {
  }

  lemma ConcatAssociates(a: seq<Message>, b: seq<Message>, c: seq<Message>)
    ensures a + b + c == a + (b + c)
  {
  }

  lemma FlattenOne(part: seq<Message>)
    ensures Flatten([part]) == part
  {
    assert [part][..0] == [];
  }

  lemma {:induction false} FlattenSlices(rows: seq<Message>)
    ensures Flatten(Slices(rows)) == rows
    decreases |rows|
  {
    if |rows| <= CLICKHOUSE_INSERT_CHUNK_SIZE {
      FlattenOne(rows);
    } else {
      var first, rest := rows[..CLICKHOUSE_INSERT_CHUNK_SIZE], rows[CLICKHOUSE_INSERT_CHUNK_SIZE..];
      FlattenSlices(rest);
      FlattenConcat([first], Slices(rest));
      FlattenOne(first);
    }
  }

  lemma {:induction false} WeekOfWeek(rows: seq<Message>, keyOf: Message -> string, k1: string, k2: string)
    ensures OfWeek(OfWeek(rows, keyOf, k1), keyOf, k2) == if k1 == k2 then OfWeek(rows, keyOf, k1) else []
    decreases |rows|
  {
    if rows != [] {
      var last := |rows| - 1;
      WeekOfWeek(rows[..last], keyOf, k1, k2);
      OfWeekConcat(OfWeek(rows[..last], keyOf, k1), if keyOf(rows[last]) == k1 then [rows[last]] else [], keyOf, k2);
      assert [rows[last]][..0] == [];
      assert OfWeek([rows[last]], keyOf, k2) == if keyOf(rows[last]) == k2 then [rows[last]] else [];
    }
  }

  ghost predicate DistinctKeys(keys: seq<string>) {
    forall j, k :: 0 <= j < k < |keys| ==> keys[j] != keys[k]
  }

  lemma {:induction false} KeysCoverWeeks(rows: seq<Message>, keyOf: Message -> string, key: string)
    ensures DistinctKeys(WeekKeys(rows, keyOf))
    ensures key in WeekKeys(rows, keyOf) <==> OfWeek(rows, keyOf, key) != []
    decreases |rows|
  {
    if rows != [] {
      KeysCoverWeeks(rows[..|rows| - 1], keyOf, key);
    }
  }

  lemma FlattenChunksStep(keys: seq<string>, rows: seq<Message>, keyOf: Message -> string)
    requires keys != []
    ensures Flatten(ChunksOf(keys, rows, keyOf))
            == Flatten(ChunksOf(keys[..|keys| - 1], rows, keyOf)) + OfWeek(rows, keyOf, keys[|keys| - 1])
  {
    var week := OfWeek(rows, keyOf, keys[|keys| - 1]);
    hide OfWeek, Slices, Flatten;
    FlattenConcat(ChunksOf(keys[..|keys| - 1], rows, keyOf), Slices(week));
    FlattenSlices(week);
  }

  /** The week of one more key is added to what the keys before it hold. */
  lemma OneMoreWeek(keys: seq<string>, rows: seq<Message>, keyOf: Message -> string, key: string)
    requires keys != []
    ensures var front, last := keys[..|keys| - 1], keys[|keys| - 1];
            OfWeek(Flatten(ChunksOf(keys, rows, keyOf)), keyOf, key)
            == if key == last then OfWeek(Flatten(ChunksOf(front, rows, keyOf)), keyOf, key) + OfWeek(rows, keyOf, last)
               else OfWeek(Flatten(ChunksOf(front, rows, keyOf)), keyOf, key)
  {
    hide OfWeek, Flatten, ChunksOf;
    var front, last := keys[..|keys| - 1], keys[|keys| - 1];
    FlattenChunksStep(keys, rows, keyOf);
    OfWeekConcat(Flatten(ChunksOf(front, rows, keyOf)), OfWeek(rows, keyOf, last), keyOf, key);
    WeekOfWeek(rows, keyOf, last, key);
  }

  lemma LastKeyIsNew(keys: seq<string>, key: string)
    requires DistinctKeys(keys) && keys != []
    ensures var front, last := keys[..|keys| - 1], keys[|keys| - 1];
            && DistinctKeys(front) && (key in front ==> key != last)
            && (key in keys <==> key in front || key == last)
  {
    assert keys == keys[..|keys| - 1] + [keys[|keys| - 1]];
  }

  lemma {:induction false} ChunksOfOneWeek(keys: seq<string>, rows: seq<Message>, keyOf: Message -> string, key: string)
    requires DistinctKeys(keys)
    ensures OfWeek(Flatten(ChunksOf(keys, rows, keyOf)), keyOf, key)
            == if key in keys then OfWeek(rows, keyOf, key) else []
    decreases |keys|
  {
    if keys == [] {
      EmptyWeeks(keyOf);
    } else {
      hide OfWeek, Flatten, ChunksOf, DistinctKeys;
      LastKeyIsNew(keys, key);
      ChunksOfOneWeek(keys[..|keys| - 1], rows, keyOf, key);
      OneMoreWeek(keys, rows, keyOf, key);
      assert [] + OfWeek(rows, keyOf, key) == OfWeek(rows, keyOf, key);
    }
  }

  /** The inserts hold the rows of every week unchanged and in order: together they are a
      permutation of the input that is stable within each week. */
  lemma ChunksKeepWeeks(rows: seq<Message>, keyOf: Message -> string, key: string)
    ensures OfWeek(Flatten(Chunks(rows, keyOf)), keyOf, key) == OfWeek(rows, keyOf, key)
  {
    KeysCoverWeeks(rows, keyOf, key);
    ChunksOfOneWeek(WeekKeys(rows, keyOf), rows, keyOf, key);
  }

  lemma {:induction false} CountedInWeek(rows: seq<Message>, keyOf: Message -> string, m: Message)
    ensures multiset(rows)[m] == multiset(OfWeek(rows, keyOf, keyOf(m)))[m]
    decreases |rows|
  {
    if rows != [] {
      var last := |rows| - 1;
      CountedInWeek(rows[..last], keyOf, m);
      assert rows == rows[..last] + [rows[last]];
    }
  }

  lemma ChunksArePermutation(rows: seq<Message>, keyOf: Message -> string)
    ensures multiset(Flatten(Chunks(rows, keyOf))) == multiset(rows)
  {
    forall m
      ensures multiset(Flatten(Chunks(rows, keyOf)))[m] == multiset(rows)[m]
    {
      CountedInWeek(rows, keyOf, m);
      CountedInWeek(Flatten(Chunks(rows, keyOf)), keyOf, m);
      ChunksKeepWeeks(rows, keyOf, keyOf(m));
    }
  }

  /** Slices are cut as large as can be: all but the last have exactly 10000 rows. */
  lemma {:induction false} SlicesAreFull(rows: seq<Message>, i: nat)
    requires i + 1 < |Slices(rows)|
    ensures |Slices(rows)[i]| == 10000
    decreases |rows|
  {
    if i > 0 {
      SlicesAreFull(rows[CLICKHOUSE_INSERT_CHUNK_SIZE..], i - 1);
    }
  }

  /** A week makes one insert for each begun ten thousand of its rows. */
  lemma {:induction false} SlicesCount(rows: seq<Message>)
    ensures 10000 * |Slices(rows)| < |rows| + 10000 && |rows| <= 10000 * |Slices(rows)|
    decreases |rows|
  {
    if |rows| > CLICKHOUSE_INSERT_CHUNK_SIZE {
      SlicesCount(rows[CLICKHOUSE_INSERT_CHUNK_SIZE..]);
    }
  }

  /** The inserts of a week stand together, week after week in the order in which the weeks come up: those
      of the last week are the slices of its rows, and before them come those of the rest. */
  lemma ChunksWeekByWeek(rows: seq<Message>, keyOf: Message -> string)
    requires rows != []
    ensures var keys := WeekKeys(rows, keyOf);
            && keys != []
            && Chunks(rows, keyOf)
               == ChunksOf(keys[..|keys| - 1], rows, keyOf) + Slices(OfWeek(rows, keyOf, keys[|keys| - 1]))
  {
  }

  /** An insert: not empty, no larger than the chunk size, all of one week. */
  ghost predicate GoodChunk(chunk: seq<Message>, keyOf: Message -> string, key: string) {
    && 0 < |chunk| <= CLICKHOUSE_INSERT_CHUNK_SIZE
    && forall m <- chunk :: keyOf(m) == key
  }

  lemma {:induction false} SlicesAreGood(rows: seq<Message>, keyOf: Message -> string, key: string)
    requires forall m <- rows :: keyOf(m) == key
    ensures forall chunk <- Slices(rows) :: GoodChunk(chunk, keyOf, key)
    decreases |rows|
  {
    if |rows| > CLICKHOUSE_INSERT_CHUNK_SIZE {
      var first, rest := rows[..CLICKHOUSE_INSERT_CHUNK_SIZE], rows[CLICKHOUSE_INSERT_CHUNK_SIZE..];
      assert rows == first + rest;
      SlicesAreGood(rest, keyOf, key);
      assert GoodChunk(first, keyOf, key);
    } else if rows != [] {
      assert GoodChunk(rows, keyOf, key);
    }
  }

  lemma {:induction false} OfWeekIsOfWeek(rows: seq<Message>, keyOf: Message -> string, key: string)
    ensures forall m <- OfWeek(rows, keyOf, key) :: keyOf(m) == key
    decreases |rows|
  {
    if rows != [] {
      OfWeekIsOfWeek(rows[..|rows| - 1], keyOf, key);
    }
  }

  lemma {:induction false} ChunksOfAreGood(keys: seq<string>, rows: seq<Message>, keyOf: Message -> string)
    ensures forall chunk <- ChunksOf(keys, rows, keyOf) :: exists key :: GoodChunk(chunk, keyOf, key)
    decreases |keys|
  {
    hide OfWeek, Slices, GoodChunk;
    if keys != [] {
      var last := |keys| - 1;
      ChunksOfAreGood(keys[..last], rows, keyOf);
      OfWeekIsOfWeek(rows, keyOf, keys[last]);
      SlicesAreGood(OfWeek(rows, keyOf, keys[last]), keyOf, keys[last]);
    }
  }

  lemma OneWeekOneMonday(chunk: seq<Message>, key: string, m: Message)
    requires GoodChunk(chunk, WeekKey, key) && m in chunk
    ensures IsMondayOf(WeekStart(chunk[0].day), m.day)
  {
    hide WeekStart, WeekStartKey, IsMondayOf;
    assert chunk[0] in chunk;
    assert WeekKey(chunk[0]) == key && WeekKey(m) == key;
    SameWeek(chunk[0].day, m.day);
  }

  /** Each insert is non-empty, has at most 10000 rows, and one Monday is the last one on or before
      the days of all its rows. */
  lemma InsertsStayInOneWeek(rows: seq<Message>, chunk: seq<Message>)
    requires chunk in Chunks(rows, WeekKey)
    ensures 0 < |chunk| <= 10000
    ensures forall m <- chunk :: IsMondayOf(WeekStart(chunk[0].day), m.day)
  {
    hide WeekStart, WeekStartKey, IsMondayOf, ChunksOf, WeekKeys, WeekKey;
    ChunksOfAreGood(WeekKeys(rows, WeekKey), rows, WeekKey);
    var key :| GoodChunk(chunk, WeekKey, key);
    forall m <- chunk
      ensures IsMondayOf(WeekStart(chunk[0].day), m.day)
    {
      OneWeekOneMonday(chunk, key, m);
    }
  }

  lemma SameWeek(d1: Day, d2: Day)
    requires WeekStartKey(d1) == WeekStartKey(d2)
    ensures IsMondayOf(WeekStart(d1), d2)
  {
    SameKeyIffSameMonday(d1, d2);
    var monday :| IsMondayOf(monday, d1) && IsMondayOf(monday, d2);
    WeekStartIsMonday(d1);
    MondayUnique(monday, WeekStart(d1), d1);
  }

  // ----- Syncs one after another -----

  lemma {:induction false} DistinctIffCounted(events: seq<Message>)
    ensures |Ids(events)| <= |events|
    ensures DistinctIds(events) <==> |Ids(events)| == |events|
    decreases |events|
  {
    if events != [] {
      var last := |events| - 1;
      var before, e := events[..last], events[last];
      DistinctIffCounted(before);
      assert events == before + [e];
      IdsAppend(before, e);
      if e.id in Ids(before) {
        assert Ids(events) == Ids(before);
        var m :| m in before && m.id == e.id;
      } else if DistinctIds(before) {
        DistinctAppend(before, e);
      }
      assert DistinctIds(events) ==> DistinctIds(before);
    }
  }

  lemma PermutationKeepsIds(a: seq<Message>, b: seq<Message>)
    requires multiset(a) == multiset(b)
    ensures Ids(a) == Ids(b) && (DistinctIds(a) <==> DistinctIds(b))
  {
    assert forall m :: m in a <==> m in multiset(a);
    assert forall m :: m in b <==> m in multiset(b);
    assert |multiset(a)| == |a| && |multiset(b)| == |b|;
    DistinctIffCounted(a);
    DistinctIffCounted(b);
  }

  lemma DistinctConcat(a: seq<Message>, b: seq<Message>)
    requires DistinctIds(a) && DistinctIds(b) && Ids(a) !! Ids(b)
    ensures DistinctIds(a + b) && Ids(a + b) == Ids(a) + Ids(b)
  {
    forall j, k | 0 <= j < |a| && 0 <= k < |b|
      ensures a[j].id != b[k].id
    {
      assert a[j].id in Ids(a) && b[k].id in Ids(b);
    }
    assert forall m :: m in a + b <==> m in a || m in b;
  }

  /** What the table gains from a sync that knows some ids and gets through its first `done` inserts. */
  function Inserted(fetched: seq<Message>, keyOf: Message -> string, known: set<nat>, done: nat): seq<Message> {
    var inserts := Chunks(NewOnes(fetched, known), keyOf);
    Flatten(if done < |inserts| then inserts[..done] else inserts)
  }

  lemma InsertedSound(fetched: seq<Message>, keyOf: Message -> string, known: set<nat>, done: nat)
    ensures var gained := Inserted(fetched, keyOf, known, done);
            && DistinctIds(gained) && Ids(gained) <= Ids(fetched) - known
            && (done >= |Chunks(NewOnes(fetched, known), keyOf)| ==> Ids(gained) == Ids(fetched) - known)
  {
    hide Chunks, NewOnes;
    var collected := NewOnes(fetched, known);
    var inserts := Chunks(collected, keyOf);
    NewOnesSound(fetched, known);
    ChunksArePermutation(collected, keyOf);
    PermutationKeepsIds(Flatten(inserts), collected);
    if done < |inserts| {
      assert inserts == inserts[..done] + inserts[done..];
      FlattenConcat(inserts[..done], inserts[done..]);
      PrefixKeepsDistinct(Flatten(inserts[..done]), Flatten(inserts[done..]));
    }
  }

  lemma PrefixKeepsDistinct(a: seq<Message>, b: seq<Message>)
    requires DistinctIds(a + b)
    ensures DistinctIds(a) && Ids(a) <= Ids(a + b)
  {
    assert forall k :: 0 <= k < |a| ==> a[k] == (a + b)[k];
    assert forall m :: m in a ==> m in a + b;
  }

  /** A sync that broke off after any number of inserts, followed by one that gets through, leaves
      every message of the channels in the table exactly once; a further sync inserts nothing. */
  lemma ResumedSyncIsExactlyOnce(table: seq<Message>, fetched: seq<Message>, keyOf: Message -> string, done: nat)
    requires DistinctIds(table)
    ensures var t1 := table + Inserted(fetched, keyOf, Ids(table), done);
            var second := NewOnes(fetched, Ids(t1));
            var t2 := t1 + Inserted(fetched, keyOf, Ids(t1), |Chunks(second, keyOf)|);
            && DistinctIds(t2) && Ids(t2) == Ids(table) + Ids(fetched)
            && NewOnes(fetched, Ids(t2)) == []
  {
    hide Inserted, Chunks, NewOnes;
    var first := Inserted(fetched, keyOf, Ids(table), done);
    InsertedSound(fetched, keyOf, Ids(table), done);
    DistinctConcat(table, first);
    var t1 := table + first;
    var all := |Chunks(NewOnes(fetched, Ids(t1)), keyOf)|;
    var second := Inserted(fetched, keyOf, Ids(t1), all);
    InsertedSound(fetched, keyOf, Ids(t1), all);
    DistinctConcat(t1, second);
    NothingNewIffKnown(fetched, Ids(t1 + second));
  }

  lemma SharedIdRepeats(a: seq<Message>, b: seq<Message>, id: nat)
    requires id in Ids(a) && id in Ids(b)
    ensures !DistinctIds(a + b)
  {
    var j :| 0 <= j < |a| && a[j].id == id;
    var k :| 0 <= k < |b| && b[k].id == id;
    assert (a + b)[j].id == (a + b)[|a| + k].id;
  }

  /** If the query for the stored ids fails, the sync goes on knowing none, and what was stored
      before is stored again. */
  lemma UnansweredQueryDuplicates(table: seq<Message>, fetched: seq<Message>, keyOf: Message -> string, done: nat)
    requires fetched != [] && Ids(fetched) <= Ids(table)
    requires done >= |Chunks(NewOnes(fetched, {}), keyOf)|
    ensures !DistinctIds(table + Inserted(fetched, keyOf, {}, done))
  {
    hide Inserted, Chunks, NewOnes, DistinctIds;
    InsertedSound(fetched, keyOf, {}, done);
    assert fetched[0] in fetched;
    SharedIdRepeats(table, Inserted(fetched, keyOf, {}, done), fetched[0].id);
  }
}
