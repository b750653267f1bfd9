/** Counting the members of each role from scratch, when the cache has no count to give: page through
    the members, count in a map, and write the counts into the cache. */
module RoleRecount {
  import opened Options
  import opened Paging

  const MEMBERS_LIMIT := 1000

  type RoleId = nat

  datatype Member = Member(id: nat, roles: seq<RoleId>)

  function IdOf(m: Member): nat {
    m.id
  }

  /** How often a role occurs among roles. */
  function Occurrences(roles: seq<RoleId>, role: RoleId): nat {
    if roles == [] then 0
    else Occurrences(roles[..|roles| - 1], role) + if roles[|roles| - 1] == role then 1 else 0
  }

  /** How often it occurs among the roles of members. */
  function CountOf(members: seq<Member>, role: RoleId): nat {
    if members == [] then 0
    else CountOf(members[..|members| - 1], role) + Occurrences(members[|members| - 1].roles, role)
  }

  /** The members whose pages are served before a request fails. */
  function Served(listing: seq<Member>, failure: Option<nat>): (n: nat)
    ensures n <= |listing|
  {
    if failure.Some? && failure.value * MEMBERS_LIMIT < |listing| then failure.value * MEMBERS_LIMIT else |listing|
  }

  function Lookup(counts: map<RoleId, nat>, role: RoleId): nat {
    if role in counts then counts[role] else 0
  }

  /** The counts are those of some members, and no entry is zero. */
  ghost predicate CountsOf(counts: map<RoleId, nat>, members: seq<Member>) {
    forall role :: Lookup(counts, role) == CountOf(members, role) && (role in counts <==> CountOf(members, role) > 0)
  }

  /** What the cache holds afterwards: a count for every role that a member was seen with, the old
      entry for every other. */
  function Refreshed(cache: map<RoleId, int>, members: seq<Member>, role: RoleId): Option<int> {
    if CountOf(members, role) > 0 then Some(CountOf(members, role))
    else if role in cache then Some(cache[role]) else None
  }

  function CacheGet(cache: map<RoleId, int>, role: RoleId): Option<int> {
    if role in cache then Some(cache[role]) else None
  }

  method AddRoles(counts: map<RoleId, nat>, ghost seen: seq<Member>, m: Member) returns (next: map<RoleId, nat>)
    requires CountsOf(counts, seen)
    ensures CountsOf(next, seen + [m])
  {
    next := counts;
    var r := 0;
    while r < |m.roles|
      invariant 0 <= r <= |m.roles|
      invariant forall role :: Lookup(next, role) == CountOf(seen, role) + Occurrences(m.roles[..r], role)
      invariant forall role :: role in next <==> Lookup(next, role) > 0
    {
      assert m.roles[..r + 1][..r] == m.roles[..r];
      next := next[m.roles[r] := Lookup(next, m.roles[r]) + 1];
      r := r + 1;
    }
    assert m.roles[..r] == m.roles;
    assert (seen + [m])[..|seen|] == seen;
  }

  method AddPage(counts: map<RoleId, nat>, ghost seen: seq<Member>, page: seq<Member>) returns (next: map<RoleId, nat>)
    requires CountsOf(counts, seen)
    ensures CountsOf(next, seen + page)
  {
    hide CountsOf;
    next := counts;
    var i := 0;
    assert seen + page[..0] == seen;
    while i < |page|
      invariant 0 <= i <= |page|
      invariant CountsOf(next, seen + page[..i])
    {
      next := AddRoles(next, seen + page[..i], page[i]);
      assert seen + page[..i] + [page[i]] == seen + page[..i + 1];
      i := i + 1;
    }
    assert page[..i] == page;
  }

  /** `fetchRoleMemberCountFromDiscord`: the counts of all members whose pages were served, whatever
      the total, multiples of 1000 included. A request that fails ends the counting, and what was
      counted up to then is written and returned all the same. */
  method FetchRoleMemberCount(listing: seq<Member>, failure: Option<nat>, cache: map<RoleId, int>, roleId: RoleId)
    returns (count: nat, refreshed: map<RoleId, int>)
    requires Ascending(listing, IdOf)
    ensures count == CountOf(listing[..Served(listing, failure)], roleId)
    ensures failure.None? ==> count == CountOf(listing, roleId)
    ensures failure.Some? ==>
              var seen := if 1000 * failure.value < |listing| then listing[..1000 * failure.value] else listing;
              count == CountOf(seen, roleId)
    ensures forall role :: CacheGet(refreshed, role) == Refreshed(cache, listing[..Served(listing, failure)], role)
  {
    var counts := CountAll(listing, failure);
    assert listing[..|listing|] == listing;
    ghost var members := listing[..Served(listing, failure)];
    refreshed := cache;
    var todo := counts.Keys;
    while todo != {}
      invariant todo <= counts.Keys
      invariant forall role :: CacheGet(refreshed, role) ==
                  if role in counts && role !in todo then Some(counts[role]) else CacheGet(cache, role)
      decreases todo
    {
      var role :| role in todo;
      refreshed := refreshed[role := counts[role]];
      todo := todo - {role};
    }
    count := Lookup(counts, roleId);
  }

  lemma ServedUntilFailure(listing: seq<Member>, failure: Option<nat>, n: nat)
    requires failure.Some? && n == failure.value * MEMBERS_LIMIT <= |listing|
    ensures Served(listing, failure) == n
  {
  }

  lemma ServedInFull(listing: seq<Member>, failure: Option<nat>, request: nat)
    requires |listing| < (request + 1) * MEMBERS_LIMIT && (failure.Some? ==> request < failure.value)
    ensures Served(listing, failure) == |listing|
  {
  }

  method CountAll(listing: seq<Member>, failure: Option<nat>) returns (counts: map<RoleId, nat>)
    requires Ascending(listing, IdOf)
    ensures CountsOf(counts, listing[..Served(listing, failure)])
  {
    counts := map[];
    assert CountsOf(counts, listing[..0]);
    hide CountsOf, PageAfter, Ascending, Served, IdOf;
    var after := None;
    var request := 0;
    ghost var n := 0;
    while true
      invariant 0 <= n <= |listing| && n == request * MEMBERS_LIMIT
      invariant failure.Some? ==> request <= failure.value
      invariant after == if n == 0 then None else Some(IdOf(listing[n - 1]))
      invariant CountsOf(counts, listing[..n])
      decreases |listing| - n
    {
      if failure == Some(request) {
        ServedUntilFailure(listing, failure, n);
        break;
      }
      var page := PageAfter(listing, IdOf, after, MEMBERS_LIMIT);
      NextPage(listing, IdOf, n, after, MEMBERS_LIMIT);
      counts := AddPage(counts, listing[..n], page);
      assert listing[..n] + page == listing[..n + |page|];
      if |page| < MEMBERS_LIMIT {
        n := |listing|;
        ServedInFull(listing, failure, request);
        break;
      }
      n := n + MEMBERS_LIMIT;
      request := request + 1;
      after := Some(IdOf(page[|page| - 1]));
    }
  }

  // ----- What a count means -----

  lemma {:induction false} CountConcat(a: seq<Member>, b: seq<Member>, role: RoleId)
    ensures CountOf(a + b, role) == CountOf(a, role) + CountOf(b, role)
    decreases |b|
  {
    if b == [] {
      assert a + b == a;
    } else {
      CountConcat(a, b[..|b| - 1], role);
      assert (a + b)[..|a + b| - 1] == a + b[..|b| - 1];
    }
  }

  lemma {:induction false} OccursIfIn(roles: seq<RoleId>, role: RoleId)
    ensures Occurrences(roles, role) > 0 <==> role in roles
  {
    if roles != [] {
      OccursIfIn(roles[..|roles| - 1], role);
      assert roles == roles[..|roles| - 1] + [roles[|roles| - 1]];
    }
  }

  lemma {:induction false} CountedIfHeld(members: seq<Member>, role: RoleId)
    ensures CountOf(members, role) > 0 <==> exists m <- members :: role in m.roles
    decreases |members|
  {
    if members != [] {
      var front, last := members[..|members| - 1], members[|members| - 1];
      CountedIfHeld(front, role);
      OccursIfIn(last.roles, role);
      assert members == front + [last];
    }
  }

  /** The count is that of all members exactly if no member beyond the failed request has the role. */
  lemma FailedCountIsFull(listing: seq<Member>, failure: Option<nat>, role: RoleId)
    ensures CountOf(listing[..Served(listing, failure)], role) == CountOf(listing, role)
            <==> forall m <- listing[Served(listing, failure)..] :: role !in m.roles
  {
    var n := Served(listing, failure);
    assert listing == listing[..n] + listing[n..];
    CountConcat(listing[..n], listing[n..], role);
    CountedIfHeld(listing[n..], role);
  }

  /** After a full count the cache agrees with the recount exactly for the roles that a member has
      and for those whose old entry was zero or missing: a role that lost its last member while the
      cache was wrong keeps its stale entry. */
  lemma RefreshedAgreesIff(cache: map<RoleId, int>, listing: seq<Member>, role: RoleId)
    ensures var cached := Refreshed(cache, listing, role);
            (if cached.Some? then cached.value else 0) == CountOf(listing, role)
            <==> ((exists m <- listing :: role in m.roles) || role !in cache || cache[role] == 0)
  {
    CountedIfHeld(listing, role);
  }

  predicate NoRoleTwice(roles: seq<RoleId>) {
    forall j, k :: 0 <= j < k < |roles| ==> roles[j] != roles[k]
  }

  function Holders(members: seq<Member>, role: RoleId): set<nat> {
    set i | 0 <= i < |members| && role in members[i].roles
  }

  lemma {:induction false} OccursOnce(roles: seq<RoleId>, role: RoleId)
    requires NoRoleTwice(roles)
    ensures Occurrences(roles, role) <= 1
  {
    if roles != [] {
      OccursOnce(roles[..|roles| - 1], role);
      OccursIfIn(roles[..|roles| - 1], role);
    }
  }

  /** As no member has a role twice, the count is the number of members that have it. */
  lemma {:induction false} CountIsHolders(members: seq<Member>, role: RoleId)
    requires forall m <- members :: NoRoleTwice(m.roles)
    ensures CountOf(members, role) == |Holders(members, role)|
    decreases |members|
  {
    if members == [] {
      assert Holders(members, role) == {};
    } else {
      var front, last := members[..|members| - 1], members[|members| - 1];
      CountIsHolders(front, role);
      OccursOnce(last.roles, role);
      OccursIfIn(last.roles, role);
      HoldersStep(front, last, role);
      assert members == front + [last];
    }
  }

  lemma HoldersStep(front: seq<Member>, last: Member, role: RoleId)
    ensures |Holders(front + [last], role)| == |Holders(front, role)| + if role in last.roles then 1 else 0
  {
    var members := front + [last];
    if role in last.roles {
      assert Holders(members, role) == Holders(front, role) + {|front|};
    } else {
      assert Holders(members, role) == Holders(front, role);
    }
  }
}
