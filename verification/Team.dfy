/** Workspaces and their teams: creating a workspace, inviting, accepting, changing roles, removing,
    and what erasing a user takes out of these tables. One request at a time. */
module Team {
  import opened Options

  /** Ids, tokens and users are drawn from one counter: fresh values never repeat. */
  type Id = nat

  const INVITE_EXPIRY_MS := 7 * 24 * 60 * 60 * 1000

  datatype Role = OwnerRole | AdminRole | MemberRole

  datatype Company = Company(id: Id, ownerId: Id)
  datatype Member = Member(companyId: Id, userId: Id, role: Role)
  datatype Invite = Invite(companyId: Id, role: Role, invitedBy: Id, expiresAt: int)

  /** The tables; companies in the order of their creation. */
  datatype State = State(users: set<Id>, companies: seq<Company>, members: map<Id, Member>,
                         invites: map<Id, Invite>, next: Id)

  datatype Request =
    | SignUp
    | EnsureWorkspace(user: Id)
    | InviteMember(user: Id, role: Role, now: int)
    | AcceptInvite(user: Id, token: Id, now: int)
    | UpdateRole(user: Id, member: Id, role: Role)
    | RemoveMember(user: Id, member: Id)
    | EraseUser(user: Id)

  datatype Reply =
    | Done(id: Id)
    | Unauthorized | InsufficientPermissions | MemberNotFound | InviteNotFound | InviteExpired | AlreadyMember

  // ----- Look-ups -----

  /** The company that a user owns and created first. */
  function DefaultCompany(companies: seq<Company>, user: Id): Option<Id> {
    if companies == [] then None
    else if companies[0].ownerId == user then Some(companies[0].id)
    else DefaultCompany(companies[1..], user)
  }

  predicate MemberAt(members: map<Id, Member>, id: Id, companyId: Id, user: Id) {
    id in members && members[id].companyId == companyId && members[id].userId == user
  }

  /** A user's membership in a company. */
  ghost function MembershipOf(members: map<Id, Member>, companyId: Id, user: Id): (m: Option<Id>)
    ensures m.Some? ==> MemberAt(members, m.value, companyId, user)
    ensures m.None? ==> forall id :: !MemberAt(members, id, companyId, user)
  {
    if id :| MemberAt(members, id, companyId, user) then Some(id) else None
  }

  /** The role with which a user acts on a company: that of the membership in it. */
  ghost function RoleIn(s: State, companyId: Id, user: Id): Option<Role> {
    var m := MembershipOf(s.members, companyId, user);
    if m.Some? then Some(s.members[m.value].role) else None
  }

  // ----- The requests -----

  function WithoutOwner(companies: seq<Company>, user: Id): seq<Company> {
    if companies == [] then []
    else if companies[0].ownerId == user then WithoutOwner(companies[1..], user)
    else [companies[0]] + WithoutOwner(companies[1..], user)
  }

  predicate OwnedBy(companies: seq<Company>, companyId: Id, user: Id) {
    Company(companyId, user) in companies
  }

  /** What erasing the user leaves of these tables. */
  function Erase(s: State, user: Id): State {
    State(s.users - {user}, WithoutOwner(s.companies, user),
          map m | m in s.members && s.members[m].userId != user
                  && !OwnedBy(s.companies, s.members[m].companyId, user) :: s.members[m],
          map t | t in s.invites && s.invites[t].invitedBy != user
                  && !OwnedBy(s.companies, s.invites[t].companyId, user) :: s.invites[t],
          s.next)
  }

  ghost function Handle(s: State, request: Request): (State, Reply) {
    match request
    case SignUp => (s.(users := s.users + {s.next}, next := s.next + 1), Done(s.next))
    case _ => if request.user !in s.users then (s, Unauthorized) else HandleUser(s, request)
  }

  ghost function HandleUser(s: State, request: Request): (State, Reply)
    requires !request.SignUp?
  {
    var own := DefaultCompany(s.companies, request.user);
    match request
    case EnsureWorkspace(user) =>
      if own.Some? then (s, Done(own.value))
      else (s.(companies := s.companies + [Company(s.next, user)],
               members := s.members[s.next + 1 := Member(s.next, user, OwnerRole)],
               next := s.next + 2), Done(s.next))
    case InviteMember(user, role, now) =>
      if own.None? || RoleIn(s, own.value, user) !in {Some(OwnerRole), Some(AdminRole)}
      then (s, InsufficientPermissions)
      else (s.(invites := s.invites[s.next := Invite(own.value, role, user, now + INVITE_EXPIRY_MS)],
               next := s.next + 1), Done(s.next))
    case AcceptInvite(user, token, now) =>
      if token !in s.invites then (s, InviteNotFound)
      else
        var invite := s.invites[token];
        if invite.expiresAt <= now then (s, InviteExpired)
        else if RoleIn(s, invite.companyId, user).Some? then (s, AlreadyMember)
        else (s.(members := s.members[s.next := Member(invite.companyId, user, invite.role)],
                 invites := s.invites - {token}, next := s.next + 1), Done(s.next))
    case UpdateRole(user, m, role) =>
      if own.None? then (s, MemberNotFound)
      else if RoleIn(s, own.value, user) != Some(OwnerRole) then (s, InsufficientPermissions)
      else if m !in s.members || s.members[m].companyId != own.value then (s, MemberNotFound)
      else (s.(members := s.members[m := s.members[m].(role := role)]), Done(m))
    case RemoveMember(user, m) =>
      if own.None? then (s, MemberNotFound)
      else if RoleIn(s, own.value, user) in {None, Some(MemberRole)} then (s, InsufficientPermissions)
      else if m !in s.members || s.members[m].companyId != own.value then (s, MemberNotFound)
      else if s.members[m].userId == user then (s, InsufficientPermissions)
      else if RoleIn(s, own.value, user) != Some(OwnerRole) && s.members[m].role == OwnerRole
      then (s, InsufficientPermissions)
      else (s.(members := s.members - {m}), Done(m))
    case EraseUser(user) => (Erase(s, user), Done(user))
  }

  // ----- What every request keeps -----

  ghost predicate HasOwner(members: map<Id, Member>, c: Company) {
    exists id :: MemberAt(members, id, c.id, c.ownerId)
  }

  ghost predicate OwnersAreMembers(companies: seq<Company>, members: map<Id, Member>) {
    forall c <- companies :: HasOwner(members, c)
  }

  predicate SamePlace(m1: Member, m2: Member) {
    m1.companyId == m2.companyId && m1.userId == m2.userId
  }

  ghost predicate OneMembershipEach(members: map<Id, Member>) {
    forall i, j :: i in members && j in members && SamePlace(members[i], members[j]) ==> i == j
  }

  ghost predicate OneCompanyEach(companies: seq<Company>) {
    forall i, j :: 0 <= i < j < |companies| ==> DifferentCompanies(companies[i], companies[j])
  }

  predicate DifferentCompanies(c1: Company, c2: Company) {
    c1.ownerId != c2.ownerId && c1.id != c2.id
  }

  predicate HasCompany(companies: seq<Company>, companyId: Id) {
    exists c <- companies :: c.id == companyId
  }

  /** Every row refers to rows that are there. */
  ghost predicate RefersToRows(s: State) {
    && (forall c <- s.companies :: c.ownerId in s.users)
    && (forall m <- s.members :: HasCompany(s.companies, s.members[m].companyId) && s.members[m].userId in s.users)
    && (forall t <- s.invites :: HasCompany(s.companies, s.invites[t].companyId) && s.invites[t].invitedBy in s.users)
  }

  /** What has been drawn is below the counter. */
  ghost predicate CounterAhead(s: State) {
    && (forall u <- s.users :: u < s.next)
    && (forall c <- s.companies :: c.id < s.next)
    && (forall m <- s.members :: m < s.next)
    && (forall t <- s.invites :: t < s.next)
  }

  ghost predicate Inv(s: State) {
    && OwnersAreMembers(s.companies, s.members) && OneMembershipEach(s.members) && OneCompanyEach(s.companies)
    && RefersToRows(s) && CounterAhead(s)
  }

  lemma {:induction false} DefaultIsOwned(companies: seq<Company>, user: Id)
    ensures var own := DefaultCompany(companies, user);
            if own.Some? then OwnedBy(companies, own.value, user) else forall c <- companies :: c.ownerId != user
  {
    if companies != [] {
      DefaultIsOwned(companies[1..], user);
    }
  }

  lemma OwnerUnique(companies: seq<Company>, companyId: Id, a: Id, b: Id)
    requires OneCompanyEach(companies) && OwnedBy(companies, companyId, a) && OwnedBy(companies, companyId, b)
    ensures a == b
  {
    var i :| 0 <= i < |companies| && companies[i] == Company(companyId, a);
    var j :| 0 <= j < |companies| && companies[j] == Company(companyId, b);
  }

  /** A further membership, in a place that was free. */
  lemma MemberAdded(s: State, id: Id, m: Member)
    requires Inv(s) && id !in s.members && forall k :: !MemberAt(s.members, k, m.companyId, m.userId)
    ensures OneMembershipEach(s.members[id := m])
    ensures OwnersAreMembers(s.companies, s.members[id := m])
  {
    var members := s.members[id := m];
    forall i, j | i in members && j in members && SamePlace(members[i], members[j])
      ensures i == j
    {
      assert i != id ==> !MemberAt(s.members, i, m.companyId, m.userId);
      assert j != id ==> !MemberAt(s.members, j, m.companyId, m.userId);
    }
    forall c | c in s.companies
      ensures HasOwner(members, c)
    {
      var k :| MemberAt(s.members, k, c.id, c.ownerId);
      assert MemberAt(members, k, c.id, c.ownerId);
    }
  }

  lemma HasCompanyGrows(companies: seq<Company>, c: Company, id: Id)
    ensures HasCompany(companies + [c], id) <==> HasCompany(companies, id) || c.id == id
  {
    assert forall d :: d in companies + [c] <==> d in companies || d == c;
  }

  lemma CompanyAdded(s: State, c: Company)
    requires Inv(s) && c.id == s.next && forall d <- s.companies :: d.ownerId != c.ownerId
    ensures OneCompanyEach(s.companies + [c])
    ensures forall id :: HasCompany(s.companies, id) ==> HasCompany(s.companies + [c], id)
    ensures forall m <- s.members :: s.members[m].companyId != c.id
  {
    var companies := s.companies + [c];
    forall i, j | 0 <= i < j < |companies|
      ensures DifferentCompanies(companies[i], companies[j])
    {
      assert s.companies[i] in s.companies;
    }
    forall id | HasCompany(s.companies, id)
      ensures HasCompany(companies, id)
    {
      HasCompanyGrows(s.companies, c, id);
    }
    assert forall m <- s.members :: HasCompany(s.companies, s.members[m].companyId);
  }

  ghost function WithWorkspace(s: State, user: Id): State {
    s.(companies := s.companies + [Company(s.next, user)],
       members := s.members[s.next + 1 := Member(s.next, user, OwnerRole)], next := s.next + 2)
  }

  lemma WorkspaceKeepsInv(s: State, user: Id)
    requires Inv(s) && user in s.users
    ensures Inv(HandleUser(s, EnsureWorkspace(user)).0)
  {
    hide Inv, CounterAhead, RefersToRows, WithWorkspace;
    DefaultIsOwned(s.companies, user);
    if DefaultCompany(s.companies, user).None? {
      WithWorkspaceKeepsInv(s, user);
      WorkspaceIsHandled(s, user);
    }
  }

  lemma WorkspaceIsHandled(s: State, user: Id)
    requires DefaultCompany(s.companies, user).None?
    ensures HandleUser(s, EnsureWorkspace(user)).0 == WithWorkspace(s, user)
  {
  }

  lemma WithWorkspaceKeepsInv(s: State, user: Id)
    requires Inv(s) && user in s.users && forall c <- s.companies :: c.ownerId != user
    ensures Inv(WithWorkspace(s, user))
  {
    hide HasCompany, OwnersAreMembers, OneMembershipEach, OneCompanyEach, MemberAt;
    var c, m := Company(s.next, user), Member(s.next, user, OwnerRole);
    var members := s.members[s.next + 1 := m];
    CompanyAdded(s, c);
    assert forall k :: !MemberAt(s.members, k, s.next, user) by {
      NotYetMember(s, s.next, user);
    }
    MemberAdded(s, s.next + 1, m);
    HasCompanyGrows(s.companies, c, s.next);
    assert MemberAt(members, s.next + 1, s.next, user) by {
      AddedIsThere(s.members, s.next + 1, m);
    }
    OwnerAdded(s.companies, c, members, s.next + 1);
  }

  lemma AddedIsThere(members: map<Id, Member>, id: Id, m: Member)
    ensures MemberAt(members[id := m], id, m.companyId, m.userId)
  {
  }

  lemma NotYetMember(s: State, companyId: Id, user: Id)
    requires forall m <- s.members :: s.members[m].companyId != companyId
    ensures forall k :: !MemberAt(s.members, k, companyId, user)
  {
  }

  lemma OwnerAdded(companies: seq<Company>, c: Company, members: map<Id, Member>, id: Id)
    requires OwnersAreMembers(companies, members) && MemberAt(members, id, c.id, c.ownerId)
    ensures OwnersAreMembers(companies + [c], members)
  {
    assert forall d :: d in companies + [c] <==> d in companies || d == c;
  }

  lemma InviteKeepsInv(s: State, user: Id, role: Role, now: int)
    requires Inv(s) && user in s.users
    ensures Inv(HandleUser(s, InviteMember(user, role, now)).0)
  {
    hide OwnersAreMembers, OneMembershipEach, OneCompanyEach;
    DefaultIsOwned(s.companies, user);
  }

  lemma AcceptKeepsInv(s: State, user: Id, token: Id, now: int)
    requires Inv(s) && user in s.users
    ensures Inv(HandleUser(s, AcceptInvite(user, token, now)).0)
  {
    hide HasCompany, OwnersAreMembers, OneMembershipEach, OneCompanyEach;
    if HandleUser(s, AcceptInvite(user, token, now)).1.Done? {
      var invite := s.invites[token];
      MemberAdded(s, s.next, Member(invite.companyId, user, invite.role));
    }
  }

  lemma UpdateRoleKeepsInv(s: State, user: Id, m: Id, role: Role)
    requires Inv(s) && user in s.users
    ensures Inv(HandleUser(s, UpdateRole(user, m, role)).0)
  {
    hide HasCompany, OneCompanyEach, RoleIn, MembershipOf, DefaultCompany;
    var after := HandleUser(s, UpdateRole(user, m, role)).0;
    forall c | c in s.companies
      ensures HasOwner(after.members, c)
    {
      var id :| MemberAt(s.members, id, c.id, c.ownerId);
      assert MemberAt(after.members, id, c.id, c.ownerId);
    }
    assert forall i, j :: i in s.members && j in s.members ==>
      (SamePlace(after.members[i], after.members[j]) <==> SamePlace(s.members[i], s.members[j]));
  }

  /** Removing never hits an owner's own membership: one acts on the company one owns, and not on
      oneself. */
  lemma RemoveKeepsInv(s: State, user: Id, m: Id)
    requires Inv(s) && user in s.users
    ensures Inv(HandleUser(s, RemoveMember(user, m)).0)
  {
    hide HasCompany, OneCompanyEach;
    if HandleUser(s, RemoveMember(user, m)).1.Done? {
      var members := s.members - {m};
      DefaultIsOwned(s.companies, user);
      forall c | c in s.companies
        ensures HasOwner(members, c)
      {
        var id :| MemberAt(s.members, id, c.id, c.ownerId);
        assert c == Company(c.id, c.ownerId);
        if id == m {
          OwnerUnique(s.companies, c.id, user, c.ownerId);
          assert false;
        }
        assert MemberAt(members, id, c.id, c.ownerId);
      }
    }
  }

  lemma {:induction false} WithoutOwnerKeepsOthers(companies: seq<Company>, user: Id)
    ensures forall c :: c in WithoutOwner(companies, user) <==> c in companies && c.ownerId != user
    ensures OneCompanyEach(companies) ==> OneCompanyEach(WithoutOwner(companies, user))
  {
    if companies != [] {
      var rest := WithoutOwner(companies[1..], user);
      WithoutOwnerKeepsOthers(companies[1..], user);
      assert companies == [companies[0]] + companies[1..];
      if OneCompanyEach(companies) {
        assert OneCompanyEach(companies[1..]);
        forall k | 0 <= k < |rest|
          ensures DifferentCompanies(companies[0], rest[k])
        {
          assert rest[k] in companies[1..];
        }
      }
    }
  }

  lemma EraseKeepsOwners(s: State, user: Id)
    requires Inv(s)
    ensures OwnersAreMembers(Erase(s, user).companies, Erase(s, user).members)
  {
    hide HasCompany, OneCompanyEach;
    var after := Erase(s, user);
    WithoutOwnerKeepsOthers(s.companies, user);
    forall c | c in after.companies
      ensures HasOwner(after.members, c)
    {
      var id :| MemberAt(s.members, id, c.id, c.ownerId);
      assert c == Company(c.id, c.ownerId);
      if OwnedBy(s.companies, c.id, user) {
        OwnerUnique(s.companies, c.id, user, c.ownerId);
        assert false;
      }
      assert MemberAt(after.members, id, c.id, c.ownerId);
    }
  }

  lemma CompanyStays(companies: seq<Company>, user: Id, id: Id)
    requires HasCompany(companies, id) && !OwnedBy(companies, id, user)
    ensures HasCompany(WithoutOwner(companies, user), id)
  {
    WithoutOwnerKeepsOthers(companies, user);
    var c :| c in companies && c.id == id;
    assert c == Company(c.id, c.ownerId);
    assert c in WithoutOwner(companies, user);
  }

  lemma EraseKeepsInv(s: State, user: Id)
    requires Inv(s) && user in s.users
    ensures Inv(Erase(s, user))
  {
    hide HasCompany, OneCompanyEach, OwnersAreMembers, OwnedBy, WithoutOwner;
    var after := Erase(s, user);
    WithoutOwnerKeepsOthers(s.companies, user);
    EraseKeepsOwners(s, user);
    forall m | m in after.members
      ensures HasCompany(after.companies, after.members[m].companyId)
    {
      CompanyStays(s.companies, user, s.members[m].companyId);
    }
    forall t | t in after.invites
      ensures HasCompany(after.companies, after.invites[t].companyId)
    {
      CompanyStays(s.companies, user, s.invites[t].companyId);
    }
  }

  lemma HandleKeepsInv(s: State, request: Request)
    requires Inv(s)
    ensures Inv(Handle(s, request).0)
  {
    if request.SignUp? {
      hide HasCompany, OwnersAreMembers, OneMembershipEach, OneCompanyEach;
    } else if request.user in s.users {
      hide Inv, HandleUser, Erase;
      match request
      case EnsureWorkspace(user) => WorkspaceKeepsInv(s, user);
      case InviteMember(user, role, now) => InviteKeepsInv(s, user, role, now);
      case AcceptInvite(user, token, now) => AcceptKeepsInv(s, user, token, now);
      case UpdateRole(user, m, role) => UpdateRoleKeepsInv(s, user, m, role);
      case RemoveMember(user, m) => RemoveKeepsInv(s, user, m);
      case EraseUser(user) =>
        EraseKeepsInv(s, user);
        EraseIsHandled(s, user);
    }
  }

  lemma EraseIsHandled(s: State, user: Id)
    ensures HandleUser(s, EraseUser(user)).0 == Erase(s, user)
  {
  }

  // ----- Whole runs -----

  const EMPTY := State({}, [], map[], map[], 0)

  ghost function Run(s: State, requests: seq<Request>): State {
    if requests == [] then s else Handle(Run(s, requests[..|requests| - 1]), requests[|requests| - 1]).0
  }

  /** In every run each company's owner is a member of it, nobody is twice a member of one company,
      and nobody owns two companies. */
  lemma {:induction false} RunKeepsInv(s: State, requests: seq<Request>)
    requires Inv(s)
    ensures Inv(Run(s, requests))
    decreases |requests|
  {
    hide Inv, Handle;
    if requests != [] {
      RunKeepsInv(s, requests[..|requests| - 1]);
      HandleKeepsInv(Run(s, requests[..|requests| - 1]), requests[|requests| - 1]);
    }
  }

  lemma EmptyIsSound()
    ensures Inv(EMPTY)
  {
  }

  lemma TeamsAreSound(requests: seq<Request>)
    ensures var s := Run(EMPTY, requests);
            OwnersAreMembers(s.companies, s.members) && OneMembershipEach(s.members) && OneCompanyEach(s.companies)
  {
    EmptyIsSound();
    RunKeepsInv(EMPTY, requests);
  }

  ghost predicate Accepts(s: State, request: Request, token: Id) {
    request.AcceptInvite? && request.token == token && Handle(s, request).1.Done?
  }

  ghost function TimesAccepted(s: State, requests: seq<Request>, token: Id): nat {
    if requests == [] then 0
    else
      var before, last := requests[..|requests| - 1], requests[|requests| - 1];
      TimesAccepted(s, before, token) + if Accepts(Run(s, before), last, token) then 1 else 0
  }

  lemma InvitesStep(s: State, request: Request, token: Id)
    requires Inv(s)
    ensures var after := Handle(s, request).0;
            && s.next <= after.next
            && (Accepts(s, request, token) ==> token in s.invites && token !in after.invites)
            && (token in after.invites && token !in s.invites ==> s.next <= token)
  {
    hide HasCompany, OwnersAreMembers, OneMembershipEach, OneCompanyEach, RefersToRows, MembershipOf;
  }

  /** Each invite is accepted at most once, and an accepted one is not there to be accepted again. */
  lemma {:induction false} AcceptedAtMostOnce(s: State, requests: seq<Request>, token: Id)
    requires Inv(s)
    ensures TimesAccepted(s, requests, token) <= 1
    ensures TimesAccepted(s, requests, token) == 1 ==>
              token !in Run(s, requests).invites && token < Run(s, requests).next
    decreases |requests|
  {
    hide Inv, Handle, Accepts;
    if requests != [] {
      var before, last := requests[..|requests| - 1], requests[|requests| - 1];
      AcceptedAtMostOnce(s, before, token);
      RunKeepsInv(s, before);
      RunKeepsInv(s, requests);
      InvitesStep(Run(s, before), last, token);
      InviteBelowCounter(Run(s, before), token);
    }
  }

  lemma InviteBelowCounter(s: State, token: Id)
    requires Inv(s)
    ensures token in s.invites ==> token < s.next
  {
  }

  // ----- Counting memberships -----

  ghost function Accepted(s: State, requests: seq<Request>): nat {
    if requests == [] then 0
    else
      var before, last := requests[..|requests| - 1], requests[|requests| - 1];
      Accepted(s, before) + if last.AcceptInvite? && Handle(Run(s, before), last).1.Done? then 1 else 0
  }

  ghost function Removed(s: State, requests: seq<Request>): nat {
    if requests == [] then 0
    else
      var before, last := requests[..|requests| - 1], requests[|requests| - 1];
      Removed(s, before) + if last.RemoveMember? && Handle(Run(s, before), last).1.Done? then 1 else 0
  }

  lemma AddedCounts(members: map<Id, Member>, id: Id, m: Member)
    requires id !in members
    ensures |members[id := m]| == |members| + 1
  {
    assert members[id := m].Keys == members.Keys + {id};
  }

  lemma UpdatedCounts(members: map<Id, Member>, id: Id, m: Member)
    requires id in members
    ensures |members[id := m]| == |members|
  {
    assert members[id := m].Keys == members.Keys;
  }

  lemma RemovedCounts(members: map<Id, Member>, id: Id)
    requires id in members
    ensures |members - {id}| == |members| - 1
  {
    assert (members - {id}).Keys == members.Keys - {id};
    assert |members.Keys - {id}| == |members.Keys| - 1;
  }

  lemma CountStep(s: State, request: Request)
    requires CounterAhead(s) && !request.EraseUser?
    ensures var (after, reply) := Handle(s, request);
            |after.members| - |after.companies| == |s.members| - |s.companies|
              + (if request.AcceptInvite? && reply.Done? then 1 else 0)
              - (if request.RemoveMember? && reply.Done? then 1 else 0)
  {
    hide RoleIn, MembershipOf, DefaultCompany, Erase;
    if Handle(s, request).1.Done? {
      match request
      case SignUp =>
      case EnsureWorkspace(user) => AddedCounts(s.members, s.next + 1, Member(s.next, user, OwnerRole));
      case InviteMember(user, role, now) =>
      case AcceptInvite(user, token, now) =>
        AddedCounts(s.members, s.next, Member(s.invites[token].companyId, user, s.invites[token].role));
      case UpdateRole(user, m, role) => UpdatedCounts(s.members, m, s.members[m].(role := role));
      case RemoveMember(user, m) => RemovedCounts(s.members, m);
    }
  }

  lemma InvHasCounter(s: State)
    requires Inv(s)
    ensures CounterAhead(s)
  {
  }

  /** While nobody is erased, there are as many memberships as workspaces and accepted invites, less
      the removed ones. */
  lemma {:induction false} MembershipsAddUp(s: State, requests: seq<Request>)
    requires Inv(s) && forall r <- requests :: !r.EraseUser?
    ensures |Run(s, requests).members| - |Run(s, requests).companies| + Removed(s, requests)
            == |s.members| - |s.companies| + Accepted(s, requests)
    decreases |requests|
  {
    hide Inv, Handle;
    if requests != [] {
      var before, last := requests[..|requests| - 1], requests[|requests| - 1];
      MembershipsAddUp(s, before);
      RunKeepsInv(s, before);
      InvHasCounter(Run(s, before));
      CountStep(Run(s, before), last);
    }
  }

  // ----- What an invite leads to -----

  lemma InviteRowStep(s: State, request: Request, token: Id)
    requires CounterAhead(s) && token < s.next && token in Handle(s, request).0.invites
    ensures token in s.invites && Handle(s, request).0.invites[token] == s.invites[token]
  {
    hide RoleIn, MembershipOf, DefaultCompany;
  }

  /** An invite row does not change while it is there, and does not come back. */
  lemma {:induction false} InviteRowStays(s: State, requests: seq<Request>, token: Id)
    requires Inv(s) && token < s.next
    ensures token < Run(s, requests).next
    ensures token in Run(s, requests).invites ==>
              token in s.invites && Run(s, requests).invites[token] == s.invites[token]
    decreases |requests|
  {
    hide Inv, Handle;
    if requests != [] {
      var before, last := requests[..|requests| - 1], requests[|requests| - 1];
      InviteRowStays(s, before, token);
      RunKeepsInv(s, before);
      InvHasCounter(Run(s, before));
      InvitesStep(Run(s, before), last, token);
      if token in Run(s, requests).invites {
        InviteRowStep(Run(s, before), last, token);
      }
    }
  }

  /** Whenever an invite is accepted, the membership is in the company of the one who invited, with
      the role that was offered, and within seven days; and it can be accepted exactly by a user who
      is not a member yet, while it is there and not expired. */
  lemma InviteGrantsItsRole(s: State, user: Id, role: Role, now: int, requests: seq<Request>, joiner: Id, later: int)
    requires Inv(s) && Handle(s, InviteMember(user, role, now)).1.Done?
    ensures var (invited, issued) := Handle(s, InviteMember(user, role, now));
            var own, meanwhile := DefaultCompany(s.companies, user), Run(invited, requests);
            var (joined, reply) := Handle(meanwhile, AcceptInvite(joiner, issued.id, later));
            && own.Some?
            && (reply.Done? <==> joiner in meanwhile.users && issued.id in meanwhile.invites
                                 && later < now + INVITE_EXPIRY_MS && RoleIn(meanwhile, own.value, joiner).None?)
            && (reply.Done? ==>
                  reply.id in joined.members && joined.members[reply.id] == Member(own.value, joiner, role))
  {
    hide RoleIn, MembershipOf, DefaultCompany, Inv;
    var (invited, issued) := Handle(s, InviteMember(user, role, now));
    HandleKeepsInv(s, InviteMember(user, role, now));
    InviteRowStays(invited, requests, issued.id);
  }

  /** A removal takes one row: the named one, of the remover's own company and of somebody else. */
  lemma RemovalIsExact(s: State, user: Id, m: Id)
    requires Inv(s) && Handle(s, RemoveMember(user, m)).1.Done?
    ensures var own, after := DefaultCompany(s.companies, user), Handle(s, RemoveMember(user, m)).0;
            && own.Some? && m in s.members && s.members[m].companyId == own.value && s.members[m].userId != user
            && after.members.Keys == s.members.Keys - {m}
            && (forall k <- after.members :: after.members[k] == s.members[k])
            && after.companies == s.companies && after.invites == s.invites && after.users == s.users
  {
  }

  // ----- Who manages a team -----

  predicate Manages(request: Request) {
    request.InviteMember? || request.UpdateRole? || request.RemoveMember?
  }

  /** Only its owner manages a company: whatever role another user has in it, that user's requests
      leave its members and invites alone, other than by accepting an invite. */
  lemma OnlyOwnerManages(s: State, request: Request, c: Company)
    requires Inv(s) && Manages(request) && c in s.companies && c.ownerId != request.user
    ensures var after := Handle(s, request).0;
            && (forall m :: m in s.members && s.members[m].companyId == c.id ==>
                  m in after.members && after.members[m] == s.members[m])
            && (forall m :: m in after.members && after.members[m].companyId == c.id ==> m in s.members)
            && (forall t :: t in after.invites && after.invites[t].companyId == c.id ==> t in s.invites)
  {
    hide HasCompany, OwnersAreMembers, OneMembershipEach, OneCompanyEach, RefersToRows, MembershipOf, DefaultCompany;
    DefaultIsOwned(s.companies, request.user);
    var own := DefaultCompany(s.companies, request.user);
    if own.Some? && own.value == c.id {
      assert c == Company(c.id, c.ownerId);
      OwnerUnique(s.companies, c.id, request.user, c.ownerId);
    }
  }

  /** A user owns a company and has this role in it. */
  ghost predicate OwnerWithRole(s: State, c: Company, role: Role) {
    c in s.companies && RoleIn(s, c.id, c.ownerId) == Some(role)
  }

  lemma RoleOfMember(s: State, id: Id, companyId: Id, user: Id)
    requires OneMembershipEach(s.members) && MemberAt(s.members, id, companyId, user)
    ensures MembershipOf(s.members, companyId, user) == Some(id)
    ensures RoleIn(s, companyId, user) == Some(s.members[id].role)
  {
    var m := MembershipOf(s.members, companyId, user);
    assert SamePlace(s.members[m.value], s.members[id]);
  }

  /** Whoever changes a role has the owner role in the company of that member, and owns it. */
  lemma RoleChangeNeedsOwnerRole(s: State, request: Request, id: Id)
    requires Inv(s) && id in s.members
    requires var after := Handle(s, request).0; id in after.members && after.members[id].role != s.members[id].role
    ensures request.UpdateRole? && OwnedBy(s.companies, s.members[id].companyId, request.user)
    ensures RoleIn(s, s.members[id].companyId, request.user) == Some(OwnerRole)
  {
    hide HasCompany, OwnersAreMembers, OneMembershipEach, OneCompanyEach, RefersToRows, MembershipOf, DefaultCompany;
    DefaultIsOwned(s.companies, request.user);
  }

  /** Companies and owners' memberships go only with the owner. */
  lemma OwnersRowStays(s: State, request: Request, c: Company, id: Id)
    requires Inv(s) && c in s.companies && MemberAt(s.members, id, c.id, c.ownerId) && request != EraseUser(c.ownerId)
    ensures c in Handle(s, request).0.companies
    ensures MemberAt(Handle(s, request).0.members, id, c.id, c.ownerId)
  {
    hide HasCompany, OwnersAreMembers, OneMembershipEach, OneCompanyEach, RefersToRows, MembershipOf, DefaultCompany;
    assert c == Company(c.id, c.ownerId);
    if request.EraseUser? {
      WithoutOwnerKeepsOthers(s.companies, request.user);
      if OwnedBy(s.companies, c.id, request.user) {
        OwnerUnique(s.companies, c.id, request.user, c.ownerId);
      }
    }
    if request.RemoveMember? {
      DefaultIsOwned(s.companies, request.user);
      if OwnedBy(s.companies, c.id, request.user) {
        OwnerUnique(s.companies, c.id, request.user, c.ownerId);
      }
    }
  }

  /** An owner who has given up the owner role never gets it back: no request of anybody changes the
      owner's role from then on, and the owner's own attempts to change roles are refused. */
  lemma {:induction false} DemotionIsFinal(s: State, requests: seq<Request>, c: Company, role: Role)
    requires Inv(s) && OwnerWithRole(s, c, role) && role != OwnerRole
    requires EraseUser(c.ownerId) !in requests
    ensures OwnerWithRole(Run(s, requests), c, role)
    decreases |requests|
  {
    hide Inv, Handle;
    if requests != [] {
      var before, last := requests[..|requests| - 1], requests[|requests| - 1];
      DemotionIsFinal(s, before, c, role);
      RunKeepsInv(s, before);
      RunKeepsInv(s, requests);
      DemotedStep(Run(s, before), last, c, role);
    }
  }

  lemma DemotedStep(s: State, request: Request, c: Company, role: Role)
    requires Inv(s) && Inv(Handle(s, request).0)
    requires OwnerWithRole(s, c, role) && role != OwnerRole && request != EraseUser(c.ownerId)
    ensures OwnerWithRole(Handle(s, request).0, c, role)
  {
    hide HasCompany, OwnersAreMembers, OneMembershipEach, OneCompanyEach, RefersToRows, Handle;
    var after := Handle(s, request).0;
    var id := MembershipOf(s.members, c.id, c.ownerId).value;
    OwnersRowStays(s, request, c, id);
    if after.members[id].role != s.members[id].role {
      RoleChangeNeedsOwnerRole(s, request, id);
      assert c == Company(c.id, c.ownerId);
      OwnerUnique(s.companies, c.id, request.user, c.ownerId);
    }
    RoleOfMember(after, id, c.id, c.ownerId);
  }

  /** Without the owner role an owner can change no role, and as a plain member manage nothing at all. */
  lemma DemotedOwnerIsRefused(s: State, c: Company, role: Role, request: Request)
    requires Inv(s) && OwnerWithRole(s, c, role) && role != OwnerRole && Manages(request) && request.user == c.ownerId
    requires request.UpdateRole? || role == MemberRole
    ensures Handle(s, request) == (s, InsufficientPermissions)
  {
    hide HasCompany, OwnersAreMembers, OneMembershipEach, MembershipOf, DefaultCompany;
    DefaultIsOwned(s.companies, c.ownerId);
    assert c == Company(c.id, c.ownerId);
    var own := DefaultCompany(s.companies, c.ownerId);
    assert own.Some?;
    SameOwnerSameCompany(s.companies, own.value, c.id, c.ownerId);
  }

  lemma SameOwnerSameCompany(companies: seq<Company>, a: Id, b: Id, user: Id)
    requires OneCompanyEach(companies) && OwnedBy(companies, a, user) && OwnedBy(companies, b, user)
    ensures a == b
  {
    var i :| 0 <= i < |companies| && companies[i] == Company(a, user);
    var j :| 0 <= j < |companies| && companies[j] == Company(b, user);
  }

  /** Any owner can bring this about by one request. */
  lemma OwnerCanDemoteSelf(s: State, c: Company, role: Role)
    requires Inv(s) && OwnerWithRole(s, c, OwnerRole)
    ensures var id := MembershipOf(s.members, c.id, c.ownerId).value;
            var (after, reply) := Handle(s, UpdateRole(c.ownerId, id, role));
            reply == Done(id) && OwnerWithRole(after, c, role)
  {
    hide HasCompany, OwnersAreMembers, DefaultCompany;
    DefaultIsOwned(s.companies, c.ownerId);
    assert c == Company(c.id, c.ownerId);
    var own := DefaultCompany(s.companies, c.ownerId);
    assert own.Some?;
    SameOwnerSameCompany(s.companies, own.value, c.id, c.ownerId);
    var id := MembershipOf(s.members, c.id, c.ownerId).value;
    HandleKeepsInv(s, UpdateRole(c.ownerId, id, role));
    RoleOfMember(Handle(s, UpdateRole(c.ownerId, id, role)).0, id, c.id, c.ownerId);
  }

  // ----- Who gets what -----

  /** The company that a request of an owner acts on. */
  lemma ActsOnOwn(s: State, c: Company, role: Role)
    requires Inv(s) && OwnerWithRole(s, c, role)
    ensures DefaultCompany(s.companies, c.ownerId) == Some(c.id) && c.ownerId in s.users
  {
    hide HasCompany, OwnersAreMembers, OneMembershipEach, MembershipOf, DefaultCompany, OneCompanyEach;
    DefaultIsOwned(s.companies, c.ownerId);
    assert c == Company(c.id, c.ownerId);
    var own := DefaultCompany(s.companies, c.ownerId);
    assert own.Some?;
    SameOwnerSameCompany(s.companies, own.value, c.id, c.ownerId);
  }

  /** Owners with the owner or the admin role can invite, others cannot; the invite is into their
      company, offers the role asked for and is good for seven days. */
  lemma InvitesIff(s: State, c: Company, role: Role, offered: Role, now: int)
    requires Inv(s) && OwnerWithRole(s, c, role)
    ensures var (after, reply) := Handle(s, InviteMember(c.ownerId, offered, now));
            && (reply.Done? <==> role != MemberRole)
            && (reply.Done? ==>
                  && reply.id !in s.invites
                  && after.invites == s.invites[reply.id := Invite(c.id, offered, c.ownerId, now + 604800000)]
                  && after.members == s.members && after.companies == s.companies && after.users == s.users)
            && (!reply.Done? ==> reply == InsufficientPermissions && after == s)
  {
    ActsOnOwn(s, c, role);
    hide HasCompany, OwnersAreMembers, OneMembershipEach, MembershipOf, DefaultCompany, OneCompanyEach;
  }

  /** Owners with the owner role can give any member of their company any role. */
  lemma RoleIsSetIff(s: State, c: Company, role: Role, m: Id, wanted: Role)
    requires Inv(s) && OwnerWithRole(s, c, role)
    ensures var (after, reply) := Handle(s, UpdateRole(c.ownerId, m, wanted));
            var there := m in s.members && s.members[m].companyId == c.id;
            && (reply.Done? <==> role == OwnerRole && there)
            && (reply.Done? ==> after == s.(members := s.members[m := Member(c.id, s.members[m].userId, wanted)]))
            && (!reply.Done? ==> after == s)
            && (reply == MemberNotFound <==> role == OwnerRole && !there)
            && (reply == InsufficientPermissions <==> role != OwnerRole)
  {
    ActsOnOwn(s, c, role);
    hide HasCompany, OwnersAreMembers, OneMembershipEach, MembershipOf, DefaultCompany, OneCompanyEach;
  }

  /** Owners can remove members of their company other than themselves: with the owner role all of them,
      with the admin role all that do not have the owner role, as plain members none. */
  lemma RemovesIff(s: State, c: Company, role: Role, m: Id)
    requires Inv(s) && OwnerWithRole(s, c, role)
    ensures var (after, reply) := Handle(s, RemoveMember(c.ownerId, m));
            && (reply.Done? <==>
                  && m in s.members && s.members[m].companyId == c.id && s.members[m].userId != c.ownerId
                  && (role == OwnerRole || (role == AdminRole && s.members[m].role != OwnerRole)))
            && (reply.Done? ==> after == s.(members := s.members - {m}))
            && (!reply.Done? ==> after == s)
            && (reply == MemberNotFound <==> role != MemberRole && !(m in s.members && s.members[m].companyId == c.id))
  {
    ActsOnOwn(s, c, role);
    hide HasCompany, OwnersAreMembers, OneMembershipEach, MembershipOf, DefaultCompany, OneCompanyEach;
  }

  /** Who owns no company manages none, and who does not exist does nothing. */
  lemma OthersAreRefused(s: State, request: Request)
    requires Inv(s) && !request.SignUp?
    ensures request.user !in s.users ==> Handle(s, request) == (s, Unauthorized)
    ensures request.user in s.users && Manages(request) && (forall c <- s.companies :: c.ownerId != request.user) ==>
              Handle(s, request) == (s, if request.InviteMember? then InsufficientPermissions else MemberNotFound)
  {
    DefaultIsOwned(s.companies, request.user);
    hide HasCompany, OwnersAreMembers, OneMembershipEach, MembershipOf, DefaultCompany, OneCompanyEach;
  }

  /** Why an invite cannot be accepted, in this order: it is not there, its time is over, or the user is
      a member already. */
  lemma AcceptIsRefusedIff(s: State, user: Id, token: Id, now: int)
    requires Inv(s) && user in s.users
    ensures var (after, reply) := Handle(s, AcceptInvite(user, token, now));
            var there := token in s.invites;
            var over := there && s.invites[token].expiresAt <= now;
            var member := there && exists m :: m in s.members && s.members[m].userId == user
                                               && s.members[m].companyId == s.invites[token].companyId;
            && (reply == InviteNotFound <==> !there)
            && (reply == InviteExpired <==> over)
            && (reply == AlreadyMember <==> there && !over && member)
            && (reply.Done? <==> there && !over && !member)
            && (!reply.Done? ==> after == s)
  {
    hide HasCompany, OwnersAreMembers, OneMembershipEach, OneCompanyEach, DefaultCompany;
    if token in s.invites {
      if m :| m in s.members && s.members[m].userId == user && s.members[m].companyId == s.invites[token].companyId {
        assert MemberAt(s.members, m, s.invites[token].companyId, user);
      }
    }
  }

  /** A user who owns no company gets one, with an owner's membership in it, and nothing else changes. */
  lemma WorkspaceIsMade(s: State, user: Id)
    requires Inv(s) && user in s.users && forall c <- s.companies :: c.ownerId != user
    ensures var (after, reply) := Handle(s, EnsureWorkspace(user));
            && reply.Done? && after.companies == s.companies + [Company(reply.id, user)]
            && s.next + 1 !in s.members
            && after.members == s.members[s.next + 1 := Member(reply.id, user, OwnerRole)]
            && after.invites == s.invites && after.users == s.users
  {
    DefaultIsOwned(s.companies, user);
    hide HasCompany, OwnersAreMembers, MembershipOf, DefaultCompany, OneCompanyEach, OneMembershipEach;
  }

  /** One who owns a company keeps everything as it is. */
  lemma WorkspaceStays(s: State, c: Company)
    requires Inv(s) && c in s.companies
    ensures Handle(s, EnsureWorkspace(c.ownerId)) == (s, Done(c.id))
  {
    hide HasCompany, OwnersAreMembers, OneMembershipEach, MembershipOf, DefaultCompany, OneCompanyEach;
    DefaultIsOwned(s.companies, c.ownerId);
    assert c == Company(c.id, c.ownerId);
    var own := DefaultCompany(s.companies, c.ownerId);
    assert own.Some?;
    SameOwnerSameCompany(s.companies, own.value, c.id, c.ownerId);
  }

  /** An erasure takes the user, the user's companies, memberships and invites, and what is inside the
      companies, and leaves every other row as it is. */
  lemma EraseIsExact(s: State, user: Id)
    requires Inv(s) && user in s.users
    ensures var (after, reply) := Handle(s, EraseUser(user));
            && reply == Done(user) && after.users == s.users - {user}
            && (forall c :: c in after.companies <==> c in s.companies && c.ownerId != user)
            && (forall m :: m in after.members <==>
                  && m in s.members && s.members[m].userId != user
                  && Company(s.members[m].companyId, user) !in s.companies)
            && (forall m <- after.members :: after.members[m] == s.members[m])
            && (forall t :: t in after.invites <==>
                  && t in s.invites && s.invites[t].invitedBy != user
                  && Company(s.invites[t].companyId, user) !in s.companies)
            && (forall t <- after.invites :: after.invites[t] == s.invites[t])
  {
    hide HasCompany, OwnersAreMembers, MembershipOf, DefaultCompany, OneCompanyEach, OneMembershipEach;
    WithoutOwnerKeepsOthers(s.companies, user);
  }

  // ----- The service -----

  /** The requests as the service carries them out. Users have been authenticated, so they exist. */
  class TeamService {
    var users: set<Id>
    var companies: seq<Company>
    var members: map<Id, Member>
    var invites: map<Id, Invite>
    var next: Id

    ghost function Tables(): State
      reads this
    {
      State(users, companies, members, invites, next)
    }

    ghost predicate Valid()
      reads this
    {
      Inv(Tables())
    }

    constructor ()
      ensures Tables() == EMPTY && Valid()
    {
      users, companies, members, invites, next := {}, [], map[], map[], 0;
    }

    method FindMembership(companyId: Id, user: Id) returns (m: Option<Id>)
      requires OneMembershipEach(members)
      ensures m == MembershipOf(members, companyId, user)
    {
      if id :| id in members && MemberAt(members, id, companyId, user) {
        RoleOfMember(Tables(), id, companyId, user);
        return Some(id);
      }
      return None;
    }

    method EnsureDefaultWorkspace(user: Id) returns (reply: Reply)
      requires Valid() && user in users
      modifies this
      ensures (Tables(), reply) == HandleUser(old(Tables()), EnsureWorkspace(user)) && Valid()
    {
      HandleKeepsInv(Tables(), EnsureWorkspace(user));
      hide Inv;
      var existing := DefaultCompany(companies, user);
      if existing.Some? {
        return Done(existing.value);
      }
      var company := Company(next, user);
      companies := companies + [company];
      members := members[next + 1 := Member(company.id, user, OwnerRole)];
      next := next + 2;
      reply := Done(company.id);
    }

    method InviteTeamMember(user: Id, role: Role, now: int) returns (reply: Reply)
      requires Valid() && user in users
      modifies this
      ensures (Tables(), reply) == HandleUser(old(Tables()), InviteMember(user, role, now)) && Valid()
    {
      HandleKeepsInv(Tables(), InviteMember(user, role, now));
      var company := DefaultCompany(companies, user);
      if company.None? {
        return InsufficientPermissions;
      }
      var member := FindMembership(company.value, user);
      hide Inv;
      if member.None? || (members[member.value].role != OwnerRole && members[member.value].role != AdminRole) {
        return InsufficientPermissions;
      }
      invites := invites[next := Invite(company.value, role, user, now + INVITE_EXPIRY_MS)];
      reply := Done(next);
      next := next + 1;
    }

    method Accept(user: Id, token: Id, now: int) returns (reply: Reply)
      requires Valid() && user in users
      modifies this
      ensures (Tables(), reply) == HandleUser(old(Tables()), AcceptInvite(user, token, now)) && Valid()
    {
      HandleKeepsInv(Tables(), AcceptInvite(user, token, now));
      if token !in invites {
        return InviteNotFound;
      }
      var invite := invites[token];
      if invite.expiresAt <= now {
        return InviteExpired;
      }
      var existing := FindMembership(invite.companyId, user);
      hide Inv;
      if existing.Some? {
        return AlreadyMember;
      }
      members := members[next := Member(invite.companyId, user, invite.role)];
      invites := invites - {token};
      reply := Done(next);
      next := next + 1;
    }

    method UpdateTeamMemberRole(user: Id, memberId: Id, role: Role) returns (reply: Reply)
      requires Valid() && user in users
      modifies this
      ensures (Tables(), reply) == HandleUser(old(Tables()), UpdateRole(user, memberId, role)) && Valid()
    {
      HandleKeepsInv(Tables(), UpdateRole(user, memberId, role));
      var company := DefaultCompany(companies, user);
      if company.None? {
        return MemberNotFound;
      }
      var owner := FindMembership(company.value, user);
      hide Inv;
      if owner.None? || members[owner.value].role != OwnerRole {
        return InsufficientPermissions;
      }
      if memberId !in members || members[memberId].companyId != company.value {
        return MemberNotFound;
      }
      members := members[memberId := members[memberId].(role := role)];
      reply := Done(memberId);
    }

    method RemoveTeamMember(user: Id, memberId: Id) returns (reply: Reply)
      requires Valid() && user in users
      modifies this
      ensures (Tables(), reply) == HandleUser(old(Tables()), RemoveMember(user, memberId)) && Valid()
    {
      HandleKeepsInv(Tables(), RemoveMember(user, memberId));
      var company := DefaultCompany(companies, user);
      if company.None? {
        return MemberNotFound;
      }
      var current := FindMembership(company.value, user);
      hide Inv;
      if current.None? || members[current.value].role == MemberRole {
        return InsufficientPermissions;
      }
      if memberId !in members || members[memberId].companyId != company.value {
        return MemberNotFound;
      }
      if members[memberId].userId == user {
        return InsufficientPermissions;
      }
      if members[current.value].role != OwnerRole && members[memberId].role == OwnerRole {
        return InsufficientPermissions;
      }
      members := members - {memberId};
      reply := Done(memberId);
    }
  }
}
