/** Erasing a user: six deletes in one transaction, under the foreign keys of the schema. */
module UserErasure {
  import opened Options

  datatype Table =
    | Users | AdminUsers | RefreshTokens | AdminRefreshTokens
    | Companies | CompanyMembers | CompanyInvites
    | Guilds | GuildModules | ServerSettings | Counters | Widgets | GuildLogSettings | GuildWelcomeGoodbyeSettings
    | SubscriptionPlans | PlanLimits | UserSubscriptions | Invoices | UsageLimits | ActivityLog

  datatype Column = UserId | OwnerId | CompanyId | InvitedBy | GuildId | PlanId | AdminUserId

  /** What deleting the referenced row does. */
  datatype OnDelete = NoAction | Cascade | SetNull

  datatype ForeignKey = ForeignKey(target: Table, onDelete: OnDelete)

  /** The foreign keys of the migrations. */
  function KeyOf(table: Table, column: Column): Option<ForeignKey> {
    match (table, column)
    case (RefreshTokens, UserId) => Some(ForeignKey(Users, Cascade))
    case (AdminRefreshTokens, AdminUserId) => Some(ForeignKey(AdminUsers, Cascade))
    case (Companies, OwnerId) => Some(ForeignKey(Users, NoAction))
    case (CompanyMembers, CompanyId) => Some(ForeignKey(Companies, Cascade))
    case (CompanyMembers, UserId) => Some(ForeignKey(Users, NoAction))
    case (CompanyInvites, CompanyId) => Some(ForeignKey(Companies, Cascade))
    case (CompanyInvites, InvitedBy) => Some(ForeignKey(Users, NoAction))
    case (Guilds, OwnerId) => Some(ForeignKey(Users, NoAction))
    case (GuildModules, GuildId) => Some(ForeignKey(Guilds, Cascade))
    case (ServerSettings, GuildId) => Some(ForeignKey(Guilds, Cascade))
    case (Counters, GuildId) => Some(ForeignKey(Guilds, Cascade))
    case (Widgets, GuildId) => Some(ForeignKey(Guilds, Cascade))
    case (GuildLogSettings, GuildId) => Some(ForeignKey(Guilds, Cascade))
    case (GuildWelcomeGoodbyeSettings, GuildId) => Some(ForeignKey(Guilds, Cascade))
    case (PlanLimits, PlanId) => Some(ForeignKey(SubscriptionPlans, NoAction))
    case (UserSubscriptions, UserId) => Some(ForeignKey(Users, NoAction))
    case (UserSubscriptions, PlanId) => Some(ForeignKey(SubscriptionPlans, NoAction))
    case (Invoices, UserId) => Some(ForeignKey(Users, SetNull))
    case (UsageLimits, UserId) => Some(ForeignKey(Users, Cascade))
    case (ActivityLog, UserId) => Some(ForeignKey(Users, SetNull))
    case (ActivityLog, AdminUserId) => Some(ForeignKey(AdminUsers, SetNull))
    case _ => None
  }

  datatype Key = Key(table: Table, id: nat)

  /** A row: the rows it refers to, a column that is null being absent, and the rest of its data. */
  datatype Row = Row(refs: map<Column, Key>, data: nat)

  type Rows = map<Key, Row>

  /** Row k refers to row t by a foreign key of the given kind. */
  predicate Refers(rows: Rows, k: Key, t: Key, onDelete: OnDelete)
    requires k in rows
  {
    exists c | c in rows[k].refs :: RefersBy(rows[k], k.table, c, t, onDelete)
  }

  predicate RefersBy(row: Row, table: Table, c: Column, t: Key, onDelete: OnDelete) {
    && c in row.refs && row.refs[c] == t
    && KeyOf(table, c).Some? && KeyOf(table, c).value.onDelete == onDelete
  }

  /** What the database guarantees: every reference is to a row that exists, of the right table, and
      only references that deletes may null can be missing. */
  ghost predicate Consistent(rows: Rows) {
    && (forall k, c :: k in rows && c in rows[k].refs ==> GoodRef(rows, k.table, c, rows[k].refs[c]))
    && (forall k, c :: k in rows && Required(k.table, c) ==> c in rows[k].refs)
  }

  predicate GoodRef(rows: Rows, table: Table, c: Column, t: Key) {
    KeyOf(table, c).Some? && KeyOf(table, c).value.target == t.table && t in rows
  }

  predicate Required(table: Table, c: Column) {
    KeyOf(table, c).Some? && KeyOf(table, c).value.onDelete != SetNull
  }

  // ----- One delete statement -----

  /** The rows that refer into a set by a cascading key. */
  function Children(rows: Rows, gone: set<Key>): set<Key> {
    set k | k in rows && exists t :: t in gone && Refers(rows, k, t, Cascade)
  }

  /** A set of rows with everything that a delete cascades to. */
  function Closure(rows: Rows, gone: set<Key>): set<Key>
    decreases rows.Keys - gone
  {
    var more := Children(rows, gone) - gone;
    if more == {} then gone
    else
      assert more <= rows.Keys - gone;
      Closure(rows, gone + more)
  }

  /** No row that stays refers to one that goes by a key without action. */
  predicate Permitted(rows: Rows, doomed: set<Key>) {
    var gone := Closure(rows, doomed);
    forall k, t :: k in rows && k !in gone && t in gone ==> !Refers(rows, k, t, NoAction)
  }

  /** A row without its nullable references to rows that go. */
  function Nulled(row: Row, table: Table, gone: set<Key>): Row {
    row.(refs := map c | c in row.refs && !(row.refs[c] in gone && RefersBy(row, table, c, row.refs[c], SetNull))
                       :: row.refs[c])
  }

  function Removed(rows: Rows, doomed: set<Key>): Rows {
    var gone := Closure(rows, doomed);
    map k | k in rows && k !in gone :: Nulled(rows[k], k.table, gone)
  }

  /** The rows of a table whose column holds the user. */
  function RowsOf(rows: Rows, table: Table, column: Column, user: Key): set<Key> {
    set k | k in rows && k.table == table && column in rows[k].refs && rows[k].refs[column] == user
  }

  // ----- What the erasure leaves -----

  /** The rows an erasure removes: the user, the rows that cannot do without the user, and the rows
      inside a guild or company that is among these. */
  predicate Gone(rows: Rows, user: Key, k: Key)
    requires k in rows
  {
    || k == user || Refers(rows, k, user, NoAction) || Refers(rows, k, user, Cascade)
    || exists t | t in rows :: Refers(rows, t, user, NoAction) && Refers(rows, k, t, Cascade)
  }

  function Erased(rows: Rows, user: Key): Rows {
    map k | k in rows && !Gone(rows, user, k) :: Nulled(rows[k], k.table, {user})
  }

  // ----- The deletes, one after another -----

  /** The rows that hold what others refer to, never inside something else. */
  predicate IsRoot(table: Table) {
    table in {Users, AdminUsers, SubscriptionPlans}
  }

  /** No row refers to a row that a delete can cascade to, and keys that do not cascade refer to
      users, admins and plans only. */
  lemma SchemaShape(t1: Table, c1: Column, t2: Table, c2: Column)
    requires KeyOf(t1, c1).Some? && KeyOf(t2, c2).Some?
    ensures KeyOf(t1, c1).value.onDelete == Cascade ==> KeyOf(t2, c2).value.target != t1 && !IsRoot(t1)
    ensures KeyOf(t1, c1).value.onDelete != Cascade ==> IsRoot(KeyOf(t1, c1).value.target)
  {
  }

  lemma NothingInsideChildren(rows: Rows, k: Key, t: Key, top: Key, onDelete: OnDelete)
    requires Consistent(rows) && k in rows && t in rows && Refers(rows, t, top, Cascade)
    ensures !Refers(rows, k, t, onDelete) && !IsRoot(t.table)
  {
    var c1 :| c1 in rows[t].refs && RefersBy(rows[t], t.table, c1, top, Cascade);
    SchemaShape(t.table, c1, t.table, c1);
    if Refers(rows, k, t, onDelete) {
      var c2 :| c2 in rows[k].refs && RefersBy(rows[k], k.table, c2, t, onDelete);
      assert GoodRef(rows, k.table, c2, t);
      SchemaShape(t.table, c1, k.table, c2);
    }
  }

  lemma OnlyCascadeToInner(rows: Rows, k: Key, t: Key, onDelete: OnDelete)
    requires Consistent(rows) && k in rows && onDelete != Cascade && !IsRoot(t.table)
    ensures !Refers(rows, k, t, onDelete)
  {
    if Refers(rows, k, t, onDelete) {
      var c :| c in rows[k].refs && RefersBy(rows[k], k.table, c, t, onDelete);
      assert GoodRef(rows, k.table, c, t);
      SchemaShape(k.table, c, k.table, c);
    }
  }

  /** Deletes cascade one level deep. */
  lemma ClosureIsOneLevel(rows: Rows, doomed: set<Key>)
    requires Consistent(rows)
    ensures Closure(rows, doomed) == doomed + Children(rows, doomed)
  {
    var more := Children(rows, doomed) - doomed;
    if more != {} {
      forall k | k in Children(rows, doomed + more)
        ensures k in doomed + more
      {
        var t :| t in doomed + more && Refers(rows, k, t, Cascade);
        if t in more {
          var top :| top in doomed && Refers(rows, t, top, Cascade);
          NothingInsideChildren(rows, k, t, top, Cascade);
        }
      }
      assert Children(rows, doomed + more) - (doomed + more) == {};
      assert doomed + more == doomed + Children(rows, doomed);
    } else {
      assert doomed == doomed + Children(rows, doomed);
    }
  }

  function Without(rows: Rows, gone: set<Key>): Rows {
    map k | k in rows && k !in gone :: rows[k]
  }

  /** Rows that are not users, admins or plans go with what is inside them, and nothing stands in
      the way or is nulled. */
  lemma InnerDelete(rows: Rows, doomed: set<Key>)
    requires Consistent(rows) && forall k <- doomed :: !IsRoot(k.table)
    ensures Permitted(rows, doomed)
    ensures Removed(rows, doomed) == Without(rows, doomed + Children(rows, doomed))
    ensures Consistent(Removed(rows, doomed))
  {
    hide Closure, Children, KeyOf, Required;
    ClosureIsOneLevel(rows, doomed);
    var gone := Closure(rows, doomed);
    forall t | t in gone
      ensures !IsRoot(t.table)
    {
      if t !in doomed {
        InnerChild(rows, doomed, t);
      }
    }
    forall k, t | k in rows && t in gone
      ensures !Refers(rows, k, t, NoAction) && !Refers(rows, k, t, SetNull)
    {
      OnlyCascadeToInner(rows, k, t, NoAction);
      OnlyCascadeToInner(rows, k, t, SetNull);
    }
    forall k | k in rows
      ensures Nulled(rows[k], k.table, gone) == rows[k]
    {
      NothingNulled(rows, k, gone);
    }
    forall k, c | k in rows && k !in gone && c in rows[k].refs
      ensures rows[k].refs[c] !in gone
    {
      StayersReferToStayers(rows, doomed, k, c);
    }
  }

  lemma InnerChild(rows: Rows, doomed: set<Key>, t: Key)
    requires Consistent(rows) && t in Children(rows, doomed)
    ensures !IsRoot(t.table)
  {
    var top :| top in doomed && Refers(rows, t, top, Cascade);
    NothingInsideChildren(rows, t, t, top, Cascade);
  }

  lemma NothingNulled(rows: Rows, k: Key, gone: set<Key>)
    requires k in rows && forall t <- gone :: !Refers(rows, k, t, SetNull)
    ensures Nulled(rows[k], k.table, gone) == rows[k]
  {
    hide KeyOf;
    assert Nulled(rows[k], k.table, gone).refs == rows[k].refs;
  }

  lemma StayersReferToStayers(rows: Rows, doomed: set<Key>, k: Key, c: Column)
    requires Consistent(rows) && k in rows && c in rows[k].refs
    requires k !in Closure(rows, doomed)
    requires forall t <- Closure(rows, doomed) :: !Refers(rows, k, t, NoAction) && !Refers(rows, k, t, SetNull)
    ensures rows[k].refs[c] !in Closure(rows, doomed)
  {
    hide KeyOf;
    ClosureIsOneLevel(rows, doomed);
    var t := rows[k].refs[c];
    assert GoodRef(rows, k.table, c, t);
    var onDelete := KeyOf(k.table, c).value.onDelete;
    assert RefersBy(rows[k], k.table, c, t, onDelete);
    assert Refers(rows, k, t, onDelete);
    if t in Closure(rows, doomed) {
      assert onDelete == Cascade;
      if t !in doomed {
        var top :| top in doomed && Refers(rows, t, top, Cascade);
        NothingInsideChildren(rows, k, t, top, Cascade);
      }
    }
  }

  /** Rows with everything inside them. */
  function WithInside(rows: Rows, some: set<Key>): set<Key> {
    some + Children(rows, some)
  }

  /** Deleting the user's rows of one more table, after some rows and what is inside them are gone. */
  lemma NextDelete(rows: Rows, some: set<Key>, table: Table, column: Column, user: Key)
    requires Consistent(rows) && !IsRoot(table) && forall k <- some :: !IsRoot(k.table)
    ensures var left, all := Without(rows, WithInside(rows, some)), some + RowsOf(rows, table, column, user);
            var doomed := RowsOf(left, table, column, user);
            && Consistent(left) && Permitted(left, doomed)
            && Removed(left, doomed) == Without(rows, WithInside(rows, all))
  {
    hide Permitted, Removed, Consistent, KeyOf, Closure, Children, Without;
    InnerDelete(rows, some);
    var left, all := Without(rows, WithInside(rows, some)), some + RowsOf(rows, table, column, user);
    var doomed := RowsOf(left, table, column, user);
    InnerDelete(left, doomed);
    var more := RowsOf(rows, table, column, user);
    RowsLeft(rows, WithInside(rows, some), table, column, user);
    forall k | k in rows
      ensures k in WithInside(rows, all) <==> k in WithInside(rows, some) || k in WithInside(left, doomed)
    {
      InsideInTurn(rows, some, more, k);
    }
    WithoutTwice(rows, WithInside(rows, some), WithInside(left, doomed), WithInside(rows, all));
  }

  lemma RowsLeft(rows: Rows, gone: set<Key>, table: Table, column: Column, user: Key)
    ensures RowsOf(rows, table, column, user) <= rows.Keys
    ensures RowsOf(Without(rows, gone), table, column, user)
            == RowsOf(rows, table, column, user) * Without(rows, gone).Keys
  {
  }

  lemma WithoutTwice(rows: Rows, gone1: set<Key>, gone2: set<Key>, gone: set<Key>)
    requires forall k <- rows :: k in gone <==> k in gone1 || k in gone2
    ensures Without(Without(rows, gone1), gone2) == Without(rows, gone)
  {
  }

  lemma InsideInTurn(rows: Rows, some: set<Key>, more: set<Key>, k: Key)
    requires Consistent(rows) && k in rows && more <= rows.Keys
    ensures var left := Without(rows, WithInside(rows, some));
            k in WithInside(rows, some + more)
            <==> k in WithInside(rows, some) || k in WithInside(left, more * left.Keys)
  {
    hide KeyOf, Consistent;
    var left := Without(rows, WithInside(rows, some));
    if k in Children(rows, more) && k !in WithInside(rows, some) {
      var t :| t in more && Refers(rows, k, t, Cascade);
      assert t !in some;
      if t in Children(rows, some) {
        var top :| top in some && Refers(rows, t, top, Cascade);
        NothingInsideChildren(rows, k, t, top, Cascade);
      }
      assert k in left && t in more * left.Keys;
      assert Refers(left, k, t, Cascade);
    }
    if k in Children(left, more * left.Keys) {
      var t :| t in more * left.Keys && Refers(left, k, t, Cascade);
      assert Refers(rows, k, t, Cascade);
    }
  }

  /** The columns of the five deletes. */
  predicate DependsByColumn(table: Table, c: Column) {
    || (c == OwnerId && table in {Guilds, Companies})
    || (c == InvitedBy && table == CompanyInvites)
    || (c == UserId && table in {CompanyMembers, UserSubscriptions})
  }

  /** The rows that cannot do without the user. */
  function Dependents(rows: Rows, user: Key): set<Key> {
    set k | k in rows && exists c | c in rows[k].refs :: DependsByColumn(k.table, c) && rows[k].refs[c] == user
  }

  lemma DependentsByTable(rows: Rows, user: Key)
    ensures Dependents(rows, user)
            == RowsOf(rows, Guilds, OwnerId, user) + RowsOf(rows, CompanyInvites, InvitedBy, user)
               + RowsOf(rows, CompanyMembers, UserId, user) + RowsOf(rows, Companies, OwnerId, user)
               + RowsOf(rows, UserSubscriptions, UserId, user)
  {
  }

  /** These columns are all that refer to users without cascading or nulling. */
  lemma DependentsReferWithoutAction(rows: Rows, user: Key, k: Key)
    requires Consistent(rows) && user.table == Users && k in rows
    ensures k in Dependents(rows, user) <==> Refers(rows, k, user, NoAction)
  {
    hide KeyOf, DependsByColumn;
    if k in Dependents(rows, user) {
      var c :| c in rows[k].refs && DependsByColumn(k.table, c) && rows[k].refs[c] == user;
      KeysToUsers(k.table, c);
      assert RefersBy(rows[k], k.table, c, user, NoAction);
    }
    if Refers(rows, k, user, NoAction) {
      var c :| c in rows[k].refs && RefersBy(rows[k], k.table, c, user, NoAction);
      assert GoodRef(rows, k.table, c, user);
      KeysToUsers(k.table, c);
    }
  }

  lemma KeysToUsers(table: Table, c: Column)
    ensures KeyOf(table, c) == Some(ForeignKey(Users, NoAction)) <==> DependsByColumn(table, c)
    ensures forall d :: DependsByColumn(table, c) ==> KeyOf(table, d) != Some(ForeignKey(Users, Cascade))
  {
  }

  /** Once nothing depends on the user, the user goes with what cascades, and the rest is nulled. */
  lemma UserDelete(rows: Rows, user: Key)
    requires Consistent(rows) && user.table == Users
    ensures var left := Without(rows, WithInside(rows, Dependents(rows, user)));
            Permitted(left, {user}) && Removed(left, {user}) == Erased(rows, user)
  {
    hide KeyOf, Closure, Dependents, Consistent;
    var dependents := Dependents(rows, user);
    forall k | k in rows
      ensures k in dependents <==> Refers(rows, k, user, NoAction)
    {
      DependentsReferWithoutAction(rows, user, k);
    }
    assert forall k <- dependents :: !IsRoot(k.table) by {
      DependentsAreInner(rows, user);
    }
    InnerDelete(rows, dependents);
    var left := Without(rows, WithInside(rows, dependents));
    ClosureIsOneLevel(left, {user});
    var gone := Closure(left, {user});
    forall k, t | k in left && t in gone && t != user
      ensures !Refers(left, k, t, NoAction) && !Refers(left, k, t, SetNull)
    {
      NothingInsideChildren(left, k, t, user, NoAction);
      NothingInsideChildren(left, k, t, user, SetNull);
    }
    forall k | k in left
      ensures !Refers(left, k, user, NoAction)
      ensures Nulled(left[k], k.table, gone) == Nulled(rows[k], k.table, {user})
    {
      SameNulled(left, k, gone, user);
    }
    forall k | k in rows
      ensures k in left && k !in gone <==> !Gone(rows, user, k)
    {
      GoneInTurn(rows, user, k);
    }
  }

  lemma DependentsAreInner(rows: Rows, user: Key)
    ensures forall k <- Dependents(rows, user) :: !IsRoot(k.table)
  {
  }

  lemma SameNulled(rows: Rows, k: Key, gone: set<Key>, user: Key)
    requires k in rows && user in gone && forall t <- gone :: t != user ==> !Refers(rows, k, t, SetNull)
    ensures Nulled(rows[k], k.table, gone) == Nulled(rows[k], k.table, {user})
  {
    hide KeyOf;
    assert Nulled(rows[k], k.table, gone).refs == Nulled(rows[k], k.table, {user}).refs;
  }

  lemma GoneInTurn(rows: Rows, user: Key, k: Key)
    requires Consistent(rows) && user.table == Users && k in rows
    ensures var left := Without(rows, WithInside(rows, Dependents(rows, user)));
            k in left && k !in {user} + Children(left, {user}) <==> !Gone(rows, user, k)
  {
    hide KeyOf, Dependents, Consistent;
    var dependents := Dependents(rows, user);
    var left := Without(rows, WithInside(rows, dependents));
    DependentsReferWithoutAction(rows, user, k);
    if k in Children(rows, dependents) {
      var t :| t in dependents && Refers(rows, k, t, Cascade);
      DependentsExist(rows, user, t);
      DependentsReferWithoutAction(rows, user, t);
    }
    if t :| t in rows && Refers(rows, t, user, NoAction) && Refers(rows, k, t, Cascade) {
      DependentsReferWithoutAction(rows, user, t);
    }
    if k in left {
      assert Refers(left, k, user, Cascade) <==> Refers(rows, k, user, Cascade);
    }
  }

  lemma DependentsExist(rows: Rows, user: Key, t: Key)
    ensures t in Dependents(rows, user) ==> t in rows
  {
  }

  /** Each of the six deletes is permitted, and together they leave the erased database. */
  lemma DeletesErase(rows: Rows, user: Key)
    requires Consistent(rows) && user.table == Users
    ensures var s1 := RowsOf(rows, Guilds, OwnerId, user); var r1 := Removed(rows, s1);
            var s2 := RowsOf(r1, CompanyInvites, InvitedBy, user); var r2 := Removed(r1, s2);
            var s3 := RowsOf(r2, CompanyMembers, UserId, user); var r3 := Removed(r2, s3);
            var s4 := RowsOf(r3, Companies, OwnerId, user); var r4 := Removed(r3, s4);
            var s5 := RowsOf(r4, UserSubscriptions, UserId, user); var r5 := Removed(r4, s5);
            && Permitted(rows, s1) && Permitted(r1, s2) && Permitted(r2, s3) && Permitted(r3, s4)
            && Permitted(r4, s5) && Permitted(r5, {user}) && Removed(r5, {user}) == Erased(rows, user)
  {
    var d1 := RowsOf(rows, Guilds, OwnerId, user);
    var d2 := d1 + RowsOf(rows, CompanyInvites, InvitedBy, user);
    var d3 := d2 + RowsOf(rows, CompanyMembers, UserId, user);
    var d4 := d3 + RowsOf(rows, Companies, OwnerId, user);
    DependentsByTable(rows, user);
    hide Permitted, Removed, Erased, Consistent, KeyOf, Dependents, WithInside, Without;
    NothingWithout(rows);
    NextDelete(rows, {}, Guilds, OwnerId, user);
    assert {} + d1 == d1;
    NextDelete(rows, d1, CompanyInvites, InvitedBy, user);
    NextDelete(rows, d2, CompanyMembers, UserId, user);
    NextDelete(rows, d3, Companies, OwnerId, user);
    NextDelete(rows, d4, UserSubscriptions, UserId, user);
    UserDelete(rows, user);
  }

  lemma NothingWithout(rows: Rows)
    ensures Without(rows, WithInside(rows, {})) == rows
  {
  }

  class Database {
    var rows: Rows

    constructor (rows: Rows)
      ensures this.rows == rows
    {
      this.rows := rows;
    }

    /** One delete statement, refused as a whole if a constraint forbids it. */
    method Delete(doomed: set<Key>) returns (ok: bool)
      modifies this
      ensures ok <==> Permitted(old(rows), doomed)
      ensures rows == if ok then Removed(old(rows), doomed) else old(rows)
    {
      ok := Permitted(rows, doomed);
      if ok {
        rows := Removed(rows, doomed);
      }
    }

    /** `deleteAllUserData`: the deletes in their order, rolled back together if one is refused. From
        a consistent database none is, and what is left is exactly the erased database. */
    method DeleteAllUserData(user: Key) returns (ok: bool)
      requires user.table == Users
      modifies this
      ensures !ok ==> rows == old(rows)
      ensures Consistent(old(rows)) ==> ok && rows == Erased(old(rows), user)
    {
      hide Permitted, Removed, Erased, Consistent;
      var before := rows;
      ok := Delete(RowsOf(rows, Guilds, OwnerId, user));
      if ok { ok := Delete(RowsOf(rows, CompanyInvites, InvitedBy, user)); }
      if ok { ok := Delete(RowsOf(rows, CompanyMembers, UserId, user)); }
      if ok { ok := Delete(RowsOf(rows, Companies, OwnerId, user)); }
      if ok { ok := Delete(RowsOf(rows, UserSubscriptions, UserId, user)); }
      if ok { ok := Delete({user}); }
      if !ok {
        rows := before;
      }
      if Consistent(before) {
        DeletesErase(before, user);
      }
    }
  }

  // ----- What holds after an erasure -----

  /** The erased database is consistent, and neither the user nor a reference to the user is left. */
  lemma ErasedIsClean(rows: Rows, user: Key)
    requires Consistent(rows) && user.table == Users
    ensures Consistent(Erased(rows, user)) && user !in Erased(rows, user)
    ensures forall k, c :: k in Erased(rows, user) && c in Erased(rows, user)[k].refs ==>
                             Erased(rows, user)[k].refs[c] != user
  {
    hide KeyOf;
    var erased := Erased(rows, user);
    forall k, c | k in erased && c in erased[k].refs
      ensures GoodRef(erased, k.table, c, erased[k].refs[c]) && erased[k].refs[c] != user
    {
      KeptRefStays(rows, user, k, c);
    }
    forall k, c | k in erased && Required(k.table, c)
      ensures c in erased[k].refs
    {
    }
  }

  lemma KeptRefStays(rows: Rows, user: Key, k: Key, c: Column)
    requires Consistent(rows) && user.table == Users && k in rows && !Gone(rows, user, k)
    requires c in Nulled(rows[k], k.table, {user}).refs
    ensures GoodRef(Erased(rows, user), k.table, c, rows[k].refs[c]) && rows[k].refs[c] != user
  {
    hide KeyOf;
    var t := rows[k].refs[c];
    assert GoodRef(rows, k.table, c, t);
    var onDelete := KeyOf(k.table, c).value.onDelete;
    assert RefersBy(rows[k], k.table, c, t, onDelete);
    assert Refers(rows, k, t, onDelete);
    assert t != user;
    if Gone(rows, user, t) {
      GoneOnlyByCascade(rows, user, k, t, onDelete);
    }
  }

  /** A row that refers to one that goes, other than the user, goes with it. */
  lemma GoneOnlyByCascade(rows: Rows, user: Key, k: Key, t: Key, onDelete: OnDelete)
    requires Consistent(rows) && user.table == Users && k in rows && t in rows && t != user
    requires Gone(rows, user, t) && Refers(rows, k, t, onDelete)
    ensures Gone(rows, user, k)
  {
    hide KeyOf;
    if Refers(rows, t, user, NoAction) {
      DependentsReferWithoutAction(rows, user, t);
      DependentsAreInner(rows, user);
      if onDelete != Cascade {
        OnlyCascadeToInner(rows, k, t, onDelete);
      }
    } else if Refers(rows, t, user, Cascade) {
      NothingInsideChildren(rows, k, t, user, onDelete);
    } else {
      var top :| top in rows && Refers(rows, top, user, NoAction) && Refers(rows, t, top, Cascade);
      NothingInsideChildren(rows, k, t, top, onDelete);
    }
  }

  /** A row that does not go and does not refer to the user stays as it is; a row that stays loses
      exactly its references to the user. */
  lemma OthersKeepTheirRows(rows: Rows, user: Key, k: Key)
    requires Consistent(rows) && k in rows && !Gone(rows, user, k)
    ensures k in Erased(rows, user) && Erased(rows, user)[k].data == rows[k].data
    ensures forall c :: c in Erased(rows, user)[k].refs <==> c in rows[k].refs && rows[k].refs[c] != user
    ensures forall c <- Erased(rows, user)[k].refs :: Erased(rows, user)[k].refs[c] == rows[k].refs[c]
    ensures (forall c <- rows[k].refs :: rows[k].refs[c] != user) ==> Erased(rows, user)[k] == rows[k]
  {
    hide KeyOf;
    forall c | c in rows[k].refs && rows[k].refs[c] == user
      ensures RefersBy(rows[k], k.table, c, user, SetNull)
    {
      assert GoodRef(rows, k.table, c, user);
      assert RefersBy(rows[k], k.table, c, user, KeyOf(k.table, c).value.onDelete);
    }
    if forall c <- rows[k].refs :: rows[k].refs[c] != user {
      assert Erased(rows, user)[k].refs == rows[k].refs;
    }
  }

  // ----- The same, table by table -----

  /** The row's column holds this reference. */
  predicate Holds(rows: Rows, k: Key, c: Column, t: Key) {
    k in rows && c in rows[k].refs && rows[k].refs[c] == t
  }

  /** The row is inside a guild or company that the user owns. */
  predicate InsideOwned(rows: Rows, k: Key, c: Column, user: Key) {
    k in rows && c in rows[k].refs && Holds(rows, rows[k].refs[c], OwnerId, user)
  }

  /** What an erasure removes of each table. */
  predicate GoneOfTable(rows: Rows, user: Key, k: Key) {
    match k.table
    case Users => k == user
    case Guilds | Companies => Holds(rows, k, OwnerId, user)
    case CompanyMembers => Holds(rows, k, UserId, user) || InsideOwned(rows, k, CompanyId, user)
    case CompanyInvites => Holds(rows, k, InvitedBy, user) || InsideOwned(rows, k, CompanyId, user)
    case UserSubscriptions | RefreshTokens | UsageLimits => Holds(rows, k, UserId, user)
    case GuildModules | ServerSettings | Counters | Widgets | GuildLogSettings | GuildWelcomeGoodbyeSettings =>
      InsideOwned(rows, k, GuildId, user)
    case AdminUsers | AdminRefreshTokens | SubscriptionPlans | PlanLimits | Invoices | ActivityLog => false
  }

  /** Invoices and entries of the activity log are kept without the user; what is left of every other
      table is as it was. */
  lemma ErasedByTable(rows: Rows, user: Key, k: Key)
    requires Consistent(rows) && user.table == Users && k in rows
    ensures k in Erased(rows, user) <==> !GoneOfTable(rows, user, k)
    ensures k in Erased(rows, user) ==>
              if k.table in {Invoices, ActivityLog} && Holds(rows, k, UserId, user)
              then Erased(rows, user)[k] == rows[k].(refs := rows[k].refs - {UserId})
              else Erased(rows, user)[k] == rows[k]
  {
    hide Consistent;
    GoneByTable(rows, user, k);
    if !Gone(rows, user, k) {
      OthersKeepTheirRows(rows, user, k);
      forall c | c in rows[k].refs && rows[k].refs[c] == user
        ensures k.table in {Invoices, ActivityLog} && c == UserId
      {
        HoldsUser(rows, user, k, c);
      }
      assert Holds(rows, k, UserId, user) ==> Erased(rows, user)[k].refs == rows[k].refs - {UserId};
    }
  }

  /** Who refers to users, by which column. */
  lemma HoldsUser(rows: Rows, user: Key, k: Key, c: Column)
    requires Consistent(rows) && user.table == Users && Holds(rows, k, c, user)
    requires !Refers(rows, k, user, NoAction) && !Refers(rows, k, user, Cascade)
    ensures k.table in {Invoices, ActivityLog} && c == UserId
  {
    assert GoodRef(rows, k.table, c, user);
    assert RefersBy(rows[k], k.table, c, user, KeyOf(k.table, c).value.onDelete);
  }

  lemma GoneByTable(rows: Rows, user: Key, k: Key)
    requires Consistent(rows) && user.table == Users && k in rows
    ensures Gone(rows, user, k) <==> GoneOfTable(rows, user, k)
  {
    hide Consistent, KeyOf, Refers;
    var inside := if k.table in {CompanyMembers, CompanyInvites} then CompanyId else GuildId;
    CascadesFromUser(rows, user, k);
    DependsByTable(rows, user, k);
    if t :| t in rows && Refers(rows, t, user, NoAction) && Refers(rows, k, t, Cascade) {
      DependsByTable(rows, user, t);
      InsideByTable(rows, k, t);
      ContainersByColumn(rows, k, inside);
    }
    if InsideOwned(rows, k, inside, user) {
      var t := rows[k].refs[inside];
      ContainersByColumn(rows, k, inside);
      InsideByTable(rows, k, t);
      DependsByTable(rows, user, t);
    }
  }

  lemma DependsByTable(rows: Rows, user: Key, k: Key)
    requires Consistent(rows) && user.table == Users && k in rows
    ensures Refers(rows, k, user, NoAction)
            <==> match k.table
                 case Guilds | Companies => Holds(rows, k, OwnerId, user)
                 case CompanyMembers | UserSubscriptions => Holds(rows, k, UserId, user)
                 case CompanyInvites => Holds(rows, k, InvitedBy, user)
                 case _ => false
  {
    hide Consistent, KeyOf, Refers;
    DependentsReferWithoutAction(rows, user, k);
  }

  lemma CascadesFromUser(rows: Rows, user: Key, k: Key)
    requires Consistent(rows) && user.table == Users && k in rows
    ensures Refers(rows, k, user, Cascade) <==> k.table in {RefreshTokens, UsageLimits} && Holds(rows, k, UserId, user)
  {
    if c :| c in rows[k].refs && RefersBy(rows[k], k.table, c, user, Cascade) {
      assert GoodRef(rows, k.table, c, user);
    }
    if k.table in {RefreshTokens, UsageLimits} && Holds(rows, k, UserId, user) {
      assert RefersBy(rows[k], k.table, UserId, user, Cascade);
    }
  }

  lemma ContainersByColumn(rows: Rows, k: Key, c: Column)
    requires Consistent(rows) && k in rows && c in rows[k].refs && c in {GuildId, CompanyId}
    ensures rows[k].refs[c].table == if c == GuildId then Guilds else Companies
  {
    assert GoodRef(rows, k.table, c, rows[k].refs[c]);
  }

  /** What is inside a guild or company refers to it by one column. */
  lemma InsideByTable(rows: Rows, k: Key, t: Key)
    requires Consistent(rows) && k in rows && t in rows && t.table != Users && t.table != AdminUsers
    ensures Refers(rows, k, t, Cascade)
            <==> match k.table
                 case CompanyMembers | CompanyInvites => Holds(rows, k, CompanyId, t)
                 case GuildModules | ServerSettings | Counters | Widgets
                   | GuildLogSettings | GuildWelcomeGoodbyeSettings => Holds(rows, k, GuildId, t)
                 case _ => false
  {
    if c :| c in rows[k].refs && RefersBy(rows[k], k.table, c, t, Cascade) {
      assert GoodRef(rows, k.table, c, t);
    }
    var c := if k.table in {CompanyMembers, CompanyInvites} then CompanyId else GuildId;
    if Holds(rows, k, c, t) {
      assert GoodRef(rows, k.table, c, t);
      assert RefersBy(rows[k], k.table, c, t, KeyOf(k.table, c).value.onDelete);
    }
  }

  /** The order matters in one place: a user can be deleted exactly when nothing depends on them. */
  lemma UserGoesLast(rows: Rows, user: Key)
    requires Consistent(rows) && user.table == Users && user in rows
    ensures Permitted(rows, {user}) <==> Dependents(rows, user) == {}
  {
    hide KeyOf, Closure, Dependents, Consistent;
    ClosureIsOneLevel(rows, {user});
    forall k | k in rows
      ensures k in Dependents(rows, user) <==> Refers(rows, k, user, NoAction)
    {
      DependentsReferWithoutAction(rows, user, k);
    }
    forall k, t | k in rows && t in Children(rows, {user}) && t != user
      ensures !Refers(rows, k, t, NoAction)
    {
      NothingInsideChildren(rows, k, t, user, NoAction);
    }
    forall k | k in Dependents(rows, user)
      ensures k in rows && k !in {user} + Children(rows, {user})
    {
      DependentIsNotInside(rows, user, k);
    }
  }

  /** A row that refers to the user without action is not itself carried off by the user's delete. */
  lemma DependentIsNotInside(rows: Rows, user: Key, k: Key)
    requires Consistent(rows) && user.table == Users
    ensures k in Dependents(rows, user) ==> k in rows && k != user && !Refers(rows, k, user, Cascade)
  {
    hide KeyOf, DependsByColumn;
    if k in Dependents(rows, user) {
      var d :| d in rows[k].refs && DependsByColumn(k.table, d) && rows[k].refs[d] == user;
      KeysToUsers(k.table, d);
      assert !IsRoot(k.table) by {
        DependentsAreInner(rows, user);
      }
    }
  }
}
