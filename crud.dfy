/**
 * The data-access layer: queries over the two tables, and the database
 * object whose tables the create and update operations change in place.
 */
module Crud {
  import opened Wrappers
  import opened Http
  import opened Models

  /** The random salt bcrypt draws for each new hash. */
  type Salt = string

  /**
   * The password-hashing context: `hash` is `get_password_hash` with its
   * salt made explicit, `verify` is `verify_password`. Both are opaque.
   */
  datatype CryptContext = CryptContext(hash: (string, Salt) -> string, verify: (string, string) -> bool)

  /** The one property relied on: a password verifies against any hash made from it. */
  ghost predicate RoundTrip(crypt: CryptContext)
  {
    forall password, salt :: crypt.verify(password, crypt.hash(password, salt))
  }

  /** Position of the first row satisfying `p`: what `filter(...).first()` selects. */
  function FirstIndex<T>(s: seq<T>, p: T -> bool): (r: Option<nat>)
    ensures r.Some? ==> r.value < |s| && p(s[r.value])
    ensures r.Some? ==> forall j :: 0 <= j < r.value ==> !p(s[j])
    ensures r.None? ==> forall j :: 0 <= j < |s| ==> !p(s[j])
  {
    if |s| == 0 then None
    else if p(s[0]) then Some(0)
    else
      match FirstIndex(s[1..], p)
      case None => None
      case Some(k) => Some(k + 1)
  }

  /** `get_user`: the first user row with that id, if any. */
  function GetUser(users: seq<User>, userId: int): (r: Option<User>)
    ensures r.Some? ==> r.value in users && r.value.id == userId
    ensures r.None? <==> forall u :: u in users ==> u.id != userId
  {
    match FirstIndex(users, (u: User) => u.id == userId)
    case None => None
    case Some(k) => Some(users[k])
  }

  /** `get_user_by_username`: the first user row with that username, if any. */
  function GetUserByUsername(users: seq<User>, username: string): (r: Option<User>)
    ensures r.Some? ==> exists i :: 0 <= i < |users| && users[i] == r.value
                                    && forall j :: 0 <= j < i ==> users[j].username != username
    ensures r.Some? ==> r.value in users && r.value.username == username
    ensures r.None? <==> forall u :: u in users ==> u.username != username
  {
    match FirstIndex(users, (u: User) => u.username == username)
    case None => None
    case Some(k) => Some(users[k])
  }

  /** `get_warehouse_by_id`: the first warehouse row with that id, if any. */
  function GetWarehouseById(warehouses: seq<Warehouse>, warehouseId: int): (r: Option<Warehouse>)
    ensures r.Some? ==> r.value in warehouses && r.value.id == warehouseId
    ensures r.None? <==> forall w :: w in warehouses ==> w.id != warehouseId
  {
    match FirstIndex(warehouses, (w: Warehouse) => w.id == warehouseId)
    case None => None
    case Some(k) => Some(warehouses[k])
  }

  /**
   * `query.offset(skip).limit(limit).all()` for `get_users` and
   * `get_warehouses`, with the database's reading of out-of-range arguments:
   * a negative offset counts as zero and a negative limit as no limit.
   */
  function Page<T>(s: seq<T>, skip: int, limit: int): (r: seq<T>)
    ensures var start := if skip < 0 then 0 else skip;
            && (forall i :: 0 <= i < |r| ==> start + i < |s| && r[i] == s[start + i])
            && (limit >= 0 ==> |r| <= limit)
            && (start + |r| >= |s| || |r| == limit)
  {
    var start := if skip < 0 then 0 else if skip > |s| then |s| else skip;
    var rest := s[start..];
    if 0 <= limit < |rest| then rest[..limit] else rest
  }

  /** Paging restarts cleanly: two consecutive pages are one longer page. */
  lemma PageRestart<T>(s: seq<T>, skip: nat, n: nat, m: nat)
    ensures Page(s, skip, n) + Page(s, skip + n, m) == Page(s, skip, n + m)
  {
  }

  /** Under unique usernames the lookup finds the one row with that name. */
  lemma LookupByUsername(users: seq<User>, u: User)
    requires UniqueUsernames(users)
    requires u in users
    ensures GetUserByUsername(users, u.username) == Some(u)
  {
  }

  /** Under a unique primary key the lookup finds the one row with that id. */
  lemma LookupWarehouse(warehouses: seq<Warehouse>, w: Warehouse)
    requires UniqueWarehouseIds(warehouses)
    requires w in warehouses
    ensures GetWarehouseById(warehouses, w.id) == Some(w)
  {
  }

  /** The table after the row with that id has been given a new quantity. */
  function Restocked(warehouses: seq<Warehouse>, warehouseId: int, quantity: int): seq<Warehouse>
  {
    seq(|warehouses|, i requires 0 <= i < |warehouses| =>
      if warehouses[i].id == warehouseId then warehouses[i].(quantity := quantity) else warehouses[i])
  }

  /**
   * `update_warehouse` seen through lookups: the row with that id now has the
   * new quantity and its old item and owner; every other id reads as before.
   */
  lemma RestockedLookup(warehouses: seq<Warehouse>, warehouseId: int, quantity: int, otherId: int)
    requires UniqueWarehouseIds(warehouses)
    ensures var after := Restocked(warehouses, warehouseId, quantity);
            && UniqueWarehouseIds(after)
            && GetWarehouseById(after, otherId)
               == match GetWarehouseById(warehouses, otherId)
                  case None => None
                  case Some(w) => Some(if otherId == warehouseId then w.(quantity := quantity) else w)
  {
    var after := Restocked(warehouses, warehouseId, quantity);
    assert forall i :: 0 <= i < |after| ==> after[i].id == warehouses[i].id;
    match GetWarehouseById(warehouses, otherId)
    case None =>
      assert forall w :: w in after ==> w.id != otherId;
    case Some(w) =>
      var k :| 0 <= k < |warehouses| && warehouses[k] == w;
      LookupWarehouse(after, after[k]);
  }

  /** `update_warehouse` keeps the table constraints. */
  lemma RestockedKeepsTables(users: seq<User>, warehouses: seq<Warehouse>, warehouseId: int, quantity: int)
    requires TablesValid(users, warehouses)
    ensures TablesValid(users, Restocked(warehouses, warehouseId, quantity))
  {
  }

  /** Writing a non-negative quantity keeps every stock line non-negative. */
  lemma RestockedKeepsNonNegative(warehouses: seq<Warehouse>, warehouseId: int, quantity: int)
    requires NonNegativeStock(warehouses)
    requires quantity >= 0
    ensures NonNegativeStock(Restocked(warehouses, warehouseId, quantity))
  {
  }

  /**
   * The database: the two tables, with the id counters that play the role of
   * the primary-key sequences, and the password-hashing context.
   */
  class Database {
    var users: seq<User>
    var warehouses: seq<Warehouse>
    var nextUserId: int
    var nextWarehouseId: int
    const crypt: CryptContext

    /** The table constraints, and every id below its sequence's next value. */
    ghost predicate Valid()
      reads this
    {
      && TablesValid(users, warehouses)
      && 1 <= nextUserId && 1 <= nextWarehouseId
      && (forall u :: u in users ==> 1 <= u.id < nextUserId)
      && (forall w :: w in warehouses ==> 1 <= w.id < nextWarehouseId)
    }

    constructor (crypt: CryptContext)
      ensures Valid()
      ensures this.crypt == crypt
      ensures users == [] && warehouses == []
      ensures nextUserId == 1 && nextWarehouseId == 1
    {
      this.crypt := crypt;
      users, warehouses := [], [];
      nextUserId, nextWarehouseId := 1, 1;
    }

    /**
     * `create_user`: insert a row holding the hash of the password, never the
     * password. A duplicate username violates the unique constraint, which
     * nothing catches: the insert fails with an internal error.
     */
    method CreateUser(username: string, password: string, isSeller: bool, salt: Salt) returns (r: Response<User>)
      requires Valid()
      modifies this
      ensures Valid()
      ensures warehouses == old(warehouses) && nextWarehouseId == old(nextWarehouseId)
      ensures old(GetUserByUsername(users, username)).Some? ==>
                r == Internal && users == old(users) && nextUserId == old(nextUserId)
      ensures old(GetUserByUsername(users, username)).None? ==>
                && r == Ok(User(old(nextUserId), username, crypt.hash(password, salt), isSeller))
                && users == old(users) + [r.value]
                && nextUserId == old(nextUserId) + 1
    {
      if GetUserByUsername(users, username).Some? {
        return Internal;
      }
      var u := User(nextUserId, username, crypt.hash(password, salt), isSeller);
      users := users + [u];
      nextUserId := nextUserId + 1;
      r := Ok(u);
    }

    /**
     * `create_warehouse`: insert a row with the given item, quantity and owner
     * under a fresh id. The owner is an existing user, as the foreign key asks.
     */
    method CreateWarehouse(item: string, quantity: int, userId: int) returns (w: Warehouse)
      requires Valid()
      requires userId in UserIds(users)
      modifies this
      ensures Valid()
      ensures users == old(users) && nextUserId == old(nextUserId)
      ensures w == Warehouse(old(nextWarehouseId), item, quantity, userId)
      ensures warehouses == old(warehouses) + [w]
      ensures nextWarehouseId == old(nextWarehouseId) + 1
      ensures GetWarehouseById(warehouses, w.id) == Some(w)
    {
      w := Warehouse(nextWarehouseId, item, quantity, userId);
      warehouses := warehouses + [w];
      nextWarehouseId := nextWarehouseId + 1;
      LookupWarehouse(warehouses, w);
    }

    /**
     * `update_warehouse`: look the row up and assign its quantity. With no
     * such row the assignment fails on `None`, an internal error.
     */
    method UpdateWarehouse(warehouseId: int, quantity: int) returns (r: Response<Warehouse>)
      requires Valid()
      modifies this
      ensures Valid()
      ensures users == old(users) && nextUserId == old(nextUserId) && nextWarehouseId == old(nextWarehouseId)
      ensures old(GetWarehouseById(warehouses, warehouseId)).None? ==>
                r == Internal && warehouses == old(warehouses)
      ensures old(GetWarehouseById(warehouses, warehouseId)).Some? ==>
                && r == Ok(old(GetWarehouseById(warehouses, warehouseId)).value.(quantity := quantity))
                && warehouses == Restocked(old(warehouses), warehouseId, quantity)
    {
      var k := FirstIndex(warehouses, (w: Warehouse) => w.id == warehouseId);
      if k.None? {
        return Internal;
      }
      var i := k.value;
      var item := warehouses[i].(quantity := quantity);
      ghost var before := warehouses;
      warehouses := warehouses[i := item];
      assert warehouses == Restocked(before, warehouseId, quantity);
      RestockedKeepsTables(users, before, warehouseId, quantity);
      r := Ok(item);
    }
  }
}
