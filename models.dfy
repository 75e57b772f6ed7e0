/**
 * The two tables of the marketplace database, `users` and `warehouses`, as
 * records, and the constraints the table definitions declare on them:
 * primary keys, the unique username column and the foreign key from a
 * warehouse to its owner.
 */
module Models {

  /** A row of `users`; `isSeller == false` means a customer. */
  datatype User = User(id: int, username: string, hashedPassword: string, isSeller: bool)

  /**
   * A row of `warehouses`: one stock line. The quantity is an unconstrained
   * integer; nothing in the schema or the handlers keeps it non-negative.
   */
  datatype Warehouse = Warehouse(id: int, item: string, quantity: int, userId: int)

  /** `users.id` is the primary key. */
  predicate UniqueUserIds(users: seq<User>)
  {
    forall i, j :: 0 <= i < j < |users| ==> users[i].id != users[j].id
  }

  /** `users.username` is declared unique. */
  predicate UniqueUsernames(users: seq<User>)
  {
    forall i, j :: 0 <= i < j < |users| ==> users[i].username != users[j].username
  }

  /** `warehouses.id` is the primary key. */
  predicate UniqueWarehouseIds(warehouses: seq<Warehouse>)
  {
    forall i, j :: 0 <= i < j < |warehouses| ==> warehouses[i].id != warehouses[j].id
  }

  function UserIds(users: seq<User>): set<int>
  {
    set u | u in users :: u.id
  }

  /** `warehouses.user_id` is a foreign key into `users.id`. */
  predicate OwnersExist(users: seq<User>, warehouses: seq<Warehouse>)
  {
    forall w :: w in warehouses ==> w.userId in UserIds(users)
  }

  predicate TablesValid(users: seq<User>, warehouses: seq<Warehouse>)
  {
    && UniqueUserIds(users)
    && UniqueUsernames(users)
    && UniqueWarehouseIds(warehouses)
    && OwnersExist(users, warehouses)
  }

  /** Every stock line holds a non-negative quantity (the schema does not enforce this). */
  predicate NonNegativeStock(warehouses: seq<Warehouse>)
  {
    forall w :: w in warehouses ==> w.quantity >= 0
  }

  /**
   * The `User.items` / `Warehouse.owner` relationship: the warehouses whose
   * `user_id` is the given user id, in table order.
   */
  function Items(warehouses: seq<Warehouse>, userId: int): (r: seq<Warehouse>)
    ensures forall w :: w in r <==> w in warehouses && w.userId == userId
    ensures |r| <= |warehouses|
  {
    if warehouses == [] then []
    else
      var rest := Items(warehouses[1..], userId);
      if warehouses[0].userId == userId then [warehouses[0]] + rest else rest
  }

  /** A row appended to `warehouses` joins exactly its owner's items, at the end. */
  lemma {:induction false} ItemsAppend(warehouses: seq<Warehouse>, w: Warehouse, userId: int)
    ensures Items(warehouses + [w], userId)
         == Items(warehouses, userId) + (if w.userId == userId then [w] else [])
    decreases |warehouses|
  {
    if warehouses != [] {
      assert (warehouses + [w])[1..] == warehouses[1..] + [w];
      ItemsAppend(warehouses[1..], w, userId);
    }
  }
}
