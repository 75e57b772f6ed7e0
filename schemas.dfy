/** The response shape of a user: every column but the password hash, plus the owned items. */
module Schemas {
  import opened Models

  datatype UserOut = UserOut(id: int, username: string, isSeller: bool, items: seq<Warehouse>)

  /** How a `users` row is serialised: the hash is dropped, `items` is the relationship. */
  function UserResponse(u: User, warehouses: seq<Warehouse>): (r: UserOut)
    ensures r.id == u.id && r.username == u.username && r.isSeller == u.isSeller
    ensures forall w :: w in r.items <==> w in warehouses && w.userId == u.id
  {
    UserOut(u.id, u.username, u.isSeller, Items(warehouses, u.id))
  }
}
