/**
 * The request handlers of the web application. Authenticated handlers first
 * resolve the HTTP Basic credentials; each handler's outcome is its response
 * value, the status of the HTTPException it raises, or an internal error
 * when it dereferences a missing row.
 */
module Handlers {
  import opened Wrappers
  import opened Http
  import opened Models
  import opened Schemas
  import opened Crud

  /** The username and password sent with HTTP Basic authentication. */
  datatype Credentials = Credentials(username: string, password: string)

  /**
   * `get_current_username`: look the user up, then check the password. An
   * unknown username is not reported as 401: the lookup's `None` is
   * dereferenced and the request fails with an internal error.
   */
  function GetCurrentUsername(users: seq<User>, crypt: CryptContext, creds: Credentials): (r: Response<string>)
    ensures r.Internal? <==> GetUserByUsername(users, creds.username).None?
    ensures r.Ok? <==> && GetUserByUsername(users, creds.username).Some?
                       && crypt.verify(creds.password, GetUserByUsername(users, creds.username).value.hashedPassword)
    ensures r.Ok? ==> r.value == creds.username
    ensures r.HttpError? ==> r.status == 401 && r.detail == IncorrectCredentials
  {
    match GetUserByUsername(users, creds.username)
    case None => Internal
    case Some(user) =>
      var correctUsername := creds.username == user.username;
      var correctPassword := crypt.verify(creds.password, user.hashedPassword);
      if !(correctUsername && correctPassword) then HttpError(401, IncorrectCredentials)
      else Ok(creds.username)
  }

  /**
   * Authentication, stated over the table: it succeeds exactly when some user
   * has that username and the password verifies against that user's hash.
   */
  lemma AuthenticatesIff(users: seq<User>, crypt: CryptContext, creds: Credentials)
    requires UniqueUsernames(users)
    ensures GetCurrentUsername(users, crypt, creds).Ok?
        <==> exists u :: u in users && u.username == creds.username
                         && crypt.verify(creds.password, u.hashedPassword)
  {
  }

  /** A user who has just registered can authenticate with the password given. */
  lemma RegisteredUserAuthenticates(users: seq<User>, crypt: CryptContext, u: User, password: string, salt: Salt)
    requires RoundTrip(crypt)
    requires UniqueUsernames(users)
    requires GetUserByUsername(users, u.username).None?
    requires u.hashedPassword == crypt.hash(password, salt)
    ensures GetCurrentUsername(users + [u], crypt, Credentials(u.username, password)) == Ok(u.username)
  {
  }

  /**
   * `create_user`: a taken username is refused with 400 and nothing changes;
   * otherwise exactly one row is added, holding the hashed password, and the
   * response shows the new user without the hash and with no items yet.
   */
  method CreateUser(db: Database, username: string, password: string, isSeller: bool, salt: Salt)
    returns (r: Response<UserOut>)
    requires db.Valid()
    modifies db
    ensures db.Valid()
    ensures db.warehouses == old(db.warehouses) && db.nextWarehouseId == old(db.nextWarehouseId)
    ensures old(GetUserByUsername(db.users, username)).Some? ==>
              && r == HttpError(400, UserAlreadyRegistered)
              && db.users == old(db.users) && db.nextUserId == old(db.nextUserId)
    ensures old(GetUserByUsername(db.users, username)).None? ==>
              && db.users == old(db.users) + [User(old(db.nextUserId), username, db.crypt.hash(password, salt), isSeller)]
              && db.nextUserId == old(db.nextUserId) + 1
              && r == Ok(UserOut(old(db.nextUserId), username, isSeller, []))
  {
    var existing := GetUserByUsername(db.users, username);
    if existing.Some? {
      return HttpError(400, UserAlreadyRegistered);
    }
    var created := db.CreateUser(username, password, isSeller, salt);
    var u := created.value;
    var shown := UserResponse(u, db.warehouses);
    if shown.items != [] {
      var w := shown.items[0];
      assert w in db.warehouses && w.userId == u.id;
    }
    r := Ok(shown);
  }

  /** `read_users`: the page of users, each shown without the password hash. */
  function ReadUsers(users: seq<User>, warehouses: seq<Warehouse>, skip: int, limit: int): (r: seq<UserOut>)
    ensures var start := if skip < 0 then 0 else skip;
            && (forall i :: 0 <= i < |r| ==> start + i < |users| && r[i] == UserResponse(users[start + i], warehouses))
            && (limit >= 0 ==> |r| <= limit)
            && (start + |r| >= |users| || |r| == limit)
  {
    var page := Page(users, skip, limit);
    seq(|page|, i requires 0 <= i < |page| => UserResponse(page[i], warehouses))
  }

  /** `read_user`: the user with that id, or 404 "User not found". */
  function ReadUser(users: seq<User>, warehouses: seq<Warehouse>, userId: int): (r: Response<UserOut>)
    ensures r.Ok? <==> exists u :: u in users && u.id == userId
    ensures r.Ok? ==> exists u :: u in users && u.id == userId && r.value == UserResponse(u, warehouses)
    ensures !r.Ok? ==> r == HttpError(404, UserNotFound)
  {
    match GetUser(users, userId)
    case None => HttpError(404, UserNotFound)
    case Some(u) => Ok(UserResponse(u, warehouses))
  }

  /**
   * `read_item`: the warehouse with that id. A missing id is not an error:
   * the handler returns `None`, sent as an empty (null) body.
   */
  function ReadItem(warehouses: seq<Warehouse>, warehouseId: int): (r: Option<Warehouse>)
    ensures r.None? <==> forall w :: w in warehouses ==> w.id != warehouseId
    ensures r.Some? ==> r.value in warehouses && r.value.id == warehouseId
  {
    GetWarehouseById(warehouses, warehouseId)
  }

  /**
   * `create_warehouse`: after authentication, a customer is refused with 403
   * and nothing is added; a seller gets a new row, owned by that seller, that
   * reads back by its id and joins the seller's items.
   */
  method CreateWarehouse(db: Database, creds: Credentials, item: string, quantity: int)
    returns (r: Response<Warehouse>)
    requires db.Valid()
    modifies db
    ensures db.Valid()
    ensures db.users == old(db.users) && db.nextUserId == old(db.nextUserId)
    ensures var auth := GetCurrentUsername(old(db.users), db.crypt, creds);
            && (auth.Internal? ==> r == Internal)
            && (auth.HttpError? ==> r == HttpError(401, IncorrectCredentials))
            && (auth.Ok? ==>
                  var owner := GetUserByUsername(old(db.users), creds.username).value;
                  && (!owner.isSeller ==> r == HttpError(403, OnlySellerCanAdd))
                  && (owner.isSeller ==>
                        && r == Ok(Warehouse(old(db.nextWarehouseId), item, quantity, owner.id))
                        && Items(db.warehouses, owner.id) == Items(old(db.warehouses), owner.id) + [r.value]))
    ensures !r.Ok? ==> db.warehouses == old(db.warehouses) && db.nextWarehouseId == old(db.nextWarehouseId)
    ensures r.Ok? ==>
              && db.warehouses == old(db.warehouses) + [r.value]
              && db.nextWarehouseId == old(db.nextWarehouseId) + 1
              && GetWarehouseById(db.warehouses, r.value.id) == Some(r.value)
  {
    var auth := GetCurrentUsername(db.users, db.crypt, creds);
    if !auth.Ok? {
      return Propagate(auth);
    }
    var user := GetUserByUsername(db.users, auth.value).value;
    if !user.isSeller {
      return HttpError(403, OnlySellerCanAdd);
    }
    ghost var before := db.warehouses;
    var w := db.CreateWarehouse(item, quantity, user.id);
    ItemsAppend(before, w, user.id);
    r := Ok(w);
  }

  /**
   * `buy_item`. The row is read before any check, so a missing id fails with
   * an internal error. Then: a seller is refused with 403 whatever the stock;
   * an empty row gives 404; a request above the balance gives 403 carrying
   * the shortfall. Otherwise the row's quantity becomes balance - requested.
   * Nothing rejects a negative request, which raises the stock.
   */
  method BuyItem(db: Database, creds: Credentials, warehouseId: int, quantity: int)
    returns (r: Response<Warehouse>)
    requires db.Valid()
    modifies db
    ensures db.Valid()
    ensures db.users == old(db.users)
    ensures db.nextUserId == old(db.nextUserId) && db.nextWarehouseId == old(db.nextWarehouseId)
    ensures !r.Ok? ==> db.warehouses == old(db.warehouses)
    ensures NonNegativeStock(old(db.warehouses)) ==> NonNegativeStock(db.warehouses)
    ensures var auth := GetCurrentUsername(old(db.users), db.crypt, creds);
            var prod := GetWarehouseById(old(db.warehouses), warehouseId);
            && (auth.Internal? ==> r == Internal)
            && (auth.HttpError? ==> r == HttpError(401, IncorrectCredentials))
            && (auth.Ok? && prod.None? ==> r == Internal)
            && (auth.Ok? && prod.Some? ==>
                  var buyer := GetUserByUsername(old(db.users), creds.username).value;
                  var balance := prod.value.quantity;
                  && (buyer.isSeller ==> r == HttpError(403, OnlyCustomerCanBuy))
                  && (!buyer.isSeller && balance == 0 ==> r == HttpError(404, NoItem))
                  && (!buyer.isSeller && balance != 0 && balance < quantity ==>
                        r == HttpError(403, NotEnough(quantity - balance)))
                  && (r.Ok? <==> !buyer.isSeller && balance != 0 && quantity <= balance)
                  && (r.Ok? ==>
                        && r.value == prod.value.(quantity := balance - quantity)
                        && db.warehouses == Restocked(old(db.warehouses), warehouseId, balance - quantity)
                        && 0 <= r.value.quantity
                        && (quantity < 0 ==> r.value.quantity > balance)))
  {
    var auth := GetCurrentUsername(db.users, db.crypt, creds);
    if !auth.Ok? {
      return Propagate(auth);
    }
    var user := GetUserByUsername(db.users, auth.value).value;
    var prod := GetWarehouseById(db.warehouses, warehouseId);
    if prod.None? {
      return Internal;
    }
    var balance := prod.value.quantity;
    if user.isSeller {
      return HttpError(403, OnlyCustomerCanBuy);
    }
    if balance == 0 {
      return HttpError(404, NoItem);
    }
    if balance < quantity {
      return HttpError(403, NotEnough(quantity - balance));
    }
    balance := balance - quantity;
    ghost var before := db.warehouses;
    r := db.UpdateWarehouse(warehouseId, balance);
    if NonNegativeStock(before) {
      RestockedKeepsNonNegative(before, warehouseId, balance);
    }
  }

  /** Seller alice registers and stocks 10 widgets; then customer bob registers. */
  method OpenMarket(crypt: CryptContext, salt1: Salt, salt2: Salt) returns (db: Database)
    requires RoundTrip(crypt)
    ensures fresh(db) && db.Valid() && db.crypt == crypt
    ensures db.users == [User(1, "alice", crypt.hash("pw1", salt1), true),
                         User(2, "bob", crypt.hash("pw2", salt2), false)]
    ensures db.warehouses == [Warehouse(1, "widget", 10, 1)]
  {
    db := new Database(crypt);
    var created := CreateUser(db, "alice", "pw1", true, salt1);
    var alice := User(1, "alice", crypt.hash("pw1", salt1), true);
    assert db.users == [alice];
    LookupByUsername(db.users, alice);
    var stocked := CreateWarehouse(db, Credentials("alice", "pw1"), "widget", 10);
    assert db.warehouses == [Warehouse(1, "widget", 10, 1)];
    assert "bob" != alice.username;
    created := CreateUser(db, "bob", "pw2", false, salt2);
  }

  /**
   * Then bob buys 3 widgets (7 left), asks for 10 (refused, 3 short, still 7),
   * and alice, a seller, cannot buy at all.
   */
  method PurchaseScenario(crypt: CryptContext, salt1: Salt, salt2: Salt)
    requires RoundTrip(crypt)
  {
    var db := OpenMarket(crypt, salt1, salt2);
    var alice := User(1, "alice", crypt.hash("pw1", salt1), true);
    var bob := User(2, "bob", crypt.hash("pw2", salt2), false);
    var widget := Warehouse(1, "widget", 10, 1);
    LookupByUsername(db.users, alice);
    LookupByUsername(db.users, bob);
    LookupWarehouse(db.warehouses, widget);

    var bought := BuyItem(db, Credentials("bob", "pw2"), 1, 3);
    assert bought == Ok(widget.(quantity := 7));
    assert db.warehouses == [widget.(quantity := 7)];
    LookupWarehouse(db.warehouses, widget.(quantity := 7));

    var refused := BuyItem(db, Credentials("bob", "pw2"), 1, 10);
    assert refused == HttpError(403, NotEnough(3));
    assert db.warehouses == [widget.(quantity := 7)];

    refused := BuyItem(db, Credentials("alice", "pw1"), 1, 1);
    assert refused == HttpError(403, OnlyCustomerCanBuy);
  }
}
