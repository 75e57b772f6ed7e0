# Marketplace accounts, stock and purchases

A Dafny model of the core of a small marketplace web backend: users register as
sellers or customers, sellers create warehouse rows (an item and a quantity),
and customers buy quantity out of those rows. The model holds the two database
tables, `users` and `warehouses`, and the rules the request handlers apply
before they change them.

- `wrappers.dfy` (`Wrappers`): `Option`, the result of a `filter(...).first()` query.
- `http.dfy` (`Http`): a handler's outcome. `Ok` is a 200 response. `HttpError`
  is a raised `HTTPException` with its status and detail. `Internal` is an
  unhandled Python exception, which the framework answers with a 500. Also the
  exact detail texts (`Message`; main.py:31, 42, 65, 77, 106, 108, 110-111),
  with the shortfall rendered in decimal.
- `models.py` becomes `models.dfy` (`Models`): the `User` and `Warehouse` rows,
  the table constraints as predicates, and the `items`/`owner` relationship.
- `schemas.py` becomes `schemas.dfy` (`Schemas`): only the user response
  shape, which drops the password hash.
- `crud.py` becomes `crud.dfy` (`Crud`). The queries are functions over the
  tables. The `Database` class holds the tables and the id counters, and its
  methods model the inserts and the in-place quantity update. The bcrypt
  context is a `CryptContext` value holding two opaque functions. Its one
  assumed property, that a password verifies against any hash made from it, is
  the predicate `RoundTrip`. It appears as a precondition wherever it is used,
  not as an axiom.
- `main.py` becomes `handlers.dfy` (`Handlers`). Authentication and the
  read-only handlers are functions. The handlers that write are methods on a
  `Database` argument, and their contracts give the status code of each outcome.
  `OpenMarket` and `PurchaseScenario` are client code. They replay a purchase
  story (seller alice stocks 10 widgets, customer bob buys 3 and then asks for
  10, alice tries to buy) using only the handlers' contracts.

Points where the code's behaviour may surprise a client, all kept as written:

- Authentication with an unknown username ends in `Internal`, not 401. The
  lookup returns `None` and `get_current_username` dereferences it (main.py:36-37).
- Buying from a missing warehouse ends in `Internal`, not 404. `buy_item`
  reads `prod.quantity` before any check (main.py:103-104), so this happens
  even for a seller.
- `read_item` answers a missing id with `None` rather than 404 (main.py:91-92).
- Quantities are not range-checked (schemas.py:6); only the database's integer width bounds them (see "Left out"). A warehouse can be
  created with negative stock. A negative purchase passes the balance check
  and raises the stock.
- The purchase is a plain read-then-write, with no atomicity. The model is
  sequential and claims nothing about concurrent buys.

## Model

| member | source | states |
|---|---|---|
| `Models.Items` | models.py:14-25 | A user's `items` are exactly the warehouses whose `user_id` is that user's id, and no more rows than the table has |
| `Models.ItemsAppend` | crud.py:51-56 | A newly inserted warehouse joins its owner's items, at the end, and no other user's items |
| `Schemas.UserResponse` | schemas.py:40-44 | The user response has the row's id, username and seller flag, and the user's items. It has no password hash |
| `Crud.FirstIndex` | crud.py:22 | `filter(...).first()` gives the least position whose row matches, or nothing when no row matches |
| `Crud.GetUser` | crud.py:21-22 | Returns a row of the table with that id, or `None` exactly when no row has that id |
| `Crud.GetUserByUsername` | crud.py:25-26 | Returns the first row with that username, or `None` exactly when no row has it |
| `Crud.GetWarehouseById` | crud.py:47-48 | Returns a warehouse row with that id, or `None` exactly when no row has that id |
| `Crud.Page` | crud.py:29-30 | `offset(skip).limit(limit)` (also `get_warehouses`) is the run of rows from position skip, in table order. It has at most `limit` rows and stops early only at the end of the table |
| `Crud.PageRestart` | crud.py:43-44 | A page of n rows from skip, followed by a page of m rows from skip + n, is the page of n + m rows from skip |
| `Crud.LookupByUsername` | models.py:10 | With unique usernames, looking up a user's name returns exactly that user |
| `Crud.LookupWarehouse` | models.py:20 | With unique warehouse ids, looking up a row's id returns exactly that row |
| `Crud.RestockedLookup` | crud.py:59-65 | After the update, the row with that id has the new quantity and its old item and owner. Every other id reads as before, and ids stay unique |
| `Crud.RestockedKeepsTables` | models.py:20-23 | The quantity update keeps the primary keys, the unique usernames and the owner references |
| `Crud.RestockedKeepsNonNegative` | main.py:109-114 | Writing a non-negative quantity keeps every stock line non-negative |
| `Crud.Database.constructor` | main.py:11 | The freshly created tables are empty and satisfy every table constraint |
| `Crud.Database.CreateUser` | crud.py:33-40 | Inserts one row with a fresh id, the given username and seller flag, and `hash(password)` in place of the password. A duplicate username breaks the unique constraint: internal error, tables unchanged |
| `Crud.Database.CreateWarehouse` | crud.py:51-56 | Appends a row with item, quantity and owner as given, under a fresh id. The row reads back by that id. Users are unchanged and the constraints still hold |
| `Crud.Database.UpdateWarehouse` | crud.py:59-65 | A missing id is an internal error and nothing changes. Otherwise the table becomes `Restocked` (only that row's quantity changes), and the updated row is returned |
| `Handlers.GetCurrentUsername` | main.py:35-45 | An unknown username is an internal error. Otherwise the result is the username exactly when the password verifies against the stored hash, and 401 "Incorrect email or password" when it does not |
| `Handlers.AuthenticatesIff` | main.py:36-39 | With unique usernames, authentication succeeds if and only if some user has that username and a hash the password verifies against |
| `Handlers.RegisteredUserAuthenticates` | crud.py:13-18 | Given the hashing round trip, a user who has just registered authenticates when the decoded Basic credentials carry that username and password |
| `Handlers.CreateUser` | main.py:27-32 | A taken username gets 400 "User already registered" and both tables stay unchanged. Otherwise exactly one user is added, with the given name, seller flag and hashed password. The response shows that user with no hash and no items |
| `Handlers.ReadUsers` | main.py:55-58 | The response lists the users from position skip, in order and at most `limit` of them, each shown without the hash and with its items |
| `Handlers.ReadUser` | main.py:61-66 | Returns 200 exactly when a user has that id, and then the response is that user's row (id, username, seller flag) with its items. Otherwise 404 "User not found" |
| `Handlers.ReadItem` | main.py:89-92 | Returns the row with that id. When no row has that id the result is `None`, not an error |
| `Handlers.CreateWarehouse` | main.py:70-78 | Authentication failures pass through. A customer gets 403 "Only seller can add items!" and no row is added. A seller gets one new row that the seller owns, that reads back by its id, and that joins the seller's items |
| `Handlers.BuyItem` | main.py:99-115 | Authentication failures pass through, and a missing row is an internal error. A seller gets 403 whatever the stock. Zero stock gives 404. A request above the balance gives 403 carrying shortfall = requested - balance. In each of these cases nothing changes. Success happens exactly when none of these hold: only that row's quantity changes, to balance - requested, which is never negative. Non-negative stock stays non-negative, and a negative request raises the stock |
| `Http.NatToStringRoundTrip` | main.py:110-111 | The decimal rendering of a shortfall reads back as exactly that number |
| `Http.ShortfallInMessage` | main.py:110-111 | The "Not enough ... items!" detail is the fixed prefix, the shortfall's decimal digits and the fixed suffix, and those digits read back as the shortfall |

## Left out

- HTTP routing, dependency injection and response serialisation (main.py:13-14 and the decorators). Each handler is modelled by its outcome and status code only. FastAPI validating a `None` return against the response model is not modelled.
- Database sessions, `get_db`, `create_all`, commit and refresh. They are I/O, so the tables are in-memory sequences. The row order of an unordered query is taken to be insertion order. Primary keys come from counters that start at 1, standing in for the database's key sequence.
- `database.py` is not part of this model. Out-of-range paging arguments follow SQLite: a negative offset counts as 0 and a negative limit as no limit.
- bcrypt internals (`CryptContext`, crud.py:10). Hashing and verification are opaque functions, and the random salt is a parameter. Nothing beyond the round trip is assumed: not that different passwords fail, not bcrypt's 72-byte truncation, and not passlib's exception on a malformed hash.
- `secrets.compare_digest` (main.py:37) is plain string equality. Its constant-time behaviour is not modelled. Its `TypeError` on non-ASCII strings cannot arise here, since the framework decodes Basic credentials as ASCII.
- Decoding of the HTTP Basic header. `GetCurrentUsername` takes already decoded credentials. Registration accepts any username, but a username containing ':' (section 2 of RFC 7617) or non-ASCII credentials can never arrive through Basic authentication, so such users cannot log in; `RegisteredUserAuthenticates` speaks only of credentials that do arrive decoded.
- The database's integer width. `quantity` (models.py:22) and the ids are stored as the database's INTEGER, 64-bit under SQLite; the model uses unbounded integers. A buy whose new quantity does not fit (for example a request of -2^63 on stock 5) fails in the database with an internal error and writes nothing, while `BuyItem` returns success.
- The `WWW-Authenticate: Basic` header of the 401 response. The framework's own 401 when no credentials are sent at all.
- `read_current_user` (main.py:49-51) and `read_items` (main.py:82-85) have no logic of their own: they return `GetCurrentUsername`'s username and `Crud.Page` of the warehouses.
- Concurrent requests and the read-then-write race in `buy_item` (main.py:103-114). The model is sequential.
- Crud.Database.CreateWarehouse: requires the owner id to exist, as the `user_id` foreign key declares. Its only caller passes the id of the authenticated seller. Whether the database enforces the key is not modelled.
- The list endpoints' query defaults (skip 0, limit 100, main.py:56 and 83) are ordinary arguments of `ReadUsers` and `Crud.Page`.
- `is_seller`'s column default (models.py:12) never takes effect, because the request schema requires the flag. The rest of `schemas.py` is transfer shapes with no logic.
