# Delivery-order backend: access rules, order store and authentication

This project models the decision logic of a small delivery-order backend
written with NestJS and TypeORM. Three parts are modelled:

- **The order endpoints** (`OrdersController`). Each protected handler runs a
  role and ownership guard and then delegates to the order service. A caller
  who is not `delivery` may list only their own orders. Only `delivery`
  callers may change an order's status. Reading one order by id takes no
  identity at all.
- **The order service** (`Orders`). The repository is a map from primary key
  to row. The service looks an order up by id (NotFound when absent), lists
  one user's orders newest first, and updates an order's status by fetching
  the row, overwriting its status and saving it. There is no transition
  graph: any status may replace any other.
- **Registration and login** (`Auth`, over the directory in `Users` and the
  token layer in `Jwt`). Registration refuses a taken email, otherwise stores
  one new user with a digest of the password and answers with a token. Login
  answers with a token when the email is known and the password matches its
  digest, and otherwise with one and the same Unauthorized answer.

The password hash and the token signer are library code. They enter the model
as values: a `Hasher` whose `compare` accepts every digest `hash` makes of the
same plaintext (`SoundHasher`), and a `Signer` whose tokens verify back to the
claims they were signed for (`SoundSigner`). The random salt and the clock
are parameters.

State that the source changes in place is a class: `Orders.OrdersService`
holds the order map, `Users.UsersService` the user map and the id sequence.
The two service operations that change state,
`Orders.OrdersService.UpdateOrderStatus` and `Auth.AuthService.Register`, are
each proved equal to a pure step function (`Orders.StatusUpdate`,
`Auth.RegisterStep`), and the lemmas are stated about those functions. The
directory's own `Users.UsersService.Create` states its new map and next id
directly in its postcondition. The queries and the guards are functions.

The code has no forward-only rule for order status. The model follows the
code, and `OrdersController.DeliverySetsAnyStatus` states that any status may
overwrite any other.

## Model

| member | source | states |
|---|---|---|
| `Orders.FindOrder` | src/orders/orders.service.ts:33-41 | Ok with the stored row exactly when the id is in the repository; otherwise NotFound("Order not found") |
| `Orders.FoundOrderHasRequestedId` | src/orders/orders.service.ts:34-36 | under the repository invariant, a found order carries the id it was looked up by |
| `Orders.NewestFirst` | src/orders/orders.service.ts:17 | the given keys, each exactly once, ordered by creation time descending |
| `Orders.UserOrders` | src/orders/orders.service.ts:14-18 | exactly the stored rows owned by the user, each once, newest first; empty exactly when the user owns no order |
| `Orders.StatusUpdate` | src/orders/orders.service.ts:21-31 | keeps the repository invariant and key set; the answer is what a following lookup of the id returns (NotFound when absent) |
| `Orders.OrdersService.UpdateOrderStatus` | src/orders/orders.service.ts:21-31 | the answer and the new repository are those of `StatusUpdate` on the old repository |
| `Orders.UpdateOfMissingOrderSavesNothing` | src/orders/orders.service.ts:25-28 | an absent id answers NotFound and the repository is unchanged |
| `Orders.UpdateReplacesOnlyStatus` | src/orders/orders.service.ts:29-30 | the saved row is the stored row with only its status replaced, whatever the old status; every other row is unchanged; the answer is the row as saved |
| `Orders.UpdateKeepsOwnership` | src/orders/orders.service.ts:29-30 | a status update does not change which orders any user owns |
| `Orders.UpdateIsIdempotent` | src/orders/orders.service.ts:29-30 | setting the same status twice gives the same answer and repository as setting it once |
| `OrdersController.GetOrderById` | src/orders/orders.controller.ts:22-25 | Ok with the stored row exactly when the id is in the repository, otherwise NotFound("Order not found"); no caller identity is taken |
| `OrdersController.PublicReadBypassesOwnership` | src/orders/orders.controller.ts:22-37 | a caller refused the owner's listing still reads any single order of that owner by its id |
| `OrdersController.GetUserOrders` | src/orders/orders.controller.ts:27-37 | Forbidden exactly when the caller is not `delivery` and their id differs from the requested user id; otherwise exactly the service's listing |
| `OrdersController.UpdateOrderStatus` | src/orders/orders.controller.ts:39-52 | a non-`delivery` caller gets Forbidden and the repository is unchanged; a `delivery` caller gets the service update with the requested status |
| `OrdersController.HandleUpdateOrderStatus` | src/orders/orders.controller.ts:46-51 | over the service object: matches `UpdateOrderStatus`, and a refused caller leaves the service untouched |
| `OrdersController.RefusedListingIgnoresStore` | src/orders/orders.controller.ts:33-36 | a refused listing answers Forbidden whatever the repository holds |
| `OrdersController.DeliveryListsAnyUser` | src/orders/orders.controller.ts:33-36 | a `delivery` caller may list any user's orders and gets the service listing |
| `OrdersController.ClientListsOnlyOwnOrders` | src/orders/orders.controller.ts:33-36 | a `client` gets their own listing and Forbidden for any other user id |
| `OrdersController.RefusedUpdateSavesNothing` | src/orders/orders.controller.ts:46-50 | a non-`delivery` caller gets Forbidden whether or not the order exists, and nothing is saved |
| `OrdersController.DeliverySetsAnyStatus` | src/orders/orders.controller.ts:51 | a `delivery` caller sets any requested status on any existing order, and a following lookup sees it |
| `Users.UsersService.FindByEmail` | src/users/users.service.spec.ts:48-70 | a user is found exactly when one has that exact email, and the user found has it |
| `Users.UsersService.Create` | src/users/users.service.spec.ts:72-93 | saves the user under its email with the next id, keeping the directory invariant |
| `Auth.ValidateUserCredentials` | src/auth/auth.service.ts:55-86 | the user's `{id, email, role}` exactly when the email is known and the password matches its digest; none otherwise |
| `Auth.Login` | src/auth/auth.service.ts:19-30 | Ok exactly when the credentials validate, with the user's identity and a token for it; otherwise Unauthorized("Invalid email or password") |
| `Auth.RegisterStep` | src/auth/auth.service.ts:32-53 | refused exactly when the email is taken; keeps the directory invariant; never alters an existing user |
| `Auth.AuthService.Register` | src/auth/auth.service.ts:32-53 | the answer and the new directory are those of `RegisterStep` on the old directory |
| `Auth.DuplicateRegistrationWritesNothing` | src/auth/auth.service.ts:33-36 | a taken email answers Unauthorized("User already exists") and the directory and id sequence are unchanged |
| `Auth.FreshRegistrationAddsOneUser` | src/auth/auth.service.ts:38-52 | a fresh email adds exactly one user, with the next id, that email and role and the digest of the password; the answer carries its identity |
| `Auth.LoginFailuresLookAlike` | src/auth/auth.service.ts:19-27 | an unknown email and a wrong password give the identical Unauthorized answer |
| `Auth.PayloadRoundTrip` | src/auth/jwt.strategy.ts:17-19 | `Jwt.Validate` (the strategy's `validate`) and `Auth.PayloadOf` are inverse to one another: claims `{email, sub, role}` map to the identity `{id, email, role}` and back |
| `Auth.TokenCarriesIdentity` | src/auth/auth.service.ts:99-110 | with a sound signer, the token `Auth.GenerateTokenResponse` (`generateTokenResponse`) issues verifies to claims that `Jwt.Validate` maps back to the response's user |
| `Auth.RegisterThenLogin` | src/auth/auth.service.ts:19-53 | with a sound hasher, register then login with the same credentials succeeds with the same id, email and role, and the token verifies to them |
| `Auth.LoginAfterRefusedRegistration` | src/auth/auth.service.ts:33-36 | a refused registration leaves every login answering as before |

## Left out

- bcrypt itself is not modelled: its salt rounds (10), its random salt and its truncation of long passwords. Hashing and comparing are the abstract `Hasher`.
- JWT signing is not modelled beyond the abstract `Signer`: the secret, expiry, signature checking and bearer-token extraction are library behaviour. The configuration reads a `JWT_SECRET` key that the key constants do not define; that is configuration, not core logic.
- `UsersService` itself is not part of this model. `Users.UsersService` follows its tests: lookup by exact email and creation with a generated id.
- `Users.UsersService.Create` requires that the email be free. The unique-constraint failure that a concurrent duplicate registration would raise is not modelled.
- Request validation is outside the model. Roles and statuses are in their enums by their types. The email format check is not modelled.
- `Auth.AuthService.Register`: its `requires |password| >= 6` is the request object's declared rule, taken as an assumption. In the files of this model no validation pipe is installed (src/main.ts:4-10, src/app.module.ts:8-12, and the `@Body()` at src/orders/orders.controller.ts:43 has none), so the declared checks (the length rule and the enum checks on role and status) may not run; a status or role outside its enum cannot be represented here. The authentication module's wiring is not part of this model. This is an observation from reading the source; it was not executed.
- The id-parsing pipe and its 400 answer are outside the model: ids are integers.
- The queries in the source do not load the `user` relation, so the rows they return carry no owner. The model returns the stored row with its `ownerId`.
- The order `total`, both `updated_at` columns, and the user's `firstName`, `lastName` and `isActive` columns are not modelled. `created_at` is kept only as an integer sort key.
- A user row with a null password cannot be modelled; registration always stores a digest.
- `Orders.NewestFirst`, `Orders.UserOrders`, `OrdersController.GetUserOrders`: rows created at the same instant may come in any order, as from the database. These members are ghost because that choice is not deterministic.
- Concurrent requests are not modelled: each request is one sequential step, so the last-write-wins race on a status update is not captured.
- Persistence failures and their 500 answers are not modelled.
- `Users.UsersService.Create` cannot fail in the model. In the source, `firstName` and `lastName` are non-null columns without defaults (src/users/entities/user.entity.ts:10-14) that `register` never sets (src/auth/auth.service.ts:40-44), so on a schema generated from the entity the insert would plausibly fail with a 500. `Auth.FreshRegistrationAddsOneUser` and `Auth.RegisterThenLogin` hold only under the model's infallible `Create`. This is an observation from reading the source; it was not executed.
