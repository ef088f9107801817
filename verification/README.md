# MERN samples: chat coordinator, role guards, orders, validators and list reducers

This project models the decision logic of a collection of MERN sample apps and
proves properties of it in Dafny. Once the database, tokens, hashing, the
socket transport and React are abstracted away, five groups of small, pure
rules remain:

- **Real-time chat.** The Socket.IO coordinator keeps three things: live
  connections, a username-to-socket registry and per-room presence lists.
  `ChatSocket` models it as one state-transition function per handler, each
  returning the new state and the list of events it emits.
  `ChatStore` models the message store and its REST handlers: room and user
  listings, and edit and delete by the original sender. `ChatClient` models
  the chat page's reducers: the incoming-message filter, the typing
  indicator, replace-by-id and remove-by-id, and the send guard.
- **Role-based access.** `Rbac` models the route guards
  (`isSuperAdmin`, `isAdminOrSuperAdmin`, `canManageUser`).
  `Users` models the user controller: role-scoped listing, update
  sanitisation and deletion. `Auth` models registration with role
  assignment, bearer parsing and login. `Accounts` holds the shared user
  records.
- **Orders.** `Orders` models checkout (preconditions, total, cart
  removal), the update merge with its status permission, and owner-only
  delete.
- **GraphQL input validators.** `Validation` models the email pattern, the
  password length and the trimmed name.
- **Admin list pages.** `ListSearch` is the shared case-insensitive
  substring filter. `ProductCatalog` is the product search and add-to-cart
  quantity. `UserDirectory` is the user search and its create/edit form.
  `CartView` is the flattened cart table and its ownership gating.
  `AvailableDays` is the PostgreSQL user form's day checkboxes.
  `ClientSession` is the pages' admin test.

Shared helpers live in `Wrappers` (`Option`, `Result`, `Failure`, JS
truthiness), `Seqs` (filter, find-first, remove-at, subsequence), `Sorting`
(a stable insertion sort by key) and `Text` (ASCII trim and lower-case,
`includes`, `split`, the last path segment, decimal rendering).

Every handler is one atomic transition. Foreign pieces are parameters:

- **Token verification and password hashing.** A token verifier is a map
  from accepted token to user id. A hash is a given string. Password
  comparison is a given predicate.
- **The handshake's identity.** It arrives as an optional account.
- **Fresh ids, timestamps and the outcome of a save.** These are given
  values.
- **The stored user accounts of the chat app.** The message listings and
  the edit handler look senders up in them. They are a given directory
  from user id to account; the join history uses the same directory.

## Model

| member | source | states |
|---|---|---|
| `Accounts.FindById` | RBAC-MERN/RBAC-Node-MongoDB/middlewares/rbacMiddleware.js:55 | the user found is stored under that id; nothing is found exactly when no user has the id |
| `Rbac.IsSuperAdmin` | RBAC-MERN/RBAC-Node-MongoDB/middlewares/rbacMiddleware.js:5-10 | the request passes iff the role is "superadmin"; every refusal is 403 |
| `Rbac.IsAdminOrSuperAdmin` | RBAC-MERN/RBAC-Node-MongoDB/middlewares/rbacMiddleware.js:13-20 | the request passes iff the role is "admin" or "superadmin"; every refusal is 403 |
| `Rbac.SuperAdminGuardStricter` | RBAC-MERN/RBAC-Node-MongoDB/middlewares/rbacMiddleware.js:5-20 | whoever passes the superadmin guard passes the admin-or-superadmin guard |
| `Rbac.TargetId` | RBAC-MERN/RBAC-Node-MongoDB/middlewares/rbacMiddleware.js:25-31 | a missing or empty id parameter means the requester's own id |
| `Rbac.CanManageUser` | RBAC-MERN/RBAC-Node-MongoDB/middlewares/rbacMiddleware.js:23-96 | 400 iff the target id is malformed. For a well-formed id: a superadmin always passes, even for a non-existent user. A user passes iff the id is their own. An admin passes iff the id is their own or the first user with it has a role that lower-cases to "user". 404 iff an admin names a missing user who is not themselves. Any other role never passes. Refusals are only 400, 403 or 404 |
| `Rbac.OwnProfileAllowed` | RBAC-MERN/RBAC-Node-MongoDB/middlewares/rbacMiddleware.js:28-87 | a request about one's own well-formed id passes iff the role is one of the three known roles, with or without an explicit id |
| `Rbac.AdminCannotEscalate` | RBAC-MERN/RBAC-Node-MongoDB/middlewares/rbacMiddleware.js:49-74 | an admin who passes for another id is acting on an existing account whose role lower-cases to "user" |
| `Rbac.RoleMonotone` | RBAC-MERN/RBAC-Node-MongoDB/middlewares/rbacMiddleware.js:43-87 | access grows with the role: user, then admin, then superadmin, for the same id and target |
| `Rbac.MalformedIdRefusedForEveryRole` | RBAC-MERN/RBAC-Node-MongoDB/middlewares/rbacMiddleware.js:36-40 | a malformed id gets the same 400 whatever the role and whatever the stored users |
| `Users.GetAllUsers` | RBAC-MERN/RBAC-Node-MongoDB/controllers/userController.js:5-25 | a superadmin gets every account without its password. An admin gets exactly the accounts with role "user": each listed one has that role and comes from the store, and each such account is listed. Any other role gets 403 |
| `Users.AdminListingIsSubsequence` | RBAC-MERN/RBAC-Node-MongoDB/controllers/userController.js:9-12 | an admin's listing is an order-preserving subsequence of the superadmin's |
| `Users.ViewsSubseq` | RBAC-MERN/RBAC-Node-MongoDB/controllers/userController.js:10-12 | dropping the password keeps the subsequence relation between two user lists |
| `Users.GetUserById` | RBAC-MERN/RBAC-Node-MongoDB/controllers/userController.js:43-59 | 404 iff no user has the id; otherwise the view of a stored user with that id |
| `Users.Sanitised` | RBAC-MERN/RBAC-Node-MongoDB/controllers/userController.js:62-78 | a non-superadmin's non-empty role is dropped. A non-empty password becomes its hash. An empty or missing password is dropped. Name, email, address and contact pass unchanged |
| `Users.UpdateUserById` | RBAC-MERN/RBAC-Node-MongoDB/controllers/userController.js:62-102 | 404 with nothing changed iff no user has the id. Otherwise only the first such user is patched with the sanitised body, and the answer holds exactly its id, name, email and role |
| `Users.UpdateEffect` | RBAC-MERN/RBAC-Node-MongoDB/controllers/userController.js:67-88 | an update changes one account only and keeps its id. A non-superadmin cannot give it a new non-empty role. A missing or empty password keeps the stored hash |
| `Users.DeleteUserById` | RBAC-MERN/RBAC-Node-MongoDB/controllers/userController.js:105-122 | 404 with nothing changed iff no user has the id; otherwise exactly the first such user is removed |
| `Users.DeleteRemoves` | RBAC-MERN/RBAC-Node-MongoDB/controllers/userController.js:107-112 | with unique ids, the deleted id is gone and ids stay unique |
| `Users.ManagedUpdate` | RBAC-MERN/RBAC-Node-MongoDB/routes/userRoutes.js:16 | the update route answers with the guard's refusal unchanged, or runs the handler on the guard's target id |
| `Users.ManagedUpdateProtectsOthers` | RBAC-MERN/RBAC-Node-MongoDB/routes/userRoutes.js:16 | through the guarded route, a user changes no other account, and an admin changes no other account whose role is not "user" |
| `Auth.BearerToken` | RBAC-MERN/RBAC-Node-MongoDB/controllers/authController.js:27-29 | there is a token iff the header is present and starts with "Bearer ". The token is the space-free text after the prefix, up to the next space or the end |
| `Auth.BearerRoundTrip` | RBAC-MERN/RBAC-Node-MongoDB/controllers/authController.js:28-29 | "Bearer " followed by a space-free token, optionally followed by a space and anything, parses back to that token |
| `Auth.AssignedRole` | RBAC-MERN/RBAC-Node-MongoDB/controllers/authController.js:25-55 | without a bearer header the role is "user". 401 iff the token fails verification or names no existing user. When a verified, existing caller asks for a role other than "user", a superadmin caller gets exactly that role and any other caller gets 403; asking for no role or for "user" gives "user". A role other than "user" is granted only this way. Refusals are only 401 or 403 |
| `Auth.Register` | RBAC-MERN/RBAC-Node-MongoDB/controllers/authController.js:15-72 | 400 iff the email is already used, with no account created. Otherwise the role decision's refusal passes through, or exactly one account with the assigned role is appended and its profile returned |
| `Auth.NoSelfElevation` | RBAC-MERN/RBAC-Node-MongoDB/controllers/authController.js:25-49 | a registration yields a role other than "user" only through a verified superadmin's token; without a header it always yields "user" |
| `Auth.RegisterKeepsUnique` | RBAC-MERN/RBAC-Node-MongoDB/controllers/authController.js:19-23 | registration keeps emails unique, and ids too when the new id is fresh |
| `Auth.Login` | RBAC-MERN/RBAC-Node-MongoDB/controllers/authController.js:80-113 | succeeds iff the first account with the email has a matching password, answering the profile of an account with that email; an unknown email and a wrong password give the same 401 |
| `Auth.RegisterThenLogin` | RBAC-MERN/RBAC-Node-MongoDB/controllers/authController.js:57-107 | a fresh registration can log in with its password and gets back the profile registration answered |
| `Orders.TotalConcat` | RBAC-MERN/RBAC-Node-MongoDB/controllers/orderController.js:40-45 | the total of two runs of lines is the sum of their totals |
| `Orders.TotalNonNegative` | RBAC-MERN/RBAC-Node-MongoDB/controllers/orderController.js:40-45 | non-negative prices and quantities give a non-negative total |
| `Orders.ComputeTotal` | RBAC-MERN/RBAC-Node-MongoDB/controllers/orderController.js:40-45 | the running sum of the checkout loop equals the sum of price × quantity over all lines |
| `Orders.OrderLines` | RBAC-MERN/RBAC-Node-MongoDB/controllers/orderController.js:41-50 | the order lines match the cart lines one for one, in order, with the same product ids and quantities |
| `Orders.CreateOrder` | RBAC-MERN/RBAC-Node-MongoDB/controllers/orderController.js:7-78 | 403 for any role but "user". 400 for a missing user, an incomplete address, no cart, or an empty first cart. 500 when a line of a non-empty first cart has no resolved product. Otherwise the order is placed: it copies the user's first cart line for line with its total, contact and address, and that cart is removed. Every failure changes nothing |
| `Orders.CheckoutClearsCart` | RBAC-MERN/RBAC-Node-MongoDB/controllers/orderController.js:62-64 | with one cart per user, a placed order leaves its user no cart and keeps every other cart |
| `Orders.UpdateOrder` | RBAC-MERN/RBAC-Node-MongoDB/controllers/orderController.js:119-160 | 500 iff the id is malformed, and 404 iff no order has it. 403 iff a caller who is not admin or superadmin sends a truthy status. There is no other failure, so every other request succeeds. On success only the first order with the id is rewritten, keeping its id and owner. Every failure changes nothing |
| `Orders.UpdateFallbacks` | RBAC-MERN/RBAC-Node-MongoDB/controllers/orderController.js:119-148 | an update of a stored order with a well-formed id succeeds unless a caller who is not admin or superadmin sends a truthy status. Products, total, address and contact each take the value sent when it is truthy and keep the old value otherwise. An admin or superadmin's truthy status is written. A status changes only for an admin or superadmin, and only to the truthy value sent. Id and owner are kept |
| `Orders.UpdateIgnoresOwnership` | RBAC-MERN/RBAC-Node-MongoDB/controllers/orderController.js:119-148 | the update never looks at who owns the order: two callers with the same role get the same outcome |
| `Orders.DeleteOrder` | RBAC-MERN/RBAC-Node-MongoDB/controllers/orderController.js:163-191 | 500 iff the id is malformed, 404 iff no order has it, and 403 iff the caller does not own it. There is no other failure, so the owner's delete succeeds: exactly that order is removed and returned. Every failure changes nothing |
| `Orders.DeleteSparesOthers` | RBAC-MERN/RBAC-Node-MongoDB/controllers/orderController.js:173-179 | every order of other users survives a caller's delete, in order |
| `Validation.EmailPatternIsShape` | GraphQL/src/helpers/validation.js:4 | the single scan for the email pattern accepts exactly the strings of the form: a plain run, '@', a plain run, '.', a plain run. Each run is non-empty and free of whitespace and '@' |
| `Validation.ValidateEmail` | GraphQL/src/helpers/validation.js:3-9 | accepts iff the email is present, non-empty and of the pattern's shape, returning it unchanged; anything else is a user-input error |
| `Validation.AcceptedEmailSingleAt` | GraphQL/src/helpers/validation.js:4 | an accepted email has exactly one '@', neither first nor last, and no whitespace |
| `Validation.EmailAcceptedExample` | GraphQL/src/helpers/validation.js:4-8 | "ann@mail.io" is accepted unchanged |
| `Validation.EmailTrailingDotRejected` | GraphQL/src/helpers/validation.js:4-6 | for every local part without '@' and every dot-free host, "local@host." is refused: a domain whose only dot ends it does not satisfy the pattern |
| `Validation.EmailLeadingDotRejected` | GraphQL/src/helpers/validation.js:4-6 | for every local part without '@' and every dot-free host, "local@.host" is refused: a domain whose only dot starts it does not satisfy the pattern |
| `Validation.EmailSpaceRejected` | GraphQL/src/helpers/validation.js:4-6 | any email with a whitespace character anywhere is refused |
| `Validation.ValidatePassword` | GraphQL/src/helpers/validation.js:11-16 | accepts iff the password is present with at least six characters, returning it unchanged; otherwise a user-input error |
| `Validation.ValidateName` | GraphQL/src/helpers/validation.js:18-23 | accepts iff the trimmed name keeps at least three characters, returning the trimmed name; otherwise a user-input error |
| `Validation.ValidateNameIdempotent` | GraphQL/src/helpers/validation.js:22 | a validated name has no whitespace at either end, is a slice of the input, and validates to itself |
| `Validation.ValidatorsIdempotent` | GraphQL/src/helpers/validation.js:3-16 | validating an accepted email or password again gives the same answer |
| `Text.Trim` | GraphQL/src/helpers/validation.js:19 | a non-empty trimmed string starts and ends with non-whitespace |
| `Text.TrimSlice` | GraphQL/src/helpers/validation.js:22 | the trimmed string is the slice of the input between a whitespace-only prefix and a whitespace-only suffix |
| `Text.TrimEmptyIffBlank` | Mern-Chatapp-Socketio/chat-app-backend/socket.js:69 | trimming gives "" iff the string is all whitespace |
| `Text.TrimIdempotent` | GraphQL/src/helpers/validation.js:22 | trimming a trimmed string changes nothing |
| `Text.ToLowerIdempotent` | RBAC-MERN/RBAC-React/src/components/productList.jsx:52 | lower-casing twice is lower-casing once |
| `Text.IncludesIff` | RBAC-MERN/RBAC-React/src/components/productList.jsx:62-65 | the left-to-right `includes` scan succeeds iff the needle occurs at some index |
| `Text.IncludesTransitive` | RBAC-MERN/RBAC-React/src/components/productList.jsx:62-65 | a piece of a piece is a piece of the whole |
| `Text.IncludesLower` | RBAC-MERN/RBAC-React/src/components/productList.jsx:52-65 | inclusion survives lower-casing both sides |
| `Text.IncludedInEmpty` | RBAC-MERN/RBAC-React/src/components/productList.jsx:54-65 | only the empty string is included in the empty string |
| `Text.SplitPiecesFree` | Mern-Chatapp-Socketio/chat-app-backend/controllers/chatController.js:22 | no piece of a split contains the separator |
| `Text.JoinSplit` | Mern-Chatapp-Socketio/chat-app-backend/controllers/chatController.js:22 | joining the pieces of a split with the separator gives back the string |
| `Text.SplitJoin` | Mern-Chatapp-Socketio/chat-app-backend/controllers/chatController.js:22 | splitting separator-free pieces joined by the separator gives back the pieces |
| `Text.Basename` | Mern-Chatapp-Socketio/chat-app-backend/controllers/chatController.js:22 | the last path segment holds no '/' |
| `Text.BasenameSuffix` | Mern-Chatapp-Socketio/chat-app-backend/controllers/chatController.js:22 | the last segment is a suffix of the path, preceded by a '/' unless it is the whole path |
| `Text.BasenameOfPath` | Mern-Chatapp-Socketio/chat-app-backend/controllers/chatController.js:22 | the last segment of "dir/name" is name, for a name without '/' |
| `Text.IntString` | RBAC-MERN/RBAC-React/src/components/productList.jsx:56 | a number's decimal text is never empty: digits, with a leading '-' for negatives |
| `Text.NatStringValue` | RBAC-MERN/RBAC-React/src/components/productList.jsx:56 | the decimal text of a natural number reads back as that number, and has no leading zero unless it is "0" |
| `Text.IntStringValue` | RBAC-MERN/RBAC-React/src/components/productList.jsx:56 | the text of a non-negative integer reads back as it; the digits after the minus sign of a negative one read back as its magnitude |
| `Text.IntStringInjective` | RBAC-MERN/RBAC-React/src/components/productList.jsx:56 | two integers have the same text iff they are equal |
| `ListSearch.SearchBy` | RBAC-MERN/RBAC-React/src/components/productList.jsx:53-67 | the result is an order-preserving subsequence. Every kept item has the lower-cased query in some field, and every item with it in some field is kept |
| `ListSearch.EmptyQueryKeepsAll` | RBAC-MERN/RBAC-React/src/components/productList.jsx:52-67 | the empty query keeps every item that has a field |
| `ListSearch.CaseInsensitive` | RBAC-MERN/RBAC-React/src/components/productList.jsx:52 | queries that differ in letter case give the same result |
| `ListSearch.Narrowing` | RBAC-MERN/RBAC-React/src/components/productList.jsx:61-66 | when one query includes another, its result is a subsequence of the other's |
| `ProductCatalog.JoinCommaHoldsParts` | RBAC-MERN/RBAC-React/src/components/productList.jsx:57-58 | every category occurs in the ", "-joined text |
| `ProductCatalog.Search` | RBAC-MERN/RBAC-React/src/components/productList.jsx:51-70 | the products kept are exactly those with the lower-cased query in their name, description, price text or categories text, in list order |
| `ProductCatalog.SearchLaws` | RBAC-MERN/RBAC-React/src/components/productList.jsx:52-67 | the empty query lists everything, letter case is ignored, and a longer query never lists more |
| `ProductCatalog.PriceFound` | RBAC-MERN/RBAC-React/src/components/productList.jsx:56-66 | searching for a product's price, written as its decimal text, finds the product |
| `ProductCatalog.CategoryFound` | RBAC-MERN/RBAC-React/src/components/productList.jsx:57-65 | a query found in any one category of a list finds the product |
| `ProductCatalog.BlankProductMatchesOnlyEmpty` | RBAC-MERN/RBAC-React/src/components/productList.jsx:54-59 | a product with every field missing is found iff the query lower-cases to "" |
| `ProductCatalog.CartQuantity` | RBAC-MERN/RBAC-React/src/components/productList.jsx:319-329 | the quantity sent is never 0. It is the typed value when that is a non-zero number, and 1 when the value is missing, unparsable or 0 |
| `ProductCatalog.SetQuantity` | RBAC-MERN/RBAC-React/src/components/productList.jsx:320-325 | typing a quantity for one product changes what is sent for that product alone |
| `ClientSession.IsAdmin` | RBAC-MERN/RBAC-React/src/components/productList.jsx:24 | admin controls show iff the stored role is "admin" or "superadmin"; never when signed out |
| `ClientSession.IsAdminMatchesServerGuard` | RBAC-MERN/RBAC-React/src/components/cartList.jsx:9 | the pages' admin test agrees with the server's admin-or-superadmin guard |
| `UserDirectory.FilteredUsers` | RBAC-MERN/RBAC-React/src/components/userList.jsx:93-100 | the users kept are exactly those with the lower-cased term in their lower-cased name, email or role, in list order |
| `UserDirectory.FilterLaws` | RBAC-MERN/RBAC-React/src/components/userList.jsx:93-100 | the empty term lists everyone, letter case is ignored, and a longer term never lists more |
| `UserDirectory.AdminSearchFindsBothAdminRoles` | RBAC-MERN/RBAC-React/src/components/userList.jsx:98 | searching "admin" in any case lists every admin and every superadmin |
| `UserDirectory.Submit` | RBAC-MERN/RBAC-React/src/components/userList.jsx:154 | the button updates iff a user is being edited, otherwise registers, sending the form as it stands |
| `UserDirectory.OnEvent` | RBAC-MERN/RBAC-React/src/components/userList.jsx:56-163 | a cancel or a successful save resets to the blank form with role "user" and hides it. A failed save changes nothing. Starting an edit loads the user's fields with an empty password |
| `UserDirectory.ClosedFormRegisters` | RBAC-MERN/RBAC-React/src/components/userList.jsx:68-90 | after a save or a cancel, the next submission, even after reopening the form, registers a blank plain user |
| `UserDirectory.EditBody` | RBAC-MERN/RBAC-React/src/components/userList.jsx:70 | the update sends every form field and nothing else |
| `UserDirectory.EditKeepsPassword` | RBAC-MERN/RBAC-React/src/components/userList.jsx:59-70 | saving an edit whose password was left empty keeps every stored password |
| `UserDirectory.BlankFormRegistersUser` | RBAC-MERN/RBAC-React/src/components/userList.jsx:81-84 | registering from the blank form never yields a role other than "user" |
| `CartView.LoadCarts` | RBAC-MERN/RBAC-React/src/components/cartList.jsx:19-27 | an admin gets every cart, or none when the field is missing. Anyone else gets a list of at most one cart, which is non-empty iff the answer has a cart |
| `CartView.UserName` | RBAC-MERN/RBAC-React/src/components/cartList.jsx:61 | a row's user name is never empty ("Unknown" stands in) |
| `CartView.Rows` | RBAC-MERN/RBAC-React/src/components/cartList.jsx:59-63 | a cart gives one row per item, in order, each tagged with the cart's user name and id |
| `CartView.AllProductsLength` | RBAC-MERN/RBAC-React/src/components/cartList.jsx:58-64 | the table has one row per item over all carts; carts without items add none |
| `CartView.AllProductsConcat` | RBAC-MERN/RBAC-React/src/components/cartList.jsx:58 | flattening two runs of carts is flattening each and concatenating |
| `CartView.AllProductsIndex` | RBAC-MERN/RBAC-React/src/components/cartList.jsx:58-64 | item j of cart i is the row right after the items of the earlier carts, tagged with cart i's user |
| `CartView.OwnRowsOnly` | RBAC-MERN/RBAC-React/src/components/cartList.jsx:95-136 | a signed-in user may change a row iff its cart names them as its user |
| `CartView.QuantityChange` | RBAC-MERN/RBAC-React/src/components/cartList.jsx:34-46 | nothing is sent iff the value is a number below 1; otherwise the value is sent as typed (a value that is not a number gets through) |
| `AvailableDays.Toggle` | PostgreSQL-CRUD/frontend-part/src/component/userList.jsx:137-147 | the clicked day flips membership, every other day keeps it, and an absent day is appended at the end. Removing a day drops every copy of it and keeps every copy of each other day, in order |
| `AvailableDays.ToggleTwiceUnchecked` | PostgreSQL-CRUD/frontend-part/src/component/userList.jsx:141-146 | checking then unchecking a day restores the list exactly |
| `AvailableDays.ToggleTwiceChecked` | PostgreSQL-CRUD/frontend-part/src/component/userList.jsx:141-146 | unchecking then re-checking keeps the same set of days, but every copy of that day is dropped and it is appended once at the end |
| `AvailableDays.StartEdit` | PostgreSQL-CRUD/frontend-part/src/component/userList.jsx:28-36 | the form takes the user's id, name and email with no image, and the user's days, or none when the user has none |
| `AvailableDays.Submit` | PostgreSQL-CRUD/frontend-part/src/component/userList.jsx:47-60 | no request unless a non-zero id is being edited; otherwise every form field is sent |
| `AvailableDays.AfterUpdate` | PostgreSQL-CRUD/frontend-part/src/component/userList.jsx:62-70 | after success nothing is being edited and the form is blank; after a failure nothing changes |
| `AvailableDays.EditToggleSubmit` | PostgreSQL-CRUD/frontend-part/src/component/userList.jsx:28-60 | opening a user, clicking a day and saving sends the user's days with that day toggled |
| `ChatStore.Basenames` | Mern-Chatapp-Socketio/chat-app-backend/controllers/chatController.js:22 | every listed image path is reduced to its last segment, which holds no '/' |
| `ChatStore.Listing` | Mern-Chatapp-Socketio/chat-app-backend/controllers/chatController.js:9-24 | lists as many entries as messages selected, sorted by timestamp in the asked direction. Each entry shows a selected stored message: its sender populated as id and username (null when the account is gone), and its image paths reduced to names |
| `ChatStore.RoomListing` | Mern-Chatapp-Socketio/chat-app-backend/controllers/chatController.js:6-34 | lists one entry per message of the room, oldest first. Each entry shows a stored message of that room, with its sender populated |
| `ChatStore.UserListing` | Mern-Chatapp-Socketio/chat-app-backend/controllers/chatController.js:37-66 | 500 iff the user id is malformed, since the query casts it to an object id. Otherwise one entry per message of the sender, newest first. Each entry shows a stored message by that sender, and shows the sender as that user's id and username, or null when the account is gone |
| `ChatStore.ListingComplete` | Mern-Chatapp-Socketio/chat-app-backend/controllers/chatController.js:9-24 | every stored message a listing selects appears in it |
| `ChatStore.Edited` | Mern-Chatapp-Socketio/chat-app-backend/controllers/chatController.js:93-108 | an edit keeps id, room, sender, recipient and timestamp. Non-empty text replaces the old text. The images are the kept ones followed by the uploads' stored paths in upload order; none are kept when `clearImages` is exactly "true" |
| `ChatStore.UploadPaths` | Mern-Chatapp-Socketio/chat-app-backend/controllers/chatController.js:103-108 | each upload is stored as "/uploads/messages/" and its file name, in upload order |
| `ChatStore.UploadPathBasename` | Mern-Chatapp-Socketio/chat-app-backend/controllers/chatController.js:104-106 | a stored upload path lists as the uploaded file name |
| `ChatStore.EditedListingShowsUploads` | Mern-Chatapp-Socketio/chat-app-backend/controllers/chatController.js:103-108 | after an edit with uploads, the listing shows the uploaded names last, in upload order |
| `ChatStore.BasenamesConcat` | Mern-Chatapp-Socketio/chat-app-backend/controllers/chatController.js:22 | reducing two runs of paths is reducing each and concatenating |
| `ChatStore.BasenamesOfUploads` | Mern-Chatapp-Socketio/chat-app-backend/controllers/chatController.js:103-108 | the stored paths of uploads reduce back to the uploaded names |
| `ChatStore.EditMessage` | Mern-Chatapp-Socketio/chat-app-backend/controllers/chatController.js:69-134 | 500 iff the id is malformed or the first message with it has a sender whose account is not in the directory. 404 iff the id is well-formed and no message has it. 403 iff the first one with it was sent by another existing account. There is no other failure, so the sender's edit succeeds and edits the message in place. A failure changes nothing |
| `ChatStore.DeleteMessage` | Mern-Chatapp-Socketio/chat-app-backend/controllers/chatController.js:137-177 | 500 iff the id is malformed. 404 iff the id is well-formed and no message has it. 403 iff the first one with it was sent by someone else. There is no other failure, so the sender's delete succeeds: exactly that message is removed and returned. A failure changes nothing |
| `ChatStore.DeleteWithoutIdFails` | Mern-Chatapp-Socketio/chat-app-backend/controllers/chatController.js:137-177 | deleting by the text "undefined", which the page sends for a message that has no id, fails with 500 and removes nothing |
| `ChatStore.DeleteHidesFromListings` | Mern-Chatapp-Socketio/chat-app-backend/controllers/chatController.js:157 | after a successful delete the message appears in no room listing and no user listing |
| `ChatStore.HandlersKeepIdsUnique` | Mern-Chatapp-Socketio/chat-app-backend/controllers/chatController.js:93-157 | edits and deletes keep message ids unique |
| `ChatSocket.Connect` | Mern-Chatapp-Socketio/chat-app-backend/socket.js:13-34 | a refused handshake changes nothing. An accepted one appends a connection with the socket's id and the token's account, in no room and subscribed to none. It points that username's registry entry at the connection, so the latest connection wins. Nothing is emitted |
| `ChatSocket.ConnectValid` | Mern-Chatapp-Socketio/chat-app-backend/socket.js:28-30 | connecting keeps socket ids distinct and the registry pointing at live connections of the registered name |
| `ChatSocket.WindowFacts` | Mern-Chatapp-Socketio/chat-app-backend/socket.js:49-56 | the reversed newest-first prefix is oldest-first and all of the room. Nothing left out is newer than anything kept |
| `ChatSocket.RecentMessages` | Mern-Chatapp-Socketio/chat-app-backend/socket.js:49-56 | the join window holds min(20, room size) messages of the room, oldest first, and no message left out is newer than one kept |
| `ChatSocket.ShortRoomFullHistory` | Mern-Chatapp-Socketio/chat-app-backend/socket.js:49-51 | a room with at most 20 messages delivers all of them |
| `ChatSocket.History` | Mern-Chatapp-Socketio/chat-app-backend/socket.js:49-64 | at most 20 entries, in timestamp order, each showing a stored message of the room; an empty recipient shows as none |
| `ChatSocket.EmptyRoomEmptyHistory` | Mern-Chatapp-Socketio/chat-app-backend/socket.js:49-64 | a room nobody wrote to has an empty history |
| `ChatSocket.JoinRoom` | Mern-Chatapp-Socketio/chat-app-backend/socket.js:37-65 | the connection's current room becomes the new one. Exactly one presence entry is appended to that room's list (created empty if absent), and every other room's list is unchanged. The join broadcasts the list to the room and sends the history to the joiner; an unknown socket changes nothing |
| `ChatSocket.JoinValid` | Mern-Chatapp-Socketio/chat-app-backend/socket.js:37-45 | joining keeps the state valid |
| `ChatSocket.RejoinDuplicatesPresence` | Mern-Chatapp-Socketio/chat-app-backend/socket.js:44-45 | joining the same room twice lists the connection twice |
| `ChatSocket.SendMessage` | Mern-Chatapp-Socketio/chat-app-backend/socket.js:68-105 | with no room, with blank text and no images, from an unknown socket, or after a failed save, nothing is stored or emitted. Otherwise exactly one message is stored, and every emit carries it. Without a recipient it goes to the room. With one, it goes to the first live connection of that username, if any, and back to the sender |
| `ChatSocket.SendValid` | Mern-Chatapp-Socketio/chat-app-backend/socket.js:68-105 | sending keeps the state valid |
| `ChatSocket.BroadcastReachesRoom` | Mern-Chatapp-Socketio/chat-app-backend/socket.js:99-100 | a message without a recipient reaches exactly the connections subscribed to the room, the sender included when subscribed |
| `ChatSocket.DirectedReachesOnlyParties` | Mern-Chatapp-Socketio/chat-app-backend/socket.js:93-98 | a message with a recipient reaches only the sender and connections of the recipient's username |
| `ChatSocket.DirectPartiesOnly` | Mern-Chatapp-Socketio/chat-app-backend/socket.js:93-98 | direct emits to the sender and to a connection of a name reach no one else |
| `ChatSocket.UserTyping` | Mern-Chatapp-Socketio/chat-app-backend/socket.js:108-114 | a typing notice changes no state and reaches exactly the room's other connections, never the sender |
| `ChatSocket.Disconnect` | Mern-Chatapp-Socketio/chat-app-backend/socket.js:117-129 | drops the connection and its username's registry entry. When its current room has a list, every entry of this socket leaves that list only, and the list is broadcast; every other list is kept |
| `ChatSocket.DisconnectRemovesSocket` | Mern-Chatapp-Socketio/chat-app-backend/socket.js:117-124 | with distinct ids a disconnected socket is no longer connected |
| `ChatSocket.DisconnectShrinksPresence` | Mern-Chatapp-Socketio/chat-app-backend/socket.js:121-122 | the current room's list shrinks by exactly the socket's own entries |
| `ChatSocket.DisconnectValid` | Mern-Chatapp-Socketio/chat-app-backend/socket.js:117-124 | disconnecting keeps the state valid |
| `ChatSocket.DroppedValid` | Mern-Chatapp-Socketio/chat-app-backend/socket.js:118 | removing a connection and its username's registry entry keeps the state valid |
| `ChatSocket.StalePresenceAfterRoomSwitch` | Mern-Chatapp-Socketio/chat-app-backend/socket.js:37-124 | after joining room a, then room b, then disconnecting, room a still lists a socket that no longer exists |
| `ChatSocket.HistoryRevealsDirectedMessages` | Mern-Chatapp-Socketio/chat-app-backend/socket.js:49-64 | a message from one user to "bob" is replayed to "carol" when she joins, although live delivery never reaches her |
| `ChatSocket.VisibleHistory` | Mern-Chatapp-Socketio/chat-app-backend/socket.js:49-64 | the corrected history: at most 20 entries in timestamp order, each a message of the room the viewer may see |
| `ChatSocket.PublicRoomHistoryUnchanged` | Mern-Chatapp-Socketio/chat-app-backend/socket.js:49-64 | in a room without directed messages the corrected history equals the original |
| `ChatSocket.SwitchedKeepsInvariants` | Mern-Chatapp-Socketio/chat-app-backend/socket.js:37-45 | a corrected room switch keeps the state valid and every presence entry live |
| `ChatSocket.ListedOnce` | Mern-Chatapp-Socketio/chat-app-backend/socket.js:44-45 | after a corrected switch the connection is listed exactly once in its new room |
| `ChatSocket.JoinRoomCorrected` | Mern-Chatapp-Socketio/chat-app-backend/socket.js:37-65 | the corrected join: the connection is listed exactly once in its new room, and no other room gains an entry for it. From a valid state with live presence both are kept, so no other room still lists it. The joiner gets only history it may see |
| `ChatSocket.OtherHandlersKeepPresenceLive` | Mern-Chatapp-Socketio/chat-app-backend/socket.js:25-129 | connect, send, typing and disconnect keep every presence entry live, so with the corrected join no stale entry can arise |
| `ChatSocket.DisconnectKeepsPresenceLive` | Mern-Chatapp-Socketio/chat-app-backend/socket.js:117-124 | disconnecting keeps every presence entry live |
| `ChatClient.LoadHistory` | Mern-Chatapp-Socketio/chat-app-frontend/src/pages/Chat.jsx:43-45 | the history replaces the list entry for entry, and no replayed message has an id |
| `ChatClient.OnMessage` | Mern-Chatapp-Socketio/chat-app-frontend/src/pages/Chat.jsx:47-55 | an incoming message is appended iff it has no recipient, is addressed to the user, or was sent by them; otherwise the list is unchanged |
| `ChatClient.DeliveriesAreShown` | Mern-Chatapp-Socketio/chat-app-frontend/src/pages/Chat.jsx:47-55 | every delivery of a sent message passes the page's filter on every connection it reaches |
| `ChatClient.ReachedShows` | Mern-Chatapp-Socketio/chat-app-frontend/src/pages/Chat.jsx:48-52 | a delivery addressed to the sender or to the recipient's connection passes the receiving page's filter |
| `ChatClient.SentPayloads` | Mern-Chatapp-Socketio/chat-app-backend/socket.js:83-100 | every emit of a relayed message carries the same data, built from the request and the sender's account |
| `ChatClient.SentTargets` | Mern-Chatapp-Socketio/chat-app-backend/socket.js:93-98 | a message with a recipient is emitted only to the sender and to a connection of the recipient's username |
| `ChatClient.FilterKeepsNoDuplicates` | Mern-Chatapp-Socketio/chat-app-frontend/src/pages/Chat.jsx:68-69 | dropping typists keeps their names distinct |
| `ChatClient.OnTyping` | Mern-Chatapp-Socketio/chat-app-frontend/src/pages/Chat.jsx:61-75 | notices about oneself are ignored. A start appends the typist only if absent. A stop removes every entry of that name and keeps the others in order. Names stay distinct |
| `ChatClient.OnTypingIdempotent` | Mern-Chatapp-Socketio/chat-app-frontend/src/pages/Chat.jsx:64-72 | a repeated notice changes nothing more |
| `ChatClient.StartThenStop` | Mern-Chatapp-Socketio/chat-app-frontend/src/pages/Chat.jsx:66-69 | a start followed by a stop restores the indicator exactly |
| `ChatClient.ReplaceById` | Mern-Chatapp-Socketio/chat-app-frontend/src/pages/Chat.jsx:131-133 | exactly the messages with that id are replaced; the length and every other message stay |
| `ChatClient.RemoveById` | Mern-Chatapp-Socketio/chat-app-frontend/src/pages/Chat.jsx:191 | exactly the messages with that id are removed and the rest keep their order |
| `ChatClient.EditThenDelete` | Mern-Chatapp-Socketio/chat-app-frontend/src/pages/Chat.jsx:131-191 | deleting an edited message leaves the same list as deleting it unedited |
| `ChatClient.ReloadedMessagesUnreachable` | Mern-Chatapp-Socketio/chat-app-frontend/src/pages/Chat.jsx:43-45 | no edit or delete changes a list loaded from history, since replayed entries carry no id |
| `ChatClient.LoadHistoryWithIds` | Mern-Chatapp-Socketio/chat-app-backend/socket.js:54-63 | the corrected history keeps each message's id alongside the shown fields, entry for entry |
| `ChatClient.ReloadedMessageDeletable` | Mern-Chatapp-Socketio/chat-app-frontend/src/pages/Chat.jsx:191 | with ids kept, deleting a replayed message removes it from the page |
| `ChatClient.OnSend` | Mern-Chatapp-Socketio/chat-app-frontend/src/pages/Chat.jsx:151-182 | nothing is sent iff the text trims to "" and no image is chosen. An open edit is saved instead of sent. Otherwise the request names the room, text and images, with a recipient iff one is picked |
| `ChatClient.SendGuardsAgree` | Mern-Chatapp-Socketio/chat-app-frontend/src/pages/Chat.jsx:152 | in a named room, the page skips exactly the requests the coordinator would refuse, and sends privately iff a recipient is picked |
| `ChatClient.EditFormFor` | Mern-Chatapp-Socketio/chat-app-frontend/src/pages/Chat.jsx:110-119 | the edit sends the text and the chosen files, with `clearImages` "true" iff files are chosen |
| `ChatClient.PageEditReplacesImages` | Mern-Chatapp-Socketio/chat-app-frontend/src/pages/Chat.jsx:110-119 | an edit from the page keeps the images when no file is chosen, otherwise replaces them all by the uploads; an empty text keeps the old text |
| `ChatClient.RecipientChoices` | Mern-Chatapp-Socketio/chat-app-frontend/src/pages/Chat.jsx:29 | the recipient choices are everyone but oneself, in list order |

## Findings

| source | as written | input that shows it | evidently intended | confidence | as-written member | corrected member |
|---|---|---|---|---|---|---|
| Mern-Chatapp-Socketio/chat-app-backend/socket.js:37-45 | `joinRoom` appends a presence entry without removing the socket from its previous room's list or checking for an existing entry; `disconnect` cleans only the current room | a client that re-joins on one connection joins "a", then "b", then disconnects: "a" still lists the gone socket. The shipped page opens a new socket per room (Chat.jsx:39, 77-78), so it needs another client | a connection listed once, in its current room only | medium; not executed | `ChatSocket.StalePresenceAfterRoomSwitch` | `ChatSocket.JoinRoomCorrected` |
| Mern-Chatapp-Socketio/chat-app-backend/socket.js:49-64 | the join history takes the room's last 20 messages regardless of `to` | "u1" sends "hi" to "bob" in room "A"; "carol" joins "A" and receives it | history limited to messages the joiner may see, as live delivery is | medium; not executed | `ChatSocket.HistoryRevealsDirectedMessages` | `ChatSocket.VisibleHistory` |
| Mern-Chatapp-Socketio/chat-app-backend/socket.js:54-63 | history entries carry no `_id`, while the page's edit and delete match messages by `_id` (Chat.jsx:131-133, 191) | any message loaded on join. Its delete button requests /delete/undefined, which fails with 500 (`ChatStore.DeleteWithoutIdFails`), so the message stays. Its edit button sets the edited id to undefined (Chat.jsx:318), so the next send posts a new message instead (Chat.jsx:154-155) | history entries keep the message id | medium; not executed | `ChatClient.ReloadedMessagesUnreachable` | `ChatClient.ReloadedMessageDeletable` |

## Left out

- The Socket.IO transport, rooms API and handshake middleware: events are an output list, rooms are the `joined` set of each connection, and the handshake's token check is an identity oracle.
- Token signing and verification (jsonwebtoken) and password hashing and comparison (bcrypt): these are map, string and predicate parameters.
- The database: collections are sequences in insertion order, and `findById`/`findOne` return the first match. Schema validation and defaults of `findByIdAndUpdate` with `runValidators` are not modelled; the user schema is not part of this model.
- File-system deletion of cleared images and the multer upload middleware: an edit receives the stored file names of its uploads.
- Asynchronous interleaving: each handler is one atomic transition.
- Error paths other than those modelled: database and network failures that reach the 500 handlers. Modelled are the failed save of `sendMessage`, the unresolved product of checkout, a malformed order or message id, and the missing sender of an edited message.
- Floating-point prices and totals: prices are whole numbers. The `toFixed(2)` display total of the cart page is not modelled.
- `ProductCatalog.Search`: a price is searched as the decimal text of a whole number; the text of a fractional price (such as "12.5") is not modelled.
- Unicode: `trim`, `toLowerCase` and the regex `\s` are ASCII only (space, tab, newline, carriage return, vertical tab, form feed); string length counts characters, not UTF-16 units.
- `getAllRoles`, `getAllOrders` and `getUserOrders`: plain queries with no decision logic.
- The order routes name `updateOrderDetails` and `updateOrderStatus`, which the order controller does not export; `Orders.UpdateOrder` models `updateOrder` as written, without a route guard.
- React rendering, routing, `localStorage`, alerts, the `onlineUsers` name mapping, scrolling, emoji input and image previews.
- `Rbac.CanManageUser`: id validity is modelled as 24 hexadecimal digits; the ObjectId library also accepts other shapes (any 12-character string, in some versions).
- `Orders.UpdateOrder`: the 500 for a malformed order id uses the same 24-hexadecimal-digit shape, so an id of another shape that the library would cast is treated as malformed.
- `Orders.DeleteOrder`: the same caveat about the id shape applies to its 500.
- `ChatStore.EditMessage`: the same caveat about the id shape applies to its 500.
- `ChatStore.DeleteMessage`: the same caveat about the id shape applies to its 500.
- `ChatStore.UserListing`: the same caveat about the id shape applies to its 500.
- `ChatSocket.Connect`: a verified token whose user no longer exists is treated as a refused handshake; the source lets it through and the connection handler then fails on the missing user.
- `ChatSocket.SendMessage`: the request's text and images are taken as a string and a list; other JSON values the source would accept or crash on are not modelled.
- `ChatSocket.JoinRoomCorrected`: the corrected join does not broadcast the shrunken list to the previous room.
- `Users.UpdateUserById`: a non-superadmin's empty role is written as given, since the source drops only a truthy role; whether the user schema then rejects it is not modelled.
- `CartView.QuantityChange`: the box's text arrives already converted to a number (the empty text as 0, unparsable text as not-a-number); fractional quantities are not modelled.
- `ProductCatalog.CartQuantity`: `parseInt` is abstracted to an optional integer.
- `Validation.ValidatePassword`: only string inputs are modelled; a user-input error is `BadRequest`.
- `ChatSocket.History`: the contract states bounds, order and provenance of the entries, not that they are the mapped window entry for entry (`ChatSocket.RecentMessages` states the window itself).
