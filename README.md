# OrganKart donation workflow, modelled in Dafny

OrganKart is a shop where users submit organ-donation requests and administrators approve or
reject them. Approving a request creates a free, donated product in the inventory. This
project models the server's donation-request workflow and the schema of its records. It also
models the request guards, the signup controller, and several pieces of client logic: the
donation form's check, the order-list filter actions, the admin dashboard reducer and the
cart helpers. Properties are proved about each of these.

Modules, one per source file:

- `Wrappers`: `Option`.
- `Strings`: JavaScript truthiness of a string field, `length` in UTF-16 code units, `trim`,
  `startsWith` and one-character `split`/`join`.
- `DonationRequestModel` (server/models/DonationRequest.js): the record, its validators and
  its defaults.
- `DonationRequestRoutes` (server/routes/donationRequestRoutes.js):
  - the route guard `isAdmin`;
  - a `Store` class holding the request map, the product sequence, the next id and a clock;
  - the handlers create, all, approve, reject, my-requests and `/:id`;
  - the invariant `StoreInvariant`, which every handler keeps except the as-written approval
    `ApproveAsWritten` (see Findings).
- `AuthMiddleware` (server/middleware/auth.js): `loginCheck` (header parsing, token
  verification, user lookup, error-to-status mapping), `isAuth` and `isAdmin`.
- `DonationRequestForm` (DonationRequestForm.jsx): `validateForm`, a method that fills the
  error map check by check.
- `SignupController` (server/controller/auth.js):
  - the validation chain of `postSignup`, as a pure function, with a reference statement
    of each check;
  - a `UserStore` class whose `PostSignup` does the e-mail lookup and the save.
- `OrderActions` (admin/orders/Actions.js): the label-to-status filter of `filterOrder`, its
  dispatch trace, and `editOrderReq`.
- `DashboardContext` (DashboardContext.js): the initial state and the reducer.
- `CartMixins` (Mixins.js): `quantity`, `subTotal` and `totalCost`, each as a method with a
  loop, proved against recursive specification functions.

Parameters stand in for the parts the model does not interpret:

- `jwt.verify` is a function from token to decoded id or thrown error name.
- The ObjectId cast is a predicate on ids.
- The `$regex` match is a predicate.
- `validateEmail`, `toTitleCase` and `bcrypt.hashSync` are functions.
- The configured admin secret is an `Option<string>`, since it may be unset.
- The `getAllOrder` response and local storage are passed in as values.
- `new Date()` and the automatic `createdAt` are the store's increasing `clock`.

Every length bound (the schema's `minlength`/`maxlength`, the route's 10-character reason,
the signup name and password bounds, the form's pin-code and description checks) counts
what JavaScript's `length` counts: UTF-16 code units, two for a character above U+FFFF.

Where the code and the documented contract of the workflow differ, the model follows the
code:

- The schema puts `required` on each element of `images`, so the server stores a request
  with no images (`AcceptsIff` allows `images == []`). Only the form insists on one image.
- The server checks `pinCode` as a number from 100000 to 999999. The form checks only that
  its text has length 6 (`PinCodeLengthOnly`).
- `quantity || 1` turns a quantity of 0 into 1. So, among the integer quantities the model
  covers, the server accepts 0 and any positive quantity, and refuses negative ones.
- The form measures the description's length before trimming. The server trims it first,
  so some bodies the form lets through fail on the server (`UntrimmedDescriptionPasses`).

## Model

| member | source | states |
|---|---|---|
| Strings.Trim | server/routes/donationRequestRoutes.js:37 | the trimmed string is no longer than the input, starts and ends with a non-space, and is empty exactly when the input is all white space |
| Strings.TrimSlice | server/routes/donationRequestRoutes.js:49 | what `trim` keeps is one contiguous slice of the input with only white space before and after it |
| Strings.TrimIdempotent | server/routes/donationRequestRoutes.js:231 | trimming an already trimmed string changes nothing |
| Strings.TrimOfTrimmed | server/routes/donationRequestRoutes.js:49 | a string with no white space at either end is its own trim |
| Strings.Split | server/middleware/auth.js:22 | `split` gives at least one field; no field contains the separator; the first field is a prefix followed by a separator; one field exactly when the separator is absent |
| Strings.SplitJoin | server/middleware/auth.js:22 | joining the fields of a split with the separator gives back the original string |
| Strings.SplitTail | server/middleware/auth.js:22 | the fields after the first are the split of what follows the first separator |
| Strings.Utf16Length | server/models/DonationRequest.js:9-10 | `length` counts at least one and at most two code units per character |
| Strings.Utf16LengthBmp | server/models/DonationRequest.js:9-10 | `length` equals the character count exactly when no character lies above U+FFFF |
| Strings.TrimUtf16Length | server/routes/donationRequestRoutes.js:207 | trimming never makes `length` larger |
| DonationRequestModel.LengthError | server/models/DonationRequest.js:5-11 | a required string's message is empty exactly when its length is within bounds; empty gives the required message, too short the minlength one, too long the maxlength one |
| DonationRequestModel.ImageErrors | server/models/DonationRequest.js:17-20 | no image message exactly when no element of `images` is empty |
| DonationRequestModel.PinCodeError | server/models/DonationRequest.js:21-26 | no message exactly when the pin code is present and within 100000..999999; a missing one gives the required message |
| DonationRequestModel.NoteError | server/models/DonationRequest.js:51-58 | an optional note gives no message exactly when it is absent or at most 500 characters |
| DonationRequestModel.Valid | server/models/DonationRequest.js:4-65 | a record that meets the schema has a non-empty organ name and description, a positive quantity and notes of at most 500 code units (hence at most 500 characters) |
| DonationRequestModel.SchemaErrorsMessages | server/routes/donationRequestRoutes.js:69-76 | every message of a failed save is one of the schema's twelve messages, and a bad organ name is reported first |
| DonationRequestModel.ValidIffNoErrors | server/models/DonationRequest.js:4-65 | a record saves (no validation message) exactly when it meets every field constraint |
| DonationRequestModel.NewRequest | server/models/DonationRequest.js:33-45 | a new record is Pending, its quantity defaults to 1, its name is trimmed and no review field is set |
| DonationRequestModel.NewRequestValid | server/models/DonationRequest.js:5-45 | a new record is valid exactly when the given name, images, pin code, description and quantity meet the constraints |
| DonationRequestModel.StatusNameInjective | server/models/DonationRequest.js:38-45 | distinct statuses have distinct stored names |
| DonationRequestModel.AstralOrganNameLength | server/models/DonationRequest.js:5-11 | a single character above U+FFFF meets the organ name's minimum length of 2, because `length` counts it twice |
| AuthMiddleware.BearerToken | server/middleware/auth.js:14-22 | a token exists exactly when the header is present and starts with "Bearer "; it is the longest space-free text after the prefix |
| AuthMiddleware.EmptyBearerToken | server/middleware/auth.js:22-31 | the token is empty exactly when the header is "Bearer " alone or has another space after the prefix |
| AuthMiddleware.ErrorReply | server/middleware/auth.js:52-72 | JsonWebTokenError gives 401 "Invalid token", TokenExpiredError 401 "Token expired", any other error 500 "Internal server error" |
| AuthMiddleware.LoginCheck | server/middleware/auth.js:6-74 | a missing or empty token gives 401 "No token provided"; a token whose verification throws is answered by `ErrorReply` of the error's name; a decoded id that does not cast gives 500; login succeeds exactly when the token decodes to a well-formed, known id, with that user; an unknown user gives 401 "User not found" |
| AuthMiddleware.IsAuth | server/middleware/auth.js:77-87 | the request continues exactly when `loggedInUserId` is present and equals the user's non-empty id; otherwise 403 |
| AuthMiddleware.IsAdmin | server/middleware/auth.js:90-102 | the request continues exactly when the looked-up user exists with role "admin"; a failing lookup gives 500, any other denial 403 |
| DonationRequestRoutes.RequireAdmin | server/routes/donationRequestRoutes.js:10-18 | only role "admin" passes; anyone else gets 403 with the admin-only message |
| DonationRequestRoutes.QuantityOrOne | server/routes/donationRequestRoutes.js:54 | a missing or zero quantity becomes 1, any other is kept |
| DonationRequestRoutes.BadReason | server/routes/donationRequestRoutes.js:207-212 | a missing or all-white-space reason is refused; a reason that passes has at least 10 code units, so at least 5 characters, after trimming |
| DonationRequestRoutes.HasPendingAfterInsert | server/routes/donationRequestRoutes.js:35-45 | once a Pending record is stored its requester has a Pending request of that name, so the same body is refused next time; no other requester or name is affected |
| DonationRequestRoutes.Selects | server/routes/donationRequestRoutes.js:92-102 | a status filter that names none of the three statuses selects nothing; the empty filter selects every record; an owner filter selects only that owner's records |
| DonationRequestRoutes.ApprovedRecord | server/routes/donationRequestRoutes.js:176-179 | approval sets status Approved, the approver and the time, takes truthy notes, and changes no other field |
| DonationRequestRoutes.RejectedRecord | server/routes/donationRequestRoutes.js:230-234 | rejection sets status Rejected, the trimmed reason, the reviewer and the time, takes truthy notes, and changes no other field |
| DonationRequestRoutes.ApprovedRecordValid | server/routes/donationRequestRoutes.js:176-181 | the approved copy of a valid record passes the schema exactly when the notes it takes have at most 500 characters |
| DonationRequestRoutes.RejectedRecordValid | server/routes/donationRequestRoutes.js:230-236 | the rejected copy passes exactly when the trimmed reason and the notes have at most 500 characters |
| DonationRequestRoutes.DonatedProduct | server/routes/donationRequestRoutes.js:160-171 | the product costs 0, is Active and donated, and copies name, description, category, images, quantity, requester and request id |
| DonationRequestRoutes.DonatedProductStable | server/routes/donationRequestRoutes.js:160-171 | records that agree on the copied fields give the same product |
| DonationRequestRoutes.ProductCount | server/routes/donationRequestRoutes.js:173 | the count of products for a request is zero exactly when no product names it |
| DonationRequestRoutes.CreateKeepsInvariant | server/routes/donationRequestRoutes.js:48-58 | adding a fresh, valid, non-duplicate Pending record keeps the store invariant |
| DonationRequestRoutes.ApproveKeepsInvariant | server/routes/donationRequestRoutes.js:160-181 | approving a Pending record and adding its one product keeps the invariant (one product per Approved request) |
| DonationRequestRoutes.RejectKeepsInvariant | server/routes/donationRequestRoutes.js:230-236 | rejecting a Pending record with a good reason keeps the invariant and adds no product |
| DonationRequestRoutes.OrphanProductBreaksInvariant | server/routes/donationRequestRoutes.js:173-181 | a product for a request that stays Pending breaks the invariant |
| DonationRequestRoutes.Matching | server/routes/donationRequestRoutes.js:92-108 | a listing holds only stored records that the status, search and owner filter selects |
| DonationRequestRoutes.MatchingDescending | server/routes/donationRequestRoutes.js:108 | a listing's ids strictly decrease, so no record appears twice |
| DonationRequestRoutes.MatchingComplete | server/routes/donationRequestRoutes.js:92-104 | every selected record appears in the listing |
| DonationRequestRoutes.MatchingNewestFirst | server/routes/donationRequestRoutes.js:108 | under the invariant a listing is sorted by `createdAt`, newest first |
| DonationRequestRoutes.Window | server/routes/donationRequestRoutes.js:109-110 | skip-and-limit keeps the elements from the skip on, at most the absolute limit of them, none for a skip past the end, all for limit 0 |
| DonationRequestRoutes.PageCount | server/routes/donationRequestRoutes.js:122 | the page count is undefined exactly for limit 0 |
| DonationRequestRoutes.PageCountCeiling | server/routes/donationRequestRoutes.js:122 | for a non-zero limit the page count is the ceiling of total / limit, for either sign |
| DonationRequestRoutes.PaginationExample | server/routes/donationRequestRoutes.js:109-122 | 25 records, page 2 of size 10: ten records and three pages |
| DonationRequestRoutes.OrDefault | server/routes/donationRequestRoutes.js:256-257 | a missing, unparsable or zero page or limit gives its default, any other value is kept |
| DonationRequestRoutes.Draft | server/routes/donationRequestRoutes.js:48-56 | the new record holds the trimmed name and description, the body's category, images and pin code, the quantity with 0 or none read as 1, the caller, and a fresh Pending state |
| DonationRequestRoutes.AcceptsIff | server/routes/donationRequestRoutes.js:21-58 | /create stores a record exactly when the category is known, the caller has no Pending request for the trimmed name, and the values meet the schema |
| DonationRequestRoutes.Store.Create | server/routes/donationRequestRoutes.js:21-83 | an unknown category gives 400; a missing name or description gives 500; a duplicate Pending request gives 400; schema failures give 400 with the messages; success exactly when accepted, storing the draft under the next id; any failure changes nothing; the invariant is kept |
| DonationRequestRoutes.Store.Insert | server/routes/donationRequestRoutes.js:58 | saving a validated new record puts it at the next id, advances id and clock and keeps the invariant |
| DonationRequestRoutes.Store.Approve | server/routes/donationRequestRoutes.js:137-200 | non-admin 403, unknown id 404, not Pending 400; a category or requester that no longer exists gives 500; over-long notes give 500; success exactly otherwise, storing the approved record and appending its product; failure changes nothing; the invariant is kept |
| DonationRequestRoutes.Store.SaveApproval | server/routes/donationRequestRoutes.js:159-190 | the approval succeeds exactly when the notes fit, and then updates the record and appends exactly its product; otherwise 500 and nothing changes |
| DonationRequestRoutes.Store.ApproveAsWritten | server/routes/donationRequestRoutes.js:137-200 | as written: a non-admin gets 403, an unknown id 404, a request that is not Pending 400, and a missing category or requester 500, each before anything is saved; over-long notes give 500 after the product is saved, leaving the request Pending and the invariant broken |
| DonationRequestRoutes.Store.SaveApprovalAsWritten | server/routes/donationRequestRoutes.js:159-199 | as written: the product is always appended; the record is updated, and the invariant holds, exactly when the notes fit |
| DonationRequestRoutes.Store.Reject | server/routes/donationRequestRoutes.js:203-251 | non-admin 403; a reason that is missing or under 10 trimmed characters gives 400 before the lookup; unknown id 404; not Pending 400; success exactly when reason and notes fit, storing the rejected record; products never change; failure changes nothing; the invariant is kept |
| DonationRequestRoutes.Store.SaveRejection | server/routes/donationRequestRoutes.js:230-249 | the rejection succeeds exactly when the trimmed reason and notes fit, storing the rejected record; otherwise 500 and nothing changes |
| DonationRequestRoutes.Store.ListAll | server/routes/donationRequestRoutes.js:87-134 | non-admin 403; a negative skip gives 500; otherwise the page is the window of the filtered, newest-first listing, with its total and page count, every record stored and of the asked status |
| DonationRequestRoutes.Store.ListMine | server/routes/donationRequestRoutes.js:254-288 | page and limit default to 1 and 10; the page is the window of the caller's listing with its total and page count; every record belongs to the caller |
| DonationRequestRoutes.Store.GetById | server/routes/donationRequestRoutes.js:291-325 | unknown id 404; a requester that no longer exists gives 500; a caller who is neither the requester nor an admin gets 403; otherwise the record itself |
| DonationRequestForm.InitialForm | client/src/components/shop/donationRequest/DonationRequestForm.jsx:6-13 | the form starts with empty texts, no images and quantity 1 |
| DonationRequestForm.Step | client/src/components/shop/donationRequest/DonationRequestForm.jsx:72-77 | each check adds its key with its message exactly when its field fails, and leaves the other keys alone |
| DonationRequestForm.AllChecked | client/src/components/shop/donationRequest/DonationRequestForm.jsx:70-78 | after the six checks the map holds exactly the failing keys |
| DonationRequestForm.ValidateForm | client/src/components/shop/donationRequest/DonationRequestForm.jsx:69-81 | a key is set exactly when its field fails its own check, each with its own message, and the form is valid exactly when no key is set |
| DonationRequestForm.NoFailureIffValid | client/src/components/shop/donationRequest/DonationRequestForm.jsx:70-80 | no field fails exactly when every field condition holds at once |
| DonationRequestForm.InitialFormErrors | client/src/components/shop/donationRequest/DonationRequestForm.jsx:72-77 | the untouched form fails on every field but quantity |
| DonationRequestForm.PinCodeLengthOnly | client/src/components/shop/donationRequest/DonationRequestForm.jsx:75 | any pin code of `length` 6 passes the check, digits or not |
| DonationRequestForm.NotANumberQuantityPasses | client/src/components/shop/donationRequest/DonationRequestForm.jsx:77 | a quantity that is not a number passes, since NaN is not below 1 |
| DonationRequestForm.UntrimmedDescriptionPasses | client/src/components/shop/donationRequest/DonationRequestForm.jsx:76 | a leading space followed by nine code units of text passes the description check, although the trimmed text is shorter than 10 |
| SignupController.SignupErrors | server/controller/auth.js:33-75 | a rejected body has a non-empty error object; an accepted one has name, email, password and role present |
| SignupController.MissingFieldsError | server/controller/auth.js:33-40 | the missing-fields error has exactly the five keys, no adminCode key; each key holds its message exactly when its field is missing, "" otherwise |
| SignupController.AcceptedIffAllPass | server/controller/auth.js:33-75 | the chain accepts a body exactly when every one of the seven checks passes |
| SignupController.FirstFailing | server/controller/auth.js:44-75 | a rejected body has a check that fails after all earlier ones pass, and the answer is that check's error object |
| SignupController.FirstFailureReported | server/controller/auth.js:44-75 | whatever check fails first decides the answer; nothing after it is reported |
| SignupController.FirstFailureUnique | server/controller/auth.js:44-75 | only one check can be the first to fail |
| SignupController.MissingFieldsReportAll | server/controller/auth.js:33-42 | with a field missing the error has exactly the five keys, each empty exactly when its field is present |
| SignupController.NameLengthOnlyNameError | server/controller/auth.js:45-47 | a name outside 3..25 characters gives the name error and no other key |
| SignupController.PasswordLengthError | server/controller/auth.js:54-56 | past the earlier checks, a password outside 8..255 characters gives the password error alone |
| SignupController.MismatchSetsBothKeys | server/controller/auth.js:58-65 | past the earlier checks, different passwords set exactly the password and cPassword keys, both to the mismatch message |
| SignupController.AcceptedRole | server/controller/auth.js:67-75 | an accepted body names role "user" or "admin", and "admin" only with the configured code |
| SignupController.UnsetSecretAdmitsAdmin | server/controller/auth.js:73-75 | with no secret configured, an admin signup that sends no code passes the admin-code check |
| SignupController.UserStore.PostSignup | server/controller/auth.js:28-100 | a rejected body is answered with the chain's error; a lookup that throws gives 500; a taken e-mail gives "Email already exists"; success exactly when the chain accepts, the lookup answers, the e-mail is new and the save succeeds, appending the title-cased name, e-mail, hash and role; otherwise nothing is saved; no two users share an e-mail |
| OrderActions.LabelStatus | client/src/components/admin/orders/Actions.js:82-106 | "All" selects no status |
| OrderActions.LabelTable | client/src/components/admin/orders/Actions.js:84-103 | Not processed, Under Scrutiny, Request Accepted, Expired and Cancelled select Not processed, Processing, Shipped, Delivered and Cancelled |
| OrderActions.LabelStatusDomain | client/src/components/admin/orders/Actions.js:82-106 | only those five labels select a status; "All" and any other label keep the list |
| OrderActions.FilterByStatus | client/src/components/admin/orders/Actions.js:85-87 | the filter is no longer than the list and keeps only orders of the status |
| OrderActions.FilterKeepsOrder | client/src/components/admin/orders/Actions.js:85-103 | the filtered list is a subsequence of the list, in the original order |
| OrderActions.FilterExact | client/src/components/admin/orders/Actions.js:85-103 | each order of the status occurs in the result as often as in the list, any other not at all |
| OrderActions.FilterMembership | client/src/components/admin/orders/Actions.js:85-103 | an order is in the result exactly when it is in the list with the status |
| OrderActions.Filtered | client/src/components/admin/orders/Actions.js:82-83 | a label that selects no status leaves the list unchanged |
| OrderActions.Payload | client/src/components/admin/orders/Actions.js:109-115 | a response without `Orders`, or a thrown request, gives the empty list |
| OrderActions.PayloadSelects | client/src/components/admin/orders/Actions.js:84-108 | for a status label the payload holds exactly the response's orders with that status, in order |
| OrderActions.FilterOrder | client/src/components/admin/orders/Actions.js:68-120 | the dispatches are loading on, the payload, loading off, in that order, and the dropdown is toggled |
| OrderActions.EditOrderReq | client/src/components/admin/orders/Actions.js:41-46 | the modal-open action is dispatched, with the order id and status, exactly when `type` is truthy |
| DashboardContext.InitialState | client/src/components/admin/dashboardAdmin/DashboardContext.js:1-14 | all four counts 0, no orders, both flags false, no slider images |
| DashboardContext.Reduce | client/src/components/admin/dashboardAdmin/DashboardContext.js:16-46 | a known action puts its payload in its own field and leaves every other field as it was; any other action type returns the state unchanged |
| DashboardContext.ReduceIdempotent | client/src/components/admin/dashboardAdmin/DashboardContext.js:18-42 | applying an action twice equals applying it once |
| DashboardContext.LaterActionWins | client/src/components/admin/dashboardAdmin/DashboardContext.js:18-42 | of two actions on one field the later one wins |
| DashboardContext.DistinctFieldsCommute | client/src/components/admin/dashboardAdmin/DashboardContext.js:18-42 | actions on different fields commute |
| DashboardContext.FixedPointIffHolds | client/src/components/admin/dashboardAdmin/DashboardContext.js:18-42 | an action leaves a state unchanged exactly when the state already holds its payload |
| CartMixins.LastQuantityIsLastMatch | client/src/components/shop/partials/Mixins.js:17-22 | the specified quantity is the quantity of the last item with the id |
| CartMixins.LastQuantityNoMatch | client/src/components/shop/partials/Mixins.js:14-23 | with no item of the id the quantity is 0 |
| CartMixins.SumAppend | client/src/components/shop/partials/Mixins.js:28-30 | appending an item adds its quantity times price to the total |
| CartMixins.SumConcat | client/src/components/shop/partials/Mixins.js:25-32 | the total of two carts in a row is the sum of their totals |
| CartMixins.Quantity | client/src/components/shop/partials/Mixins.js:14-23 | `quantity(id)` is the last matching item's quantity, 0 without a match or a stored cart |
| CartMixins.SubTotal | client/src/components/shop/partials/Mixins.js:3-12 | `subTotal(id, price)` is `quantity(id) * price`, 0 without a stored cart |
| CartMixins.TotalCost | client/src/components/shop/partials/Mixins.js:25-32 | `totalCost()` is the sum of quantity times price over the cart, 0 without a stored cart |

## Left out

- Mongoose `populate` is modelled only where it decides the answer. Approve and `/:id` take the sets of category and user ids whose documents still exist. A missing one populates as null, reading its `_id` throws, and the answer is 500. Replies carry the stored record unpopulated. The `approvedBy` populate of `/:id` never throws and is left out.
- The `$regex` search is a predicate parameter. Its case-insensitive regular-expression semantics are not modelled.
- ObjectId casts are not modelled in the routes. A malformed id, which makes `findById` throw and yields 500, is not separate from an unknown id.
  - Category ids come as a set of known ids, so an unknown category gives 400.
  - Request ids are natural numbers.
  - In AuthMiddleware the cast is the predicate parameter `wellFormed`.
- The product model's own validation (server/models/products.js) is not part of this model. A product save is taken to succeed.
- DonationRequestModel.Valid: `pinCode` and `quantity` are `Number` in the schema but integers here. A fractional pin code such as 560001.5, which the schema stores, and a quantity such as 0.5, which `0.5 || 1` keeps and the schema refuses, cannot be expressed.
- Strings.Utf16Length: a Dafny `char` is a Unicode scalar value, so a JavaScript string holding a lone surrogate cannot be expressed.
- Automatic timestamps and `Date` values are the store's increasing `clock`.
- Concurrency is not modelled. Each handler is one sequential step. The race between the duplicate-Pending check and the save is outside the model, and so is a crash between the product save and the request save.
- `jwt.verify`, `bcrypt.hashSync`, `validateEmail`, `toTitleCase` and the configured secrets are uninterpreted parameters. server/config/function.js is not part of this model.
- DonationRequestRoutes.Store.Create: the body's `organName`, `description` and image names are strings or absent, and `pinCode` and `quantity` are numbers or absent. String coercion is not modelled: a string quantity "0" is truthy, so `quantity || 1` keeps it and the schema's `min: 1` refuses it, while the model reads it as 0 and stores 1. Cast errors of non-numeric values, whose messages are not among the schema's twelve, and the 500 of `.trim()` on a non-string name are not modelled either.
- Store.Create: the order of the validation messages follows the order in which the schema declares its paths. Mongoose's own ordering of `error.errors` is taken to be that order.
- Store.ListAll: `page` and `limit` arrive as parsed integers. JavaScript's coercion of query strings in `(page - 1) * limit` and `total / limit` is not modelled. A negative skip, which the store refuses, is modelled as the 500 answer.
- Store.ListMine: `parseInt(x) || d` is modelled on a value already parsed, with None for a missing or unparsable value.
- DonationRequestRoutes.StoreInvariant: a Rejected record's reason is required to have at least 10 characters. The invariant does not also state that the reason is already trimmed.
- SignupController.UserStore.PostSignup: the flag `lookedUp` stands for an exception of the `findOne` lookup, and the flag `saved` for one of the hashing or the save. Body fields are strings or absent; other JSON values are not modelled. The `isAdmin`, `allUser` and `postSignin` handlers of the controller are outside the core.
- DonationRequestForm.ValidateForm: `setErrors` is a UI effect. The method returns `newErrors` instead. The quantity input is abstracted to empty, numeric or NaN, so JavaScript's string-to-number conversion is not modelled.
- OrderActions: `fetchData` and `deleteOrderReq` are outside the core. The `getAllOrder` request is a parameter. `console` logging is left out. The `type` of `editOrderReq` is reduced to its truthiness.
- DashboardContext: each known action type carries a payload of its field's type. A known type with a payload of another shape is not modelled. The reducer's answer to any other type is `Other`. `Other` is meant for a type name other than the five known ones; the model does not exclude `Other("totalData")`, which it answers with the state unchanged, while the source reducer would update that field.
- CartMixins: prices and quantities are integers, so floating-point rounding is not modelled. The cart is passed in rather than read from `localStorage` and parsed from JSON.

## Findings

| source | as written | input that shows it | evidently intended | confidence | as-written member | corrected member |
|---|---|---|---|---|---|---|
| server/routes/donationRequestRoutes.js:173-181 | the product is saved first; then the request's `save()` re-validates `adminNotes` against its 500-character limit, fails with 500, and leaves the product behind while the request stays Pending | a Pending request approved with `adminNotes` of 501 characters | the notes are validated before anything is saved, so an approval either creates its one product and flips the status, or changes nothing | not executed | DonationRequestRoutes.Store.ApproveAsWritten | DonationRequestRoutes.Store.Approve |
