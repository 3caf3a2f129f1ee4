/**
 * The donation-request workflow of server/routes/donationRequestRoutes.js.
 *
 * `Store` holds what the handlers read and write: the donation-request collection
 * (a map from id to record), the products that approvals create, the next id to hand
 * out and a clock standing for `new Date()` and the automatic `createdAt`. Each handler
 * is one sequential step that runs after `loginCheck` has produced the caller.
 * `StoreInvariant` is what every handler keeps: ids are dense, records pass the schema,
 * newer records have later `createdAt`, a requester never has two Pending requests for
 * one organ, only Pending records lack `approvedAt`, and every Approved request has
 * exactly one product, a copy of the request.
 */
module DonationRequestRoutes {
  import opened Wrappers
  import opened Strings
  import opened DonationRequestModel
  import Auth = AuthMiddleware

  /** A product document as an approval creates it. */
  datatype Product = Product(
    pName: string,
    pDescription: string,
    pCategory: CategoryId,
    pImages: seq<string>,
    pPrice: int,
    pQuantity: int,
    pStatus: string,
    donatedBy: Auth.UserId,
    isDonated: bool,
    donationRequestId: RequestId)

  /** A JSON answer: `success: true` with `data`, or `success: false` with a message (and, for a failed validation, the messages). */
  datatype Reply<T> = Ok(code: int, message: string, data: T) | Fail(code: int, message: string, errors: seq<string>)

  /** The body of POST /create; `None` is a field the client left out. */
  datatype CreateBody = CreateBody(
    organName: Option<string>,
    category: Option<CategoryId>,
    images: seq<string>,
    pinCode: Option<int>,
    description: Option<string>,
    quantity: Option<int>)

  /** The `pagination` part of a listing; `pages` is `None` where `Math.ceil(total / 0)` is not a number. */
  datatype Page = Page(requests: seq<DonationRequest>, page: int, limit: int, total: nat, pages: Option<int>)

  /** What a listing selects: the `status` and `search` query values ("" when absent) and the owner of /my-requests. */
  datatype Filter = Filter(status: string, search: string, owner: Option<Auth.UserId>)

  const AdminOnly := "Access denied. Admin privileges required."
  const InvalidCategory := "Invalid category selected"
  const DuplicatePending := "You already have a pending request for this organ"
  const CreateFailed := "Failed to create donation request"
  const NotFound := "Donation request not found"
  const OnlyPendingApproved := "Only pending requests can be approved"
  const OnlyPendingRejected := "Only pending requests can be rejected"
  const ApproveFailed := "Failed to approve donation request"
  const RejectFailed := "Failed to reject donation request"
  const ReasonRequired := "Rejection reason is required and must be at least 10 characters"
  const FetchFailed := "Failed to fetch donation requests"
  const FetchOneFailed := "Failed to fetch donation request"
  const ValidationFailed := "Validation failed"
  const Submitted := "Donation request submitted successfully"
  const ApprovedOk := "Donation request approved successfully"
  const RejectedOk := "Donation request rejected successfully"
  const AccessDenied := "Access denied"
  const ActiveStatus := "Active"

  // ---------------------------------------------------------------- guards

  /** The route-level `isAdmin`: only role "admin" passes. */
  function RequireAdmin(user: Auth.User): (g: Auth.Guard)
    ensures g == Auth.Next <==> user.userRole == "admin"
    ensures g != Auth.Next ==> g == Auth.Deny(403, AdminOnly)
  {
    if user.userRole != "admin" then Auth.Deny(403, AdminOnly) else Auth.Next
  }

  /** `!rejectionReason || rejectionReason.trim().length < 10` */
  predicate BadReason(reason: Option<string>)
    ensures !BadReason(reason) ==> reason.Some? && Utf16Length(Trim(reason.value)) >= 10
    ensures !BadReason(reason) ==> !AllSpace(reason.value) && |Trim(reason.value)| >= 5
    ensures reason.None? || AllSpace(reason.value) ==> BadReason(reason)
  {
    !Truthy(reason) || Utf16Length(Trim(reason.value)) < 10
  }

  /** `quantity || 1` for a numeric quantity. */
  function QuantityOrOne(q: Option<int>): (n: int)
    ensures q.None? || q.value == 0 ==> n == 1
    ensures q.Some? && q.value != 0 ==> n == q.value
  {
    if q.None? || q.value == 0 then 1 else q.value
  }

  // ---------------------------------------------------------------- records and products

  /** The record after a successful approval by `admin` at time `at`. */
  function ApprovedRecord(r: DonationRequest, admin: Auth.UserId, at: nat, adminNotes: Option<string>): (a: DonationRequest)
    ensures a.status == Approved && a.approvedBy == Some(admin) && a.approvedAt == Some(at)
    ensures a.adminNotes == if Truthy(adminNotes) then adminNotes else r.adminNotes
    ensures a.(status := r.status, approvedBy := r.approvedBy, approvedAt := r.approvedAt, adminNotes := r.adminNotes) == r
  {
    var a := r.(status := Approved);
    var a := a.(approvedBy := Some(admin));
    var a := a.(approvedAt := Some(at));
    if Truthy(adminNotes) then a.(adminNotes := adminNotes) else a
  }

  /** The record after a successful rejection; the stored reason is the trimmed one. */
  function RejectedRecord(r: DonationRequest, admin: Auth.UserId, at: nat, reason: string, adminNotes: Option<string>): (a: DonationRequest)
    ensures a.status == Rejected && a.rejectionReason == Some(Trim(reason))
    ensures a.approvedBy == Some(admin) && a.approvedAt == Some(at)
    ensures a.adminNotes == if Truthy(adminNotes) then adminNotes else r.adminNotes
    ensures a.(status := r.status, rejectionReason := r.rejectionReason, approvedBy := r.approvedBy,
               approvedAt := r.approvedAt, adminNotes := r.adminNotes) == r
  {
    var a := r.(status := Rejected);
    var a := a.(rejectionReason := Some(Trim(reason)));
    var a := a.(approvedBy := Some(admin));
    var a := a.(approvedAt := Some(at));
    if Truthy(adminNotes) then a.(adminNotes := adminNotes) else a
  }

  /** An approved record passes the schema exactly when the notes it takes are short enough. */
  lemma ApprovedRecordValid(r: DonationRequest, admin: Auth.UserId, at: nat, adminNotes: Option<string>)
    requires Valid(r)
    ensures Valid(ApprovedRecord(r, admin, at, adminNotes)) <==> (Truthy(adminNotes) ==> Utf16Length(adminNotes.value) <= MaxNoteLength)
  {
  }

  /** A rejected record passes the schema exactly when its trimmed reason and its notes are short enough. */
  lemma RejectedRecordValid(r: DonationRequest, admin: Auth.UserId, at: nat, reason: string, adminNotes: Option<string>)
    requires Valid(r)
    ensures Valid(RejectedRecord(r, admin, at, reason, adminNotes)) <==>
              Utf16Length(Trim(reason)) <= MaxNoteLength && (Truthy(adminNotes) ==> Utf16Length(adminNotes.value) <= MaxNoteLength)
  {
  }

  /** The inventory entry an approval creates: a free, active, donated copy of the request. */
  function DonatedProduct(r: DonationRequest): (p: Product)
    ensures p.pPrice == 0 && p.pStatus == ActiveStatus && p.isDonated
    ensures p.donatedBy == r.requestedBy && p.donationRequestId == r.id
    ensures (p.pName, p.pDescription, p.pCategory, p.pImages, p.pQuantity)
            == (r.organName, r.description, r.category, r.images, r.quantity)
  {
    Product(r.organName, r.description, r.category, r.images, 0, r.quantity, ActiveStatus,
            r.requestedBy, true, r.id)
  }

  /** Two records that agree on what a product copies give the same product. */
  lemma DonatedProductStable(r: DonationRequest, s: DonationRequest)
    requires (r.id, r.organName, r.description, r.category, r.images, r.quantity, r.requestedBy)
             == (s.id, s.organName, s.description, s.category, s.images, s.quantity, s.requestedBy)
    ensures DonatedProduct(r) == DonatedProduct(s)
  {
  }

  /** The number of products created for request `id`. */
  function ProductCount(products: seq<Product>, id: RequestId): (n: nat)
    ensures n <= |products|
    ensures n == 0 <==> forall k :: 0 <= k < |products| ==> products[k].donationRequestId != id
  {
    if products == [] then 0
    else ProductCount(products[..|products| - 1], id)
         + (if products[|products| - 1].donationRequestId == id then 1 else 0)
  }

  lemma ProductCountAppend(products: seq<Product>, p: Product, id: RequestId)
    ensures ProductCount(products + [p], id)
            == ProductCount(products, id) + (if p.donationRequestId == id then 1 else 0)
  {
    assert (products + [p])[..|products|] == products;
  }

  // ---------------------------------------------------------------- the store invariant

  /** Does `user` already have a Pending request named `name`? (the `findOne` of /create) */
  predicate HasPending(requests: map<RequestId, DonationRequest>, user: Auth.UserId, name: string) {
    exists i :: i in requests && requests[i].requestedBy == user && requests[i].organName == name
                && requests[i].status == Pending
  }

  /**
   * Once a Pending record is stored, its requester has a Pending request of that name, so
   * the same body is refused next time; nobody else gains one.
   */
  lemma HasPendingAfterInsert(requests: map<RequestId, DonationRequest>, id: RequestId, r: DonationRequest,
                              user: Auth.UserId, name: string)
    requires id !in requests && r.status == Pending
    ensures HasPending(requests[id := r], r.requestedBy, r.organName)
    ensures (user != r.requestedBy || name != r.organName) ==>
              (HasPending(requests[id := r], user, name) <==> HasPending(requests, user, name))
  {
    assert requests[id := r][id] == r;
    if HasPending(requests[id := r], user, name) && (user != r.requestedBy || name != r.organName) {
      var i :| i in requests[id := r] && requests[id := r][i].requestedBy == user && requests[id := r][i].organName == name
               && requests[id := r][i].status == Pending;
      assert i != id && i in requests;
    }
    if HasPending(requests, user, name) {
      var i :| i in requests && requests[i].requestedBy == user && requests[i].organName == name && requests[i].status == Pending;
      assert i != id && requests[id := r][i] == requests[i];
    }
  }

  /** The review fields agree with the status. */
  predicate Reviewed(r: DonationRequest, clock: nat) {
    && (r.status == Pending <==> r.approvedAt.None?)
    && (r.status == Pending ==> r.approvedBy.None? && r.rejectionReason.None? && r.adminNotes.None?)
    && (r.status != Pending ==> r.approvedBy.Some? && r.createdAt < r.approvedAt.value < clock)
    && (r.status == Approved ==> r.rejectionReason.None?)
    && (r.status == Rejected ==> r.rejectionReason.Some? && 10 <= Utf16Length(r.rejectionReason.value))
  }

  ghost predicate DenseIds(requests: map<RequestId, DonationRequest>, nextId: nat) {
    && (forall i: RequestId :: i in requests <==> i < nextId)
    && (forall i :: i in requests ==> requests[i].id == i)
  }

  ghost predicate RecordsValid(requests: map<RequestId, DonationRequest>, clock: nat) {
    forall i :: i in requests ==> Valid(requests[i]) && requests[i].createdAt < clock && Reviewed(requests[i], clock)
  }

  /** Of two stored records, the one with the smaller id was created first. */
  ghost predicate CreatedBefore(requests: map<RequestId, DonationRequest>, i: RequestId, j: RequestId) {
    i in requests && j in requests && i < j ==> requests[i].createdAt < requests[j].createdAt
  }

  ghost predicate CreatedInOrder(requests: map<RequestId, DonationRequest>) {
    forall i, j :: CreatedBefore(requests, i, j)
  }

  /** Two distinct Pending records of one requester name different organs. */
  ghost predicate DistinctPending(requests: map<RequestId, DonationRequest>, i: RequestId, j: RequestId) {
    i in requests && j in requests && i != j
    && requests[i].status == Pending && requests[j].status == Pending
    && requests[i].requestedBy == requests[j].requestedBy
    ==> requests[i].organName != requests[j].organName
  }

  ghost predicate NoDuplicatePending(requests: map<RequestId, DonationRequest>) {
    forall i, j :: DistinctPending(requests, i, j)
  }

  /** Every product copies an Approved request. */
  ghost predicate ProductsCopied(requests: map<RequestId, DonationRequest>, products: seq<Product>) {
    forall k :: 0 <= k < |products| ==>
      products[k].donationRequestId in requests
      && requests[products[k].donationRequestId].status == Approved
      && products[k] == DonatedProduct(requests[products[k].donationRequestId])
  }

  /** An Approved request has exactly one product, any other request none. */
  ghost predicate OnePerApproved(requests: map<RequestId, DonationRequest>, products: seq<Product>) {
    forall i :: i in requests ==> ProductCount(products, i) == if requests[i].status == Approved then 1 else 0
  }

  ghost predicate StoreInvariant(requests: map<RequestId, DonationRequest>, products: seq<Product>, nextId: nat, clock: nat) {
    && DenseIds(requests, nextId)
    && RecordsValid(requests, clock)
    && CreatedInOrder(requests)
    && NoDuplicatePending(requests)
    && ProductsCopied(requests, products)
    && OnePerApproved(requests, products)
  }

  /** A later clock keeps the review fields consistent. */
  lemma ReviewedLater(r: DonationRequest, clock: nat, later: nat)
    requires Reviewed(r, clock) && clock <= later
    ensures Reviewed(r, later)
  {
  }

  // Creation: a fresh Pending record at id `nextId`, stamped with the current clock.

  lemma CreateKeepsRecords(requests: map<RequestId, DonationRequest>, nextId: nat, clock: nat, r: DonationRequest)
    requires RecordsValid(requests, clock)
    requires Valid(r) && r.createdAt == clock && Reviewed(r, clock + 1)
    ensures RecordsValid(requests[nextId := r], clock + 1)
  {
    forall i | i in requests { ReviewedLater(requests[i], clock, clock + 1); }
  }

  lemma CreateKeepsOrder(requests: map<RequestId, DonationRequest>, nextId: nat, clock: nat, r: DonationRequest)
    requires DenseIds(requests, nextId) && CreatedInOrder(requests)
    requires forall i :: i in requests ==> requests[i].createdAt < clock
    requires r.createdAt == clock
    ensures CreatedInOrder(requests[nextId := r])
  {
    var rs := requests[nextId := r];
    forall i, j ensures CreatedBefore(rs, i, j) {
      assert CreatedBefore(requests, i, j);
    }
  }

  lemma CreateKeepsNoDuplicate(requests: map<RequestId, DonationRequest>, nextId: nat, r: DonationRequest)
    requires nextId !in requests && NoDuplicatePending(requests)
    requires !HasPending(requests, r.requestedBy, r.organName)
    ensures NoDuplicatePending(requests[nextId := r])
  {
    var rs := requests[nextId := r];
    forall i, j ensures DistinctPending(rs, i, j) {
      assert DistinctPending(requests, i, j);
      if i == nextId && j in requests && requests[j].requestedBy == r.requestedBy && requests[j].status == Pending {
        assert requests[j].organName != r.organName;
      } else if j == nextId && i in requests && requests[i].requestedBy == r.requestedBy && requests[i].status == Pending {
        assert requests[i].organName != r.organName;
      }
    }
  }

  lemma CreateKeepsProducts(requests: map<RequestId, DonationRequest>, products: seq<Product>, nextId: nat, r: DonationRequest)
    requires nextId !in requests && r.status == Pending
    requires ProductsCopied(requests, products) && OnePerApproved(requests, products)
    ensures ProductsCopied(requests[nextId := r], products) && OnePerApproved(requests[nextId := r], products)
  {
    var rs := requests[nextId := r];
    forall i | i in rs
      ensures ProductCount(products, i) == if rs[i].status == Approved then 1 else 0
    {
      if i == nextId {
        assert forall k :: 0 <= k < |products| ==> products[k].donationRequestId != i;
      }
    }
  }

  /** Adding a fresh Pending record that is valid and not a duplicate keeps the invariant. */
  lemma CreateKeepsInvariant(requests: map<RequestId, DonationRequest>, products: seq<Product>, nextId: nat, clock: nat,
                             r: DonationRequest)
    requires StoreInvariant(requests, products, nextId, clock)
    requires r.id == nextId && r.createdAt == clock && Valid(r) && Reviewed(r, clock + 1) && r.status == Pending
    requires !HasPending(requests, r.requestedBy, r.organName)
    ensures StoreInvariant(requests[nextId := r], products, nextId + 1, clock + 1)
  {
    CreateKeepsRecords(requests, nextId, clock, r);
    CreateKeepsOrder(requests, nextId, clock, r);
    CreateKeepsNoDuplicate(requests, nextId, r);
    CreateKeepsProducts(requests, products, nextId, r);
  }

  // Review: record `id` leaves Pending; the fields a product copies do not change.

  /** `a` is `requests[id]` reviewed at time `clock`. */
  predicate ReviewOf(requests: map<RequestId, DonationRequest>, id: RequestId, a: DonationRequest, clock: nat)
    requires id in requests
  {
    var r := requests[id];
    && (a.id, a.organName, a.description, a.category, a.images, a.quantity, a.requestedBy, a.pinCode, a.createdAt)
       == (r.id, r.organName, r.description, r.category, r.images, r.quantity, r.requestedBy, r.pinCode, r.createdAt)
    && a.status != Pending && Valid(a) && Reviewed(a, clock + 1) && a.approvedAt == Some(clock)
  }

  lemma ReviewKeepsRecords(requests: map<RequestId, DonationRequest>, nextId: nat, clock: nat, id: RequestId, a: DonationRequest)
    requires DenseIds(requests, nextId) && RecordsValid(requests, clock) && CreatedInOrder(requests)
    requires id in requests && ReviewOf(requests, id, a, clock)
    ensures var rs := requests[id := a];
            DenseIds(rs, nextId) && RecordsValid(rs, clock + 1) && CreatedInOrder(rs)
  {
    var rs := requests[id := a];
    forall i | i in requests { ReviewedLater(requests[i], clock, clock + 1); }
    forall i, j ensures CreatedBefore(rs, i, j) {
      assert CreatedBefore(requests, i, j);
    }
  }

  lemma ReviewKeepsNoDuplicate(requests: map<RequestId, DonationRequest>, id: RequestId, a: DonationRequest)
    requires NoDuplicatePending(requests) && a.status != Pending
    ensures NoDuplicatePending(requests[id := a])
  {
    var rs := requests[id := a];
    forall i, j ensures DistinctPending(rs, i, j) {
      assert DistinctPending(requests, i, j);
    }
  }

  lemma ApproveKeepsProducts(requests: map<RequestId, DonationRequest>, products: seq<Product>, nextId: nat, clock: nat,
                             id: RequestId, a: DonationRequest)
    requires id in requests && requests[id].status == Pending && requests[id].id == id
    requires ProductsCopied(requests, products) && OnePerApproved(requests, products)
    requires ReviewOf(requests, id, a, clock) && a.status == Approved
    ensures var ps := products + [DonatedProduct(requests[id])];
            ProductsCopied(requests[id := a], ps) && OnePerApproved(requests[id := a], ps)
  {
    var r := requests[id];
    var rs := requests[id := a];
    var ps := products + [DonatedProduct(r)];
    DonatedProductStable(r, a);
    assert ProductCount(products, id) == 0;
    forall i | i in rs
      ensures ProductCount(ps, i) == if rs[i].status == Approved then 1 else 0
    {
      ProductCountAppend(products, DonatedProduct(r), i);
    }
    forall k | 0 <= k < |ps|
      ensures ps[k].donationRequestId in rs && rs[ps[k].donationRequestId].status == Approved
              && ps[k] == DonatedProduct(rs[ps[k].donationRequestId])
    {
      if k < |products| {
        assert ps[k] == products[k];
        assert products[k].donationRequestId != id by {
          assert requests[products[k].donationRequestId].status == Approved;
        }
      }
    }
  }

  lemma RejectKeepsProducts(requests: map<RequestId, DonationRequest>, products: seq<Product>, id: RequestId, a: DonationRequest)
    requires id in requests && requests[id].status == Pending
    requires ProductsCopied(requests, products) && OnePerApproved(requests, products)
    requires a.status == Rejected
    ensures ProductsCopied(requests[id := a], products) && OnePerApproved(requests[id := a], products)
  {
    forall k | 0 <= k < |products|
      ensures products[k].donationRequestId != id
    {
      assert requests[products[k].donationRequestId].status == Approved;
    }
  }

  /** Approving a Pending record and adding its one product keeps the invariant. */
  lemma ApproveKeepsInvariant(requests: map<RequestId, DonationRequest>, products: seq<Product>, nextId: nat, clock: nat,
                              id: RequestId, admin: Auth.UserId, adminNotes: Option<string>)
    requires StoreInvariant(requests, products, nextId, clock)
    requires id in requests && requests[id].status == Pending
    requires Truthy(adminNotes) ==> Utf16Length(adminNotes.value) <= MaxNoteLength
    ensures var a := ApprovedRecord(requests[id], admin, clock, adminNotes);
            StoreInvariant(requests[id := a], products + [DonatedProduct(requests[id])], nextId, clock + 1)
  {
    var a := ApprovedRecord(requests[id], admin, clock, adminNotes);
    assert ReviewOf(requests, id, a, clock);
    ReviewKeepsRecords(requests, nextId, clock, id, a);
    ReviewKeepsNoDuplicate(requests, id, a);
    ApproveKeepsProducts(requests, products, nextId, clock, id, a);
  }

  /** Rejecting a Pending record with a good reason keeps the invariant; no product changes. */
  lemma RejectKeepsInvariant(requests: map<RequestId, DonationRequest>, products: seq<Product>, nextId: nat, clock: nat,
                             id: RequestId, admin: Auth.UserId, reason: string, adminNotes: Option<string>)
    requires StoreInvariant(requests, products, nextId, clock)
    requires id in requests && requests[id].status == Pending
    requires 10 <= Utf16Length(Trim(reason)) <= MaxNoteLength
    requires Truthy(adminNotes) ==> Utf16Length(adminNotes.value) <= MaxNoteLength
    ensures var a := RejectedRecord(requests[id], admin, clock, reason, adminNotes);
            StoreInvariant(requests[id := a], products, nextId, clock + 1)
  {
    var a := RejectedRecord(requests[id], admin, clock, reason, adminNotes);
    TrimIdempotent(reason);
    assert ReviewOf(requests, id, a, clock);
    ReviewKeepsRecords(requests, nextId, clock, id, a);
    ReviewKeepsNoDuplicate(requests, id, a);
    RejectKeepsProducts(requests, products, id, a);
  }

  /**
   * The product of a Pending request alone, without the status flip, breaks the
   * invariant: this is the state the as-written approval leaves when its final save fails.
   */
  lemma OrphanProductBreaksInvariant(requests: map<RequestId, DonationRequest>, products: seq<Product>, nextId: nat, clock: nat,
                                     id: RequestId)
    requires StoreInvariant(requests, products, nextId, clock)
    requires id in requests && requests[id].status == Pending
    ensures !StoreInvariant(requests, products + [DonatedProduct(requests[id])], nextId, clock)
  {
    var ps := products + [DonatedProduct(requests[id])];
    assert ps[|products|].donationRequestId == id;
  }

  // ---------------------------------------------------------------- listings

  /** `{ status, $or: [organName, description] ~ search, requestedBy }`; the regular-expression match is `regex`. */
  predicate Selects(f: Filter, r: DonationRequest, regex: (string, string) -> bool)
    ensures f.status != "" && f.status !in [Pending.Name(), Approved.Name(), Rejected.Name()] ==> !Selects(f, r, regex)
    ensures f == Filter("", "", None) ==> Selects(f, r, regex)
    ensures f.owner.Some? && f.owner.value != r.requestedBy ==> !Selects(f, r, regex)
  {
    && (f.status == "" || r.status.Name() == f.status)
    && (f.search == "" || regex(f.search, r.organName) || regex(f.search, r.description))
    && (f.owner.None? || r.requestedBy == f.owner.value)
  }

  /** The selected records among ids below `n`, newest (highest id) first. */
  function Matching(requests: map<RequestId, DonationRequest>, n: nat, f: Filter, regex: (string, string) -> bool): (s: seq<DonationRequest>)
    requires forall i: RequestId :: i < n ==> i in requests && requests[i].id == i
    ensures |s| <= n
    ensures forall k :: 0 <= k < |s| ==> s[k].id < n && s[k] == requests[s[k].id] && Selects(f, s[k], regex)
  {
    if n == 0 then []
    else
      var r := requests[n - 1];
      (if Selects(f, r, regex) then [r] else []) + Matching(requests, n - 1, f, regex)
  }

  predicate IdsDescending(s: seq<DonationRequest>) {
    forall a, b :: 0 <= a < b < |s| ==> s[a].id > s[b].id
  }

  lemma ConsDescending(r: DonationRequest, t: seq<DonationRequest>)
    requires IdsDescending(t) && forall k :: 0 <= k < |t| ==> t[k].id < r.id
    ensures IdsDescending([r] + t)
  {
    var s := [r] + t;
    forall a, b | 0 <= a < b < |s| ensures s[a].id > s[b].id {
      assert s[b] == t[b - 1];
      if a > 0 { assert s[a] == t[a - 1]; }
    }
  }

  /** A listing holds no record twice: its ids strictly decrease. */
  lemma {:induction false} MatchingDescending(requests: map<RequestId, DonationRequest>, n: nat, f: Filter,
                                              regex: (string, string) -> bool)
    requires forall i: RequestId :: i < n ==> i in requests && requests[i].id == i
    ensures IdsDescending(Matching(requests, n, f, regex))
  {
    if n > 0 {
      MatchingDescending(requests, n - 1, f, regex);
      var r := requests[n - 1];
      if Selects(f, r, regex) {
        ConsDescending(r, Matching(requests, n - 1, f, regex));
      }
    }
  }

  /** A listing leaves out no selected record. */
  lemma {:induction false} MatchingComplete(requests: map<RequestId, DonationRequest>, n: nat, f: Filter,
                                            regex: (string, string) -> bool, i: RequestId)
    requires forall i: RequestId :: i < n ==> i in requests && requests[i].id == i
    requires i < n && Selects(f, requests[i], regex)
    ensures requests[i] in Matching(requests, n, f, regex)
  {
    if i < n - 1 {
      MatchingComplete(requests, n - 1, f, regex, i);
    }
  }

  /** Under the invariant, ids order records as `createdAt` does: a listing is newest first. */
  lemma MatchingNewestFirst(requests: map<RequestId, DonationRequest>, nextId: nat, f: Filter, regex: (string, string) -> bool)
    requires DenseIds(requests, nextId) && CreatedInOrder(requests)
    ensures var s := Matching(requests, nextId, f, regex);
            forall a, b :: 0 <= a < b < |s| ==> s[a].createdAt > s[b].createdAt
  {
    var s := Matching(requests, nextId, f, regex);
    MatchingDescending(requests, nextId, f, regex);
    forall a, b | 0 <= a < b < |s|
      ensures s[a].createdAt > s[b].createdAt
    {
      assert CreatedBefore(requests, s[b].id, s[a].id);
    }
  }

  /** `(page - 1) * limit`, the number of records a page skips. */
  function Skip(page: int, limit: int): int {
    (page - 1) * limit
  }

  /** `.skip(skip).limit(limit)`: a limit of 0 is no limit, a negative limit takes its absolute value. */
  function Window<T>(s: seq<T>, skip: nat, limit: int): (w: seq<T>)
    ensures |w| == if skip >= |s| then 0
                   else if limit == 0 then |s| - skip
                   else Min(Abs(limit), |s| - skip)
    ensures forall k :: 0 <= k < |w| ==> skip + k < |s| && w[k] == s[skip + k]
  {
    if skip >= |s| then []
    else if limit == 0 then s[skip..]
    else s[skip..skip + Min(Abs(limit), |s| - skip)]
  }

  function Abs(x: int): nat { if x < 0 then -x else x }
  function Min(a: nat, b: nat): nat { if a < b then a else b }

  /** `Math.ceil(total / limit)`; `None` for a zero limit (Infinity or NaN, sent as null). */
  function PageCount(total: nat, limit: int): (pages: Option<int>)
    ensures pages.None? <==> limit == 0
  {
    if limit == 0 then None
    else if limit > 0 then Some((total + limit - 1) / limit)
    else Some(-(total / -limit))
  }

  /** Euclidean division of a non-negative `n` by a positive `m`. */
  lemma DivBounds(n: int, m: int)
    requires n >= 0 && m > 0
    ensures (n / m) * m <= n < (n / m + 1) * m
  {
  }

  /** The page count is the ceiling of `total / limit`, for either sign of `limit`. */
  lemma PageCountCeiling(total: nat, limit: int)
    requires limit != 0
    ensures var p := PageCount(total, limit).value;
            limit > 0 ==> p * limit >= total && (p - 1) * limit < total
    ensures var p := PageCount(total, limit).value;
            limit < 0 ==> p * limit <= total && (p - 1) * limit > total
  {
    if limit > 0 {
      var q := (total + limit - 1) / limit;
      DivBounds(total + limit - 1, limit);
      assert (q - 1) * limit == q * limit - limit;
    } else {
      var m := -limit;
      var q := total / m;
      DivBounds(total, m);
      assert (-q) * limit == q * m;
      assert (-q - 1) * limit == (q + 1) * m;
    }
  }

  /** 25 matching records, page 2 of 10: ten records and three pages. */
  lemma PaginationExample<T>(s: seq<T>)
    requires |s| == 25
    ensures |Window(s, (2 - 1) * 10, 10)| == 10 && PageCount(|s|, 10) == Some(3)
  {
  }

  /** /my-requests: `parseInt(x) || d`, where a missing or unparsable value is `None`. */
  function OrDefault(x: Option<int>, d: int): (v: int)
    ensures x.None? || x.value == 0 ==> v == d
    ensures x.Some? && x.value != 0 ==> v == x.value
  {
    if x.None? || x.value == 0 then d else x.value
  }

  // ---------------------------------------------------------------- creation

  /** The body names a known category and carries the two strings the route trims. */
  predicate Creatable(body: CreateBody, categories: set<CategoryId>) {
    body.category.Some? && body.category.value in categories && body.organName.Some? && body.description.Some?
  }

  /** The record `new DonationRequest({...})` builds from the body of /create. */
  function Draft(id: RequestId, caller: Auth.UserId, body: CreateBody, createdAt: nat): (r: DonationRequest)
    requires body.category.Some? && body.organName.Some? && body.description.Some?
    ensures && r.id == id && r.status == Pending && r.requestedBy == caller && r.createdAt == createdAt
            && r.organName == Trim(body.organName.value) && r.description == Trim(body.description.value)
            && r.category == body.category.value && r.images == body.images && r.pinCode == body.pinCode
            && r.quantity == QuantityOrOne(body.quantity)
            && r.rejectionReason.None? && r.adminNotes.None? && r.approvedBy.None? && r.approvedAt.None?
  {
    TrimIdempotent(body.organName.value);
    NewRequest(id, Trim(body.organName.value), body.category.value, body.images, body.pinCode,
               Trim(body.description.value), Some(QuantityOrOne(body.quantity)), caller, createdAt)
  }

  /** /create stores a record exactly when the body is complete, not a duplicate, and its record passes the schema. */
  predicate Accepts(requests: map<RequestId, DonationRequest>, caller: Auth.UserId, body: CreateBody,
                    categories: set<CategoryId>, nextId: nat, clock: nat) {
    && Creatable(body, categories)
    && !HasPending(requests, caller, Trim(body.organName.value))
    && SchemaErrors(Draft(nextId, caller, body, clock)) == []
  }

  /** A request body is stored exactly when its values meet the schema's constraints (and it is no duplicate). */
  lemma AcceptsIff(requests: map<RequestId, DonationRequest>, caller: Auth.UserId, body: CreateBody,
                   categories: set<CategoryId>, nextId: nat, clock: nat)
    ensures Accepts(requests, caller, body, categories, nextId, clock) <==>
              && Creatable(body, categories)
              && !HasPending(requests, caller, Trim(body.organName.value))
              && 2 <= Utf16Length(Trim(body.organName.value)) <= 100
              && (forall i :: 0 <= i < |body.images| ==> body.images[i] != "")
              && body.pinCode.Some? && 100000 <= body.pinCode.value <= 999999
              && 10 <= Utf16Length(Trim(body.description.value)) <= 1000
              && (body.quantity.None? || body.quantity.value >= 0)
  {
    if Creatable(body, categories) {
      var r := Draft(nextId, caller, body, clock);
      TrimIdempotent(body.organName.value);
      ValidIffNoErrors(r);
      NewRequestValid(nextId, Trim(body.organName.value), body.category.value, body.images, body.pinCode,
                      Trim(body.description.value), Some(QuantityOrOne(body.quantity)), caller, clock);
    }
  }

  /**
   * `populate` found the record's category and requester: their ids are among those whose
   * documents still exist. Otherwise the populated field is null and reading its `_id`
   * throws.
   */
  predicate Populated(r: DonationRequest, categories: set<CategoryId>, users: set<Auth.UserId>) {
    r.category in categories && r.requestedBy in users
  }

  // ---------------------------------------------------------------- the store

  class Store {
    var requests: map<RequestId, DonationRequest>
    var products: seq<Product>
    var nextId: nat
    var clock: nat

    ghost predicate Valid()
      reads this
    {
      StoreInvariant(requests, products, nextId, clock)
    }

    constructor ()
      ensures Valid()
      ensures requests == map[] && products == [] && nextId == 0 && clock == 0
    {
      requests, products, nextId, clock := map[], [], 0, 0;
    }

    /** POST /create. */
    method Create(caller: Auth.User, body: CreateBody, categories: set<CategoryId>) returns (reply: Reply<DonationRequest>)
      requires Valid()
      modifies this
      ensures Valid()
      ensures body.category.None? || body.category.value !in categories ==>
                reply == Fail(400, InvalidCategory, [])
      ensures body.category.Some? && body.category.value in categories && body.organName.None? ==>
                reply == Fail(500, CreateFailed, [])
      ensures body.category.Some? && body.category.value in categories && body.organName.Some?
              && HasPending(old(requests), caller.id, Trim(body.organName.value)) ==>
                reply == Fail(400, DuplicatePending, [])
      ensures body.category.Some? && body.category.value in categories && body.organName.Some?
              && !HasPending(old(requests), caller.id, Trim(body.organName.value)) && body.description.None? ==>
                reply == Fail(500, CreateFailed, [])
      ensures reply.Ok? <==> Accepts(old(requests), caller.id, body, categories, old(nextId), old(clock))
      ensures reply.Fail? && reply.errors != [] ==>
                Creatable(body, categories) && reply.code == 400 && reply.message == ValidationFailed
      ensures reply.Fail? && Creatable(body, categories) && !HasPending(old(requests), caller.id, Trim(body.organName.value)) ==>
                reply.errors == SchemaErrors(Draft(old(nextId), caller.id, body, old(clock)))
      ensures reply.Ok? ==>
                && reply == Ok(201, Submitted, Draft(old(nextId), caller.id, body, old(clock)))
                && requests == old(requests)[old(nextId) := reply.data] && products == old(products)
                && nextId == old(nextId) + 1 && clock == old(clock) + 1
      ensures reply.Fail? ==> unchanged(this)
    {
      if body.category.None? || body.category.value !in categories {
        return Fail(400, InvalidCategory, []);
      }
      if body.organName.None? {
        // `organName.trim()` on undefined throws a TypeError
        return Fail(500, CreateFailed, []);
      }
      var name := Trim(body.organName.value);
      if HasPending(requests, caller.id, name) {
        return Fail(400, DuplicatePending, []);
      }
      if body.description.None? {
        return Fail(500, CreateFailed, []);
      }
      var r := Draft(nextId, caller.id, body, clock);
      var errors := SchemaErrors(r);
      if errors != [] {
        return Fail(400, ValidationFailed, errors);
      }
      assert r.organName == name && r.requestedBy == caller.id;
      ValidIffNoErrors(r);
      assert DonationRequestModel.Valid(r);
      assert r.id == nextId && r.createdAt == clock && r.status == Pending;
      assert r.rejectionReason.None? && r.adminNotes.None? && r.approvedBy.None? && r.approvedAt.None?;
      assert !HasPending(requests, r.requestedBy, r.organName);
      assert Valid();
      Insert(r);
      reply := Ok(201, Submitted, r);
    }

    /** `save()` of a new record that passed validation: it takes the next id and the current time. */
    method Insert(r: DonationRequest)
      requires Valid() && DonationRequestModel.Valid(r)
      requires r.id == nextId && r.createdAt == clock && r.status == Pending
      requires r.rejectionReason.None? && r.adminNotes.None? && r.approvedBy.None? && r.approvedAt.None?
      requires !HasPending(requests, r.requestedBy, r.organName)
      modifies this
      ensures Valid()
      ensures requests == old(requests)[old(nextId) := r] && products == old(products)
      ensures nextId == old(nextId) + 1 && clock == old(clock) + 1
    {
      CreateKeepsInvariant(requests, products, nextId, clock, r);
      requests := requests[nextId := r];
      nextId := nextId + 1;
      clock := clock + 1;
    }

    /** PUT /approve/:id, as corrected: the final save's validation runs before the product is saved. */
    method Approve(caller: Auth.User, id: RequestId, adminNotes: Option<string>,
                   categories: set<CategoryId>, users: set<Auth.UserId>) returns (reply: Reply<(DonationRequest, Product)>)
      requires Valid()
      modifies this
      ensures Valid()
      ensures caller.userRole != "admin" ==> reply == Fail(403, AdminOnly, [])
      ensures caller.userRole == "admin" && id !in old(requests) ==> reply == Fail(404, NotFound, [])
      ensures caller.userRole == "admin" && id in old(requests) && old(requests)[id].status != Pending ==>
                reply == Fail(400, OnlyPendingApproved, [])
      ensures caller.userRole == "admin" && id in old(requests) && old(requests)[id].status == Pending
              && !Populated(old(requests)[id], categories, users) ==>
                reply == Fail(500, ApproveFailed, [])
      ensures caller.userRole == "admin" && id in old(requests) && old(requests)[id].status == Pending
              && Truthy(adminNotes) && Utf16Length(adminNotes.value) > MaxNoteLength ==>
                reply == Fail(500, ApproveFailed, [])
      ensures reply.Ok? <==>
                caller.userRole == "admin" && id in old(requests) && old(requests)[id].status == Pending
                && Populated(old(requests)[id], categories, users)
                && (Truthy(adminNotes) ==> Utf16Length(adminNotes.value) <= MaxNoteLength)
      ensures reply.Ok? ==>
                && reply.code == 200
                && var r := old(requests)[id];
                   && requests == old(requests)[id := ApprovedRecord(r, caller.id, old(clock), adminNotes)]
                   && products == old(products) + [DonatedProduct(r)]
                   && reply.data == (requests[id], DonatedProduct(r))
                   && nextId == old(nextId) && clock == old(clock) + 1
      ensures reply.Fail? ==> unchanged(this)
    {
      if RequireAdmin(caller).Deny? {
        return Fail(403, AdminOnly, []);
      }
      if id !in requests {
        return Fail(404, NotFound, []);
      }
      var r := requests[id];
      if r.status != Pending {
        return Fail(400, OnlyPendingApproved, []);
      }
      if !Populated(r, categories, users) {
        // `category._id` or `requestedBy._id` of a null populate throws before anything is saved
        return Fail(500, ApproveFailed, []);
      }
      reply := SaveApproval(caller.id, id, adminNotes);
    }

    /** The approval proper, validation first: the product is saved only once the record passes the schema. */
    method SaveApproval(admin: Auth.UserId, id: RequestId, adminNotes: Option<string>)
      returns (reply: Reply<(DonationRequest, Product)>)
      requires Valid() && id in requests && requests[id].status == Pending
      modifies this
      ensures Valid()
      ensures reply.Ok? <==> (Truthy(adminNotes) ==> Utf16Length(adminNotes.value) <= MaxNoteLength)
      ensures reply.Fail? ==> reply == Fail(500, ApproveFailed, []) && unchanged(this)
      ensures reply.Ok? ==>
                && var r := old(requests)[id];
                   && reply == Ok(200, ApprovedOk, (ApprovedRecord(r, admin, old(clock), adminNotes), DonatedProduct(r)))
                   && requests == old(requests)[id := reply.data.0]
                   && products == old(products) + [reply.data.1]
                   && nextId == old(nextId) && clock == old(clock) + 1
    {
      var r := requests[id];
      var updated := ApprovedRecord(r, admin, clock, adminNotes);
      ApprovedRecordValid(r, admin, clock, adminNotes);
      ValidIffNoErrors(updated);
      if SchemaErrors(updated) != [] {
        return Fail(500, ApproveFailed, []);
      }
      ApproveKeepsInvariant(requests, products, nextId, clock, id, admin, adminNotes);
      var organ := DonatedProduct(r);
      products := products + [organ];
      requests := requests[id := updated];
      clock := clock + 1;
      reply := Ok(200, ApprovedOk, (updated, organ));
    }

    /**
     * PUT /approve/:id as the route is written: the product is saved first, then the
     * request's save re-validates and can fail on over-long notes, leaving the product
     * behind while the request stays Pending.
     */
    method ApproveAsWritten(caller: Auth.User, id: RequestId, adminNotes: Option<string>,
                            categories: set<CategoryId>, users: set<Auth.UserId>) returns (reply: Reply<(DonationRequest, Product)>)
      requires Valid()
      modifies this
      ensures caller.userRole != "admin" ==> reply == Fail(403, AdminOnly, [])
      ensures caller.userRole == "admin" && id !in old(requests) ==> reply == Fail(404, NotFound, [])
      ensures caller.userRole == "admin" && id in old(requests) && old(requests)[id].status != Pending ==>
                reply == Fail(400, OnlyPendingApproved, [])
      ensures caller.userRole == "admin" && id in old(requests) && old(requests)[id].status == Pending
              && !Populated(old(requests)[id], categories, users) ==>
                reply == Fail(500, ApproveFailed, [])
      ensures caller.userRole == "admin" && id in old(requests) && old(requests)[id].status == Pending
              && Populated(old(requests)[id], categories, users)
              && Truthy(adminNotes) && Utf16Length(adminNotes.value) > MaxNoteLength ==>
                && reply == Fail(500, ApproveFailed, [])
                && requests == old(requests) && products == old(products) + [DonatedProduct(old(requests)[id])]
                && !Valid()
      ensures caller.userRole == "admin" && id in old(requests) && old(requests)[id].status == Pending
              && Populated(old(requests)[id], categories, users)
              && (Truthy(adminNotes) ==> Utf16Length(adminNotes.value) <= MaxNoteLength) ==>
                && reply.Ok? && Valid()
                && requests == old(requests)[id := ApprovedRecord(old(requests)[id], caller.id, old(clock), adminNotes)]
                && products == old(products) + [DonatedProduct(old(requests)[id])]
      ensures caller.userRole != "admin" || id !in old(requests) || old(requests)[id].status != Pending
              || !Populated(old(requests)[id], categories, users) ==>
                reply.Fail? && unchanged(this)
    {
      if RequireAdmin(caller).Deny? {
        return Fail(403, AdminOnly, []);
      }
      if id !in requests {
        return Fail(404, NotFound, []);
      }
      var r := requests[id];
      if r.status != Pending {
        return Fail(400, OnlyPendingApproved, []);
      }
      if !Populated(r, categories, users) {
        return Fail(500, ApproveFailed, []);
      }
      reply := SaveApprovalAsWritten(caller.id, id, adminNotes);
    }

    /** The approval proper as written: the product is saved, then the record's `save()` re-validates it. */
    method SaveApprovalAsWritten(admin: Auth.UserId, id: RequestId, adminNotes: Option<string>)
      returns (reply: Reply<(DonationRequest, Product)>)
      requires Valid() && id in requests && requests[id].status == Pending
      modifies this
      ensures reply.Ok? <==> (Truthy(adminNotes) ==> Utf16Length(adminNotes.value) <= MaxNoteLength)
      ensures products == old(products) + [DonatedProduct(old(requests)[id])]
      ensures reply.Fail? ==>
                && reply == Fail(500, ApproveFailed, [])
                && requests == old(requests) && nextId == old(nextId) && clock == old(clock)
                && !Valid()
      ensures reply.Ok? ==>
                && Valid()
                && requests == old(requests)[id := ApprovedRecord(old(requests)[id], admin, old(clock), adminNotes)]
                && nextId == old(nextId) && clock == old(clock) + 1
    {
      var r := requests[id];
      var organ := DonatedProduct(r);
      ghost var before := products;
      products := products + [organ];
      var updated := ApprovedRecord(r, admin, clock, adminNotes);
      ApprovedRecordValid(r, admin, clock, adminNotes);
      ValidIffNoErrors(updated);
      if SchemaErrors(updated) != [] {
        OrphanProductBreaksInvariant(requests, before, nextId, clock, id);
        return Fail(500, ApproveFailed, []);
      }
      ApproveKeepsInvariant(requests, before, nextId, clock, id, admin, adminNotes);
      requests := requests[id := updated];
      clock := clock + 1;
      reply := Ok(200, ApprovedOk, (updated, organ));
    }

    /** PUT /reject/:id: the reason is checked before the record is looked up. */
    method Reject(caller: Auth.User, id: RequestId, reason: Option<string>, adminNotes: Option<string>)
      returns (reply: Reply<DonationRequest>)
      requires Valid()
      modifies this
      ensures Valid()
      ensures caller.userRole != "admin" ==> reply == Fail(403, AdminOnly, [])
      ensures caller.userRole == "admin" && BadReason(reason) ==> reply == Fail(400, ReasonRequired, [])
      ensures caller.userRole == "admin" && !BadReason(reason) && id !in old(requests) ==>
                reply == Fail(404, NotFound, [])
      ensures caller.userRole == "admin" && !BadReason(reason) && id in old(requests) && old(requests)[id].status != Pending ==>
                reply == Fail(400, OnlyPendingRejected, [])
      ensures reply.Ok? <==>
                caller.userRole == "admin" && !BadReason(reason) && id in old(requests) && old(requests)[id].status == Pending
                && Utf16Length(Trim(reason.value)) <= MaxNoteLength && (Truthy(adminNotes) ==> Utf16Length(adminNotes.value) <= MaxNoteLength)
      ensures reply.Ok? ==>
                && reply.code == 200
                && requests == old(requests)[id := RejectedRecord(old(requests)[id], caller.id, old(clock), reason.value, adminNotes)]
                && reply.data == requests[id]
                && products == old(products) && nextId == old(nextId) && clock == old(clock) + 1
      ensures reply.Fail? ==> unchanged(this)
    {
      if RequireAdmin(caller).Deny? {
        return Fail(403, AdminOnly, []);
      }
      if !Truthy(reason) || Utf16Length(Trim(reason.value)) < 10 {
        return Fail(400, ReasonRequired, []);
      }
      if id !in requests {
        return Fail(404, NotFound, []);
      }
      var r := requests[id];
      if r.status != Pending {
        return Fail(400, OnlyPendingRejected, []);
      }
      reply := SaveRejection(caller.id, id, reason.value, adminNotes);
    }

    /** The rejection proper: the record leaves Pending and its `save()` re-validates it. */
    method SaveRejection(admin: Auth.UserId, id: RequestId, reason: string, adminNotes: Option<string>)
      returns (reply: Reply<DonationRequest>)
      requires Valid() && id in requests && requests[id].status == Pending && 10 <= Utf16Length(Trim(reason))
      modifies this
      ensures Valid()
      ensures reply.Ok? <==> Utf16Length(Trim(reason)) <= MaxNoteLength && (Truthy(adminNotes) ==> Utf16Length(adminNotes.value) <= MaxNoteLength)
      ensures reply.Fail? ==> reply == Fail(500, RejectFailed, []) && unchanged(this)
      ensures reply.Ok? ==>
                && reply == Ok(200, RejectedOk, RejectedRecord(old(requests)[id], admin, old(clock), reason, adminNotes))
                && requests == old(requests)[id := reply.data]
                && products == old(products) && nextId == old(nextId) && clock == old(clock) + 1
    {
      var updated := RejectedRecord(requests[id], admin, clock, reason, adminNotes);
      RejectedRecordValid(requests[id], admin, clock, reason, adminNotes);
      ValidIffNoErrors(updated);
      if SchemaErrors(updated) != [] {
        return Fail(500, RejectFailed, []);
      }
      RejectKeepsInvariant(requests, products, nextId, clock, id, admin, reason, adminNotes);
      requests := requests[id := updated];
      clock := clock + 1;
      reply := Ok(200, RejectedOk, updated);
    }

    /** GET /all (admin only): filter, newest first, then `skip` and `limit`. */
    method ListAll(caller: Auth.User, status: string, page: Option<int>, limit: Option<int>, search: string,
                   regex: (string, string) -> bool) returns (reply: Reply<Page>)
      requires Valid()
      ensures caller.userRole != "admin" ==> reply == Fail(403, AdminOnly, [])
      ensures caller.userRole == "admin" && Skip(page.GetOr(1), limit.GetOr(10)) < 0 ==> reply == Fail(500, FetchFailed, [])
      ensures reply.Ok? <==> caller.userRole == "admin" && Skip(page.GetOr(1), limit.GetOr(10)) >= 0
      ensures reply.Ok? ==>
                var all := Matching(requests, nextId, Filter(status, search, None), regex);
                && reply.data.total == |all|
                && reply.data.requests == Window(all, Skip(page.GetOr(1), limit.GetOr(10)), limit.GetOr(10))
                && reply.data.page == page.GetOr(1) && reply.data.limit == limit.GetOr(10)
                && reply.data.pages == PageCount(|all|, limit.GetOr(10))
                && forall k :: 0 <= k < |reply.data.requests| ==>
                     reply.data.requests[k] in requests.Values
                     && (status == "" || reply.data.requests[k].status.Name() == status)
    {
      if RequireAdmin(caller).Deny? {
        return Fail(403, AdminOnly, []);
      }
      var p := page.GetOr(1);
      var l := limit.GetOr(10);
      var skip := Skip(p, l);
      if skip < 0 {
        // the store refuses a negative skip
        return Fail(500, FetchFailed, []);
      }
      var all := Matching(requests, nextId, Filter(status, search, None), regex);
      var window := Window(all, skip, l);
      forall k | 0 <= k < |window| ensures window[k] in requests.Values {
        assert window[k] == all[skip + k];
        assert all[skip + k] == requests[all[skip + k].id];
      }
      reply := Ok(200, "", Page(window, p, l, |all|, PageCount(|all|, l)));
    }

    /** GET /my-requests: the caller's records only, newest first; page and limit default to 1 and 10. */
    method ListMine(caller: Auth.User, page: Option<int>, limit: Option<int>) returns (reply: Reply<Page>)
      requires Valid()
      ensures Skip(OrDefault(page, 1), OrDefault(limit, 10)) < 0 ==> reply == Fail(500, FetchFailed, [])
      ensures reply.Ok? <==> Skip(OrDefault(page, 1), OrDefault(limit, 10)) >= 0
      ensures reply.Ok? ==>
                var mine := Matching(requests, nextId, Filter("", "", Some(caller.id)), (_, _) => false);
                && reply.data.total == |mine|
                && reply.data.requests == Window(mine, Skip(OrDefault(page, 1), OrDefault(limit, 10)), OrDefault(limit, 10))
                && reply.data.page == OrDefault(page, 1) && reply.data.limit == OrDefault(limit, 10)
                && reply.data.pages == PageCount(|mine|, OrDefault(limit, 10))
                && forall k :: 0 <= k < |reply.data.requests| ==> reply.data.requests[k].requestedBy == caller.id
    {
      var p := OrDefault(page, 1);
      var l := OrDefault(limit, 10);
      var skip := Skip(p, l);
      if skip < 0 {
        return Fail(500, FetchFailed, []);
      }
      var mine := Matching(requests, nextId, Filter("", "", Some(caller.id)), (_, _) => false);
      var window := Window(mine, skip, l);
      reply := Ok(200, "", Page(window, p, l, |mine|, PageCount(|mine|, l)));
    }

    /**
     * GET /:id: the requester or an admin may read a record; `users` are the ids whose
     * user documents still exist, so that `requestedBy` populates.
     */
    method GetById(caller: Auth.User, id: RequestId, users: set<Auth.UserId>) returns (reply: Reply<DonationRequest>)
      ensures id !in requests ==> reply == Fail(404, NotFound, [])
      ensures id in requests && requests[id].requestedBy !in users ==> reply == Fail(500, FetchOneFailed, [])
      ensures id in requests && requests[id].requestedBy in users
              && requests[id].requestedBy != caller.id && caller.userRole != "admin" ==>
                reply == Fail(403, AccessDenied, [])
      ensures reply.Ok? <==>
                id in requests && requests[id].requestedBy in users
                && (requests[id].requestedBy == caller.id || caller.userRole == "admin")
      ensures reply.Ok? ==> reply.code == 200 && reply.data == requests[id]
    {
      if id !in requests {
        return Fail(404, NotFound, []);
      }
      var r := requests[id];
      if r.requestedBy !in users {
        // `requestedBy._id` of a null populate throws
        return Fail(500, FetchOneFailed, []);
      }
      if r.requestedBy != caller.id && caller.userRole != "admin" {
        return Fail(403, AccessDenied, []);
      }
      reply := Ok(200, "", r);
    }
  }
}
