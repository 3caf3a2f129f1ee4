/**
 * The donation-request record of server/models/DonationRequest.js: its fields, the
 * defaults the schema applies and the validators the schema runs on every save.
 */
module DonationRequestModel {
  import opened Wrappers
  import opened Strings
  import Auth = AuthMiddleware
  type CategoryId = string
  type RequestId = nat

  /** The `status` enum; Pending is the only state a workflow operation may leave. */
  datatype Status = Pending | Approved | Rejected {
    /** The string the store keeps and the `status` query filter compares against. */
    function Name(): string {
      match this
      case Pending => "Pending"
      case Approved => "Approved"
      case Rejected => "Rejected"
    }
  }

  /** `createdAt`, `approvedAt` are points of an increasing clock. */
  datatype DonationRequest = DonationRequest(
    id: RequestId,
    organName: string,
    category: CategoryId,
    images: seq<string>,
    pinCode: Option<int>,
    description: string,
    quantity: int,
    status: Status,
    requestedBy: Auth.UserId,
    rejectionReason: Option<string>,
    adminNotes: Option<string>,
    approvedBy: Option<Auth.UserId>,
    approvedAt: Option<nat>,
    createdAt: nat)

  const OrganNameRequired := "Organ name is required"
  const OrganNameTooShort := "Organ name must be at least 2 characters"
  const OrganNameTooLong := "Organ name cannot exceed 100 characters"
  const ImageRequired := "At least one image is required"
  const PinCodeRequired := "Pin code is required"
  const PinCodeDigits := "Pin code must be 6 digits"
  const DescriptionRequired := "Description is required"
  const DescriptionTooShort := "Description must be at least 10 characters"
  const DescriptionTooLong := "Description cannot exceed 1000 characters"
  const QuantityTooSmall := "Quantity must be at least 1"
  const RejectionReasonTooLong := "Rejection reason cannot exceed 500 characters"
  const AdminNotesTooLong := "Admin notes cannot exceed 500 characters"

  const MaxNoteLength := 500

  /** Every message a failed save can report. */
  const SchemaMessages := {OrganNameRequired, OrganNameTooShort, OrganNameTooLong, ImageRequired, PinCodeRequired,
                           PinCodeDigits, DescriptionRequired, DescriptionTooShort, DescriptionTooLong,
                           QuantityTooSmall, RejectionReasonTooLong, AdminNotesTooLong}

  /** Every field constraint of the schema, stated directly; lengths are counted as `String.length` counts them. */
  predicate Valid(r: DonationRequest)
    ensures Valid(r) ==> r.organName != "" && r.description != "" && r.quantity > 0
    ensures Valid(r) ==> |r.description| >= 5 && (r.adminNotes.Some? ==> |r.adminNotes.value| <= MaxNoteLength)
    ensures Valid(r) ==> r.adminNotes.Some? ==> Utf16Length(r.adminNotes.value) <= MaxNoteLength
  {
    && 2 <= Utf16Length(r.organName) <= 100
    && (forall i :: 0 <= i < |r.images| ==> r.images[i] != "")
    && r.pinCode.Some? && 100000 <= r.pinCode.value <= 999999
    && 10 <= Utf16Length(r.description) <= 1000
    && r.quantity >= 1
    && (r.rejectionReason.Some? ==> Utf16Length(r.rejectionReason.value) <= MaxNoteLength)
    && (r.adminNotes.Some? ==> Utf16Length(r.adminNotes.value) <= MaxNoteLength)
  }

  /** An optional text field with a `maxlength` and nothing else. */
  function NoteError(note: Option<string>, message: string): (e: seq<string>)
    ensures e == [] <==> (note.Some? ==> Utf16Length(note.value) <= MaxNoteLength)
    ensures e != [] ==> e == [message]
  {
    if note.Some? && Utf16Length(note.value) > MaxNoteLength then [message] else []
  }

  /** A required string with a `minlength` and a `maxlength`: the first validator that fails. */
  function LengthError(s: string, min: nat, max: nat, required: string, short: string, long: string): (e: seq<string>)
    requires 1 <= min
    ensures e == [] <==> min <= Utf16Length(s) <= max
    ensures s == "" ==> e == [required]
    ensures s != "" && Utf16Length(s) < min ==> e == [short]
    ensures min <= Utf16Length(s) && Utf16Length(s) > max ==> e == [long]
  {
    if s == "" then [required]
    else if Utf16Length(s) < min then [short]
    else if Utf16Length(s) > max then [long]
    else []
  }

  /** One message per empty element of `images` (the `required` sits on each element). */
  function ImageErrors(images: seq<string>): (e: seq<string>)
    ensures e == [] <==> forall i :: 0 <= i < |images| ==> images[i] != ""
    ensures forall i :: 0 <= i < |e| ==> e[i] == ImageRequired
  {
    if images == [] then []
    else (if images[0] == "" then [ImageRequired] else []) + ImageErrors(images[1..])
  }

  function PinCodeError(pinCode: Option<int>): (e: seq<string>)
    ensures e == [] <==> pinCode.Some? && 100000 <= pinCode.value <= 999999
    ensures pinCode.None? ==> e == [PinCodeRequired]
    ensures pinCode.Some? && e != [] ==> e == [PinCodeDigits]
  {
    if pinCode.None? then [PinCodeRequired]
    else if pinCode.value < 100000 || pinCode.value > 999999 then [PinCodeDigits]
    else []
  }

  /** Every message of `e` is one a failed save can report. */
  predicate Reportable(e: seq<string>) {
    forall k :: 0 <= k < |e| ==> e[k] in SchemaMessages
  }

  lemma ReportableConcat(a: seq<string>, b: seq<string>)
    requires Reportable(a) && Reportable(b)
    ensures Reportable(a + b)
  {
    forall k | 0 <= k < |a + b| ensures (a + b)[k] in SchemaMessages {
      if k < |a| { assert (a + b)[k] == a[k]; } else { assert (a + b)[k] == b[k - |a|]; }
    }
  }

  /**
   * The messages of a failed save (the `errors` of a ValidationError), one per failing
   * path, in the order the schema declares its paths.
   */
  function SchemaErrors(r: DonationRequest): seq<string>
  {
    LengthError(r.organName, 2, 100, OrganNameRequired, OrganNameTooShort, OrganNameTooLong)
    + ImageErrors(r.images)
    + PinCodeError(r.pinCode)
    + LengthError(r.description, 10, 1000, DescriptionRequired, DescriptionTooShort, DescriptionTooLong)
    + (if r.quantity < 1 then [QuantityTooSmall] else [])
    + NoteError(r.rejectionReason, RejectionReasonTooLong)
    + NoteError(r.adminNotes, AdminNotesTooLong)
  }

  /**
   * Every message of a failed save is one of the schema's, and a bad organ name is
   * reported first, since `organName` is the first path the schema declares.
   */
  lemma SchemaErrorsMessages(r: DonationRequest)
    ensures Reportable(SchemaErrors(r))
    ensures !(2 <= Utf16Length(r.organName) <= 100) ==>
              SchemaErrors(r) != [] && SchemaErrors(r)[0] in {OrganNameRequired, OrganNameTooShort, OrganNameTooLong}
  {
    var name := LengthError(r.organName, 2, 100, OrganNameRequired, OrganNameTooShort, OrganNameTooLong);
    var images := ImageErrors(r.images);
    var pin := PinCodeError(r.pinCode);
    var description := LengthError(r.description, 10, 1000, DescriptionRequired, DescriptionTooShort, DescriptionTooLong);
    var quantity := if r.quantity < 1 then [QuantityTooSmall] else [];
    var rejection := NoteError(r.rejectionReason, RejectionReasonTooLong);
    var notes := NoteError(r.adminNotes, AdminNotesTooLong);
    ReportableConcat(name, images);
    ReportableConcat(name + images, pin);
    ReportableConcat(name + images + pin, description);
    ReportableConcat(name + images + pin + description, quantity);
    ReportableConcat(name + images + pin + description + quantity, rejection);
    ReportableConcat(name + images + pin + description + quantity + rejection, notes);
  }

  /** A save succeeds exactly when every constraint holds. */
  lemma ValidIffNoErrors(r: DonationRequest)
    ensures Valid(r) <==> SchemaErrors(r) == []
  {
  }

  /**
   * `new DonationRequest({...})`: the schema trims `organName` and applies the defaults
   * (`quantity` 1, `status` Pending); none of the review fields is set yet.
   */
  function NewRequest(id: RequestId, organName: string, category: CategoryId, images: seq<string>,
                      pinCode: Option<int>, description: string, quantity: Option<int>,
                      requestedBy: Auth.UserId, createdAt: nat): (r: DonationRequest)
    ensures r.status == Pending && r.quantity == quantity.GetOr(1)
    ensures r.organName == Trim(organName) && r.description == description
    ensures r.rejectionReason.None? && r.adminNotes.None? && r.approvedBy.None? && r.approvedAt.None?
  {
    DonationRequest(id, Trim(organName), category, images, pinCode, description,
                    quantity.GetOr(1), Pending, requestedBy, None, None, None, None, createdAt)
  }

  /** A new record passes validation exactly when the given values meet the constraints. */
  lemma NewRequestValid(id: RequestId, organName: string, category: CategoryId, images: seq<string>,
                        pinCode: Option<int>, description: string, quantity: Option<int>,
                        requestedBy: Auth.UserId, createdAt: nat)
    ensures var r := NewRequest(id, organName, category, images, pinCode, description, quantity, requestedBy, createdAt);
            Valid(r) <==>
              && 2 <= Utf16Length(Trim(organName)) <= 100
              && (forall i :: 0 <= i < |images| ==> images[i] != "")
              && pinCode.Some? && 100000 <= pinCode.value <= 999999
              && 10 <= Utf16Length(description) <= 1000
              && (quantity.None? || quantity.value >= 1)
  {
  }

  /**
   * One character outside the Basic Multilingual Plane has `length` 2, so it meets the
   * organ name's `minlength` of 2 on its own.
   */
  lemma AstralOrganNameLength()
    ensures LengthError("\U{1FAC0}", 2, 100, OrganNameRequired, OrganNameTooShort, OrganNameTooLong) == []
    ensures |"\U{1FAC0}"| == 1
  {
    assert Utf16Length("\U{1FAC0}") == 2;
  }

  /** The stored status strings are distinct, so a status filter selects exactly one status. */
  lemma StatusNameInjective(a: Status, b: Status)
    ensures a.Name() == b.Name() <==> a == b
  {
  }
}
