/**
 * The client-side check `validateForm` of the donation-request form
 * (client/src/components/shop/donationRequest/DonationRequestForm.jsx): every field is
 * checked on its own, each failing field gets one message under its own key, and the
 * form may be submitted exactly when no key was set.
 */
module DonationRequestForm {
  import opened Strings

  /**
   * What the quantity input holds, as JavaScript sees it: the empty string, a value that
   * converts to a number, or text that converts to NaN (which is not `< 1`).
   */
  datatype Quantity = Empty | Numeric(value: real) | NotANumber

  /** The form state; every field but `images` is the text of an input. */
  datatype FormData = FormData(
    organName: string,
    category: string,
    images: seq<string>,
    pinCode: string,
    description: string,
    quantity: Quantity)

  /** The keys of `newErrors`, one per form field. */
  datatype Field = OrganNameKey | CategoryKey | ImagesKey | PinCodeKey | DescriptionKey | QuantityKey {
    /** The key as the errors object spells it. */
    function Name(): string {
      match this
      case OrganNameKey => "organName"
      case CategoryKey => "category"
      case ImagesKey => "images"
      case PinCodeKey => "pinCode"
      case DescriptionKey => "description"
      case QuantityKey => "quantity"
    }
  }

  const OrganNameRequired := "Organ name is required"
  const CategoryRequired := "Category is required"
  const ImageRequired := "At least one image is required"
  const PinCodeInvalid := "Valid 6-digit pin code is required"
  const DescriptionTooShort := "Description must be at least 10 characters"
  const QuantityTooSmall := "Quantity must be at least 1"

  /** The initial state of the form: empty texts, no images, quantity 1. */
  function InitialForm(): (f: FormData)
    ensures f.organName == "" && f.category == "" && f.images == [] && f.pinCode == ""
    ensures f.description == "" && f.quantity == Numeric(1.0)
  {
    FormData("", "", [], "", "", Numeric(1.0))
  }

  /** `!formData.quantity || formData.quantity < 1` */
  predicate BadQuantity(q: Quantity) {
    q.Empty? || (q.Numeric? && q.value < 1.0)
  }

  /** The field named `key` fails its check: the reference statement of each condition. */
  predicate Fails(f: FormData, key: Field) {
    || (key == OrganNameKey && Trim(f.organName) == "")
    || (key == CategoryKey && f.category == "")
    || (key == ImagesKey && |f.images| == 0)
    || (key == PinCodeKey && (f.pinCode == "" || Utf16Length(f.pinCode) != 6))
    || (key == DescriptionKey && (Trim(f.description) == "" || Utf16Length(f.description) < 10))
    || (key == QuantityKey && BadQuantity(f.quantity))
  }

  /** The message each key carries. */
  function Message(key: Field): string {
    match key
    case OrganNameKey => OrganNameRequired
    case CategoryKey => CategoryRequired
    case ImagesKey => ImageRequired
    case PinCodeKey => PinCodeInvalid
    case DescriptionKey => DescriptionTooShort
    case QuantityKey => QuantityTooSmall
  }

  /** The place of each key in the order `validateForm` checks the fields. */
  function Rank(key: Field): nat {
    match key
    case OrganNameKey => 0
    case CategoryKey => 1
    case ImagesKey => 2
    case PinCodeKey => 3
    case DescriptionKey => 4
    case QuantityKey => 5
  }

  /** Every key set so far carries its own message. */
  predicate Messages(m: map<Field, string>) {
    forall key :: key in m ==> m[key] == Message(key)
  }

  /** After the first `n` checks, `m` holds exactly the failing keys among them, each with its message. */
  predicate Reported(f: FormData, m: map<Field, string>, n: nat) {
    && (forall key :: key in m <==> Rank(key) < n && Fails(f, key))
    && Messages(m)
  }

  /** One check of `validateForm`: a failing field adds its key, a passing one leaves `m` alone. */
  lemma Step(f: FormData, m: map<Field, string>, m': map<Field, string>, key: Field)
    requires Reported(f, m, Rank(key))
    requires m' == if Fails(f, key) then m[key := Message(key)] else m
    ensures Reported(f, m', Rank(key) + 1)
  {
  }

  /** Once all six checks ran, `m` holds exactly the failing keys. */
  lemma AllChecked(f: FormData, m: map<Field, string>)
    requires Reported(f, m, Rank(QuantityKey) + 1)
    ensures forall key :: key in m <==> Fails(f, key)
  {
    forall key ensures Rank(key) < Rank(QuantityKey) + 1 {
    }
  }

  /** `validateForm`: fills `newErrors` by successive checks, then tests its key count. */
  method ValidateForm(f: FormData) returns (newErrors: map<Field, string>, valid: bool)
    ensures forall key :: key in newErrors <==> Fails(f, key)
    ensures Messages(newErrors)
    ensures valid <==> |newErrors| == 0
  {
    newErrors := map[];
    ghost var before := newErrors;
    if Trim(f.organName) == "" {
      newErrors := newErrors[OrganNameKey := OrganNameRequired];
    }
    Step(f, before, newErrors, OrganNameKey);
    before := newErrors;
    if f.category == "" {
      newErrors := newErrors[CategoryKey := CategoryRequired];
    }
    Step(f, before, newErrors, CategoryKey);
    before := newErrors;
    if |f.images| == 0 {
      newErrors := newErrors[ImagesKey := ImageRequired];
    }
    Step(f, before, newErrors, ImagesKey);
    before := newErrors;
    if f.pinCode == "" || Utf16Length(f.pinCode) != 6 {
      newErrors := newErrors[PinCodeKey := PinCodeInvalid];
    }
    Step(f, before, newErrors, PinCodeKey);
    before := newErrors;
    if Trim(f.description) == "" || Utf16Length(f.description) < 10 {
      newErrors := newErrors[DescriptionKey := DescriptionTooShort];
    }
    Step(f, before, newErrors, DescriptionKey);
    before := newErrors;
    if BadQuantity(f.quantity) {
      newErrors := newErrors[QuantityKey := QuantityTooSmall];
    }
    Step(f, before, newErrors, QuantityKey);
    AllChecked(f, newErrors);
    valid := |newErrors| == 0;
  }

  /** The form is valid exactly when every field passes its own check. */
  predicate FormValid(f: FormData) {
    && Trim(f.organName) != ""
    && f.category != ""
    && |f.images| > 0
    && Utf16Length(f.pinCode) == 6
    && Trim(f.description) != "" && Utf16Length(f.description) >= 10
    && !BadQuantity(f.quantity)
  }

  /** No field fails exactly when the form is valid. */
  lemma NoFailureIffValid(f: FormData)
    ensures (forall key :: !Fails(f, key)) <==> FormValid(f)
  {
    if !FormValid(f) {
      if Trim(f.organName) == "" { assert Fails(f, OrganNameKey); }
      else if f.category == "" { assert Fails(f, CategoryKey); }
      else if |f.images| == 0 { assert Fails(f, ImagesKey); }
      else if Utf16Length(f.pinCode) != 6 { assert Fails(f, PinCodeKey); }
      else if Trim(f.description) == "" || Utf16Length(f.description) < 10 { assert Fails(f, DescriptionKey); }
      else { assert Fails(f, QuantityKey); }
    }
  }

  /** The initial form reports five errors; only its quantity passes. */
  lemma InitialFormErrors()
    ensures Fails(InitialForm(), OrganNameKey) && Fails(InitialForm(), CategoryKey)
    ensures Fails(InitialForm(), ImagesKey) && Fails(InitialForm(), PinCodeKey)
    ensures Fails(InitialForm(), DescriptionKey) && !Fails(InitialForm(), QuantityKey)
  {
    assert AllSpace("");
  }

  /** The pin-code check looks at the length only: any six characters pass, digits or not. */
  lemma PinCodeLengthOnly(f: FormData)
    requires Utf16Length(f.pinCode) == 6
    ensures !Fails(f, PinCodeKey)
  {
  }

  /** A quantity that is not a number passes the check, since NaN is not below 1. */
  lemma NotANumberQuantityPasses(f: FormData)
    requires f.quantity == NotANumber
    ensures !Fails(f, QuantityKey)
  {
  }

  /**
   * The description length is measured before trimming: a leading space followed by nine
   * code units of text passes the form, although the trimmed description the server
   * stores is shorter than 10.
   */
  lemma UntrimmedDescriptionPasses(f: FormData, text: string)
    requires f.description == " " + text && Utf16Length(text) == 9 && !AllSpace(text)
    ensures !Fails(f, DescriptionKey)
    ensures Utf16Length(Trim(f.description)) < 10
  {
    var d := f.description;
    assert d[1..] == text;
    assert Utf16Length(d) == 10;
    assert Trim(d) == Trim(text);
    TrimUtf16Length(text);
    AllSpaceConcat(" ", text);
  }
}
