/**
 * The admin dashboard state of client/src/components/admin/dashboardAdmin/DashboardContext.js:
 * the initial `dashboardState` and `dashboardReducer`, which answers each known action by
 * a copy of the state with one field replaced by the payload.
 */
module DashboardContext {

  /** The four counters of the dashboard cards. */
  datatype TotalData = TotalData(users: int, orders: int, products: int, categories: int)

  /** `totalOrders`: the recent orders the dashboard lists. */
  datatype TotalOrders = TotalOrders(orders: seq<string>)

  datatype DashboardState = DashboardState(
    totalData: TotalData,
    totalOrders: TotalOrders,
    uploadSliderBtn: bool,
    imageUpload: bool,
    sliderImages: seq<string>)

  /** The five action types the reducer knows, each with its payload, and any other type. */
  datatype Action =
    | SetTotalData(totalData: TotalData)
    | SetTotalOrders(totalOrders: TotalOrders)
    | SetUploadSliderBtn(uploadSliderBtn: bool)
    | SetImageUpload(imageUpload: bool)
    | SetSliderImages(sliderImages: seq<string>)
    | Other(actionType: string)

  /** The field an action writes, for the known types. */
  datatype Field = TotalDataField | TotalOrdersField | UploadSliderBtnField | ImageUploadField | SliderImagesField

  function Target(a: Action): Field
    requires !a.Other?
  {
    match a
    case SetTotalData(_) => TotalDataField
    case SetTotalOrders(_) => TotalOrdersField
    case SetUploadSliderBtn(_) => UploadSliderBtnField
    case SetImageUpload(_) => ImageUploadField
    case SetSliderImages(_) => SliderImagesField
  }

  /** `dashboardState`: every counter 0, no orders, upload hidden, no slider images. */
  function InitialState(): (s: DashboardState)
    ensures s.totalData == TotalData(0, 0, 0, 0)
    ensures s.totalOrders.orders == []
    ensures !s.uploadSliderBtn && !s.imageUpload
    ensures s.sliderImages == []
  {
    DashboardState(TotalData(0, 0, 0, 0), TotalOrders([]), false, false, [])
  }

  /** Whether two states agree on one field. */
  predicate SameField(s: DashboardState, t: DashboardState, f: Field) {
    match f
    case TotalDataField => s.totalData == t.totalData
    case TotalOrdersField => s.totalOrders == t.totalOrders
    case UploadSliderBtnField => s.uploadSliderBtn == t.uploadSliderBtn
    case ImageUploadField => s.imageUpload == t.imageUpload
    case SliderImagesField => s.sliderImages == t.sliderImages
  }

  /** The state after `action` agrees with a state that already holds its payload, on its own field. */
  predicate HoldsPayload(s: DashboardState, action: Action)
    requires !action.Other?
  {
    match action
    case SetTotalData(p) => s.totalData == p
    case SetTotalOrders(p) => s.totalOrders == p
    case SetUploadSliderBtn(p) => s.uploadSliderBtn == p
    case SetImageUpload(p) => s.imageUpload == p
    case SetSliderImages(p) => s.sliderImages == p
  }

  /**
   * `dashboardReducer(state, action)`: a known action puts its payload in its own field and
   * leaves every other field as it was; the default case returns the state itself.
   */
  function Reduce(state: DashboardState, action: Action): (r: DashboardState)
    ensures !action.Other? ==> HoldsPayload(r, action)
    ensures !action.Other? ==> forall f :: f != Target(action) ==> SameField(r, state, f)
    ensures action.Other? ==> r == state
  {
    match action
    case SetTotalData(p) => state.(totalData := p)
    case SetTotalOrders(p) => state.(totalOrders := p)
    case SetUploadSliderBtn(p) => state.(uploadSliderBtn := p)
    case SetImageUpload(p) => state.(imageUpload := p)
    case SetSliderImages(p) => state.(sliderImages := p)
    case Other(_) => state
  }

  /** Dispatching the same action twice is dispatching it once. */
  lemma ReduceIdempotent(state: DashboardState, action: Action)
    ensures Reduce(Reduce(state, action), action) == Reduce(state, action)
  {
  }

  /** Of two actions on the same field, the later one wins. */
  lemma LaterActionWins(state: DashboardState, a: Action, b: Action)
    requires !a.Other? && !b.Other? && Target(a) == Target(b)
    ensures Reduce(Reduce(state, a), b) == Reduce(state, b)
  {
  }

  /** Actions on different fields may be dispatched in either order. */
  lemma DistinctFieldsCommute(state: DashboardState, a: Action, b: Action)
    requires !a.Other? && !b.Other? && Target(a) != Target(b)
    ensures Reduce(Reduce(state, a), b) == Reduce(Reduce(state, b), a)
  {
  }

  /** A state holds an action's payload exactly when reducing it by the action changes nothing. */
  lemma FixedPointIffHolds(state: DashboardState, action: Action)
    requires !action.Other?
    ensures Reduce(state, action) == state <==> HoldsPayload(state, action)
  {
  }
}
