/** Property listings: the record, the seller's create and edit forms with
    the lock on Sold listings, and the administrator's approve, reject and
    unrestricted edit. Each operation works on the `Properties` table and
    reports which branch of the controller action it took. */
module Listings {
  import opened Wrappers
  import opened Text
  import opened Seqs

  datatype PropertyType = Apartment | House | Commercial | Land
  datatype PropertyStatus = Available | UnderNegotiation | Sold | Rented | Removed
  datatype ApprovalStatus = Pending | InReview | Approved | Rejected

  /** The fields a seller fills in; prices are in cents. Every text field
      is required on both the seller's and the administrator's form, so an
      accepted form never carries an absent one. */
  datatype Details = Details(
    title: string,
    description: string,
    propertyType: PropertyType,
    price: int,
    address: string,
    city: string,
    area: string,
    state: string,
    zipCode: string,
    bedrooms: Option<int>,
    bathrooms: Option<int>,
    areaSqft: int)

  /** A listing. `commissionRatePercent` is the integer column the
      commission migration adds with default 0; no form sets it. */
  datatype Property = Property(
    id: nat,
    sellerId: nat,
    details: Details,
    yearBuilt: Option<int>,
    status: PropertyStatus,
    approval: ApprovalStatus,
    isFeatured: bool,
    created: int,
    updated: Option<int>,
    commissionRatePercent: int)

  // ---------------------------------------------------------------------
  // Form validation (data annotations on the view models)
  // ---------------------------------------------------------------------

  /** `[Required]` on a string: not null, empty or white space only. */
  predicate Required(s: string) {
    !IsBlank(s)
  }

  /** `[MaxLength(n)]`. */
  predicate MaxLength(s: string, n: nat) {
    |s| <= n
  }

  /** The seller create and edit forms: every text field is required,
      lengths are bounded and the price lies in `[0, double.MaxValue]`. */
  predicate SellerFormValid(d: Details) {
    && Required(d.title) && MaxLength(d.title, 200)
    && Required(d.description)
    && Required(d.address) && MaxLength(d.address, 250)
    && Required(d.city) && MaxLength(d.city, 100)
    && Required(d.area) && MaxLength(d.area, 100)
    && Required(d.state) && MaxLength(d.state, 100)
    && Required(d.zipCode) && MaxLength(d.zipCode, 20)
    && d.price >= 0
  }

  /** The administrator's edit form. */
  datatype AdminForm = AdminForm(
    id: int,
    details: Details,
    yearBuilt: Option<int>,
    status: PropertyStatus,
    approval: ApprovalStatus,
    isFeatured: bool)

  /** The administrator's form: the title is marked required, and the
      description, address, city, area, state and zip code are
      non-nullable strings, which model validation treats as required as
      well; the length limits and the price range are the seller's. So the
      administrator's form accepts exactly what the seller's form does. */
  predicate AdminFormValid(f: AdminForm) {
    SellerFormValid(f.details)
  }

  // ---------------------------------------------------------------------
  // Lookups
  // ---------------------------------------------------------------------

  /** `FirstOrDefault(p => p.PropertyId == id)`. */
  function FindProperty(props: seq<Property>, id: int): (r: Option<nat>)
    ensures r.Some? ==> r.value < |props| && props[r.value].id == id
    ensures r.None? <==> forall k :: 0 <= k < |props| ==> props[k].id != id
  {
    FirstIndex(props, (p: Property) => p.id == id)
  }

  /** `FirstOrDefault(p => p.PropertyId == id && p.SellerId == sellerId)`. */
  function FindOwned(props: seq<Property>, sellerId: nat, id: int): (r: Option<nat>)
    ensures r.Some? ==> r.value < |props| && props[r.value].id == id && props[r.value].sellerId == sellerId
    ensures r.None? <==> forall k :: 0 <= k < |props| ==> !(props[k].id == id && props[k].sellerId == sellerId)
  {
    FirstIndex(props, (p: Property) => p.id == id && p.sellerId == sellerId)
  }

  /** Listing ids are distinct (the primary key). */
  predicate UniqueIds(props: seq<Property>) {
    forall i, j :: 0 <= i < j < |props| ==> props[i].id != props[j].id
  }

  // ---------------------------------------------------------------------
  // Seller actions
  // ---------------------------------------------------------------------

  /** `Create` (POST): a valid form becomes a new listing that waits for
      approval; an invalid form is shown again and nothing is created. */
  function Create(sellerId: nat, id: nat, d: Details, now: int): (r: Option<Property>)
    ensures r.Some? <==> SellerFormValid(d)
    ensures r.Some? ==> r.value.id == id && r.value.sellerId == sellerId && r.value.details == d
    ensures r.Some? ==> r.value.status == Available && r.value.approval == Pending
    ensures r.Some? ==> !IsActive(r.value) && !r.value.isFeatured && r.value.details.price >= 0
  {
    if !SellerFormValid(d) then None
    else Some(Property(id, sellerId, d, None, Available, Pending, false, now, None, 0))
  }

  /** Which branch a seller's edit request takes. */
  datatype EditOutcome = EditInvalid | EditNotFound | EditLocked | Edited

  /** `Edit` (GET): the form is offered only for the seller's own listing,
      and never once it is Sold. */
  function EditGate(props: seq<Property>, sellerId: nat, id: int): (r: EditOutcome)
    ensures r == Edited <==> exists k :: 0 <= k < |props| && props[k].id == id && props[k].sellerId == sellerId && FindOwned(props, sellerId, id) == Some(k) && props[k].status != Sold
    ensures r != EditInvalid
  {
    match FindOwned(props, sellerId, id)
    case None => EditNotFound
    case Some(k) => if props[k].status == Sold then EditLocked else Edited
  }

  /** `Edit` (POST): copies the form's fields into the seller's own listing
      and stamps `UpdatedDate`, unless the form is invalid, the listing is
      not the seller's, or it is Sold. */
  function SellerEdit(props: seq<Property>, sellerId: nat, id: int, d: Details, now: int)
    : (r: (EditOutcome, seq<Property>))
    ensures r.0 != Edited ==> r.1 == props
    ensures r.0 == Edited <==> SellerFormValid(d) && EditGate(props, sellerId, id) == Edited
    ensures r.0 == Edited ==>
      var k := FindOwned(props, sellerId, id).value;
      && |r.1| == |props|
      && r.1[k] == props[k].(details := d, updated := Some(now))
      && (forall j :: 0 <= j < |props| && j != k ==> r.1[j] == props[j])
  {
    if !SellerFormValid(d) then (EditInvalid, props)
    else match FindOwned(props, sellerId, id)
      case None => (EditNotFound, props)
      case Some(k) =>
        if props[k].status == Sold then (EditLocked, props)
        else (Edited, props[k := props[k].(details := d, updated := Some(now))])
  }

  // ---------------------------------------------------------------------
  // Administrator actions
  // ---------------------------------------------------------------------

  /** `Approve`: the listing becomes Approved and Available, whatever its
      previous status; an unknown id changes nothing. */
  function AdminApprove(props: seq<Property>, id: int): (r: Option<seq<Property>>)
    ensures r.None? <==> FindProperty(props, id).None?
    ensures r.Some? ==>
      var k := FindProperty(props, id).value;
      && |r.value| == |props|
      && r.value[k] == props[k].(approval := Approved, status := Available)
      && IsActive(r.value[k])
      && (forall j :: 0 <= j < |props| && j != k ==> r.value[j] == props[j])
  {
    match FindProperty(props, id)
    case None => None
    case Some(k) => Some(props[k := props[k].(approval := Approved, status := Available)])
  }

  /** `Reject`: only the approval status changes. */
  function AdminReject(props: seq<Property>, id: int): (r: Option<seq<Property>>)
    ensures r.None? <==> FindProperty(props, id).None?
    ensures r.Some? ==>
      var k := FindProperty(props, id).value;
      && |r.value| == |props|
      && r.value[k] == props[k].(approval := Rejected)
      && r.value[k].status == props[k].status
      && !IsActive(r.value[k])
      && (forall j :: 0 <= j < |props| && j != k ==> r.value[j] == props[j])
  {
    match FindProperty(props, id)
    case None => None
    case Some(k) => Some(props[k := props[k].(approval := Rejected)])
  }

  datatype AdminEditOutcome = BadRequest | AdminInvalid | AdminNotFound | AdminEdited

  /** `Edit` (POST) for the administrator: every editable field, Status and
      ApprovalStatus included, is copied with no transition check. */
  function AdminEdit(props: seq<Property>, routeId: int, f: AdminForm, now: int)
    : (r: (AdminEditOutcome, seq<Property>))
    ensures r.0 != AdminEdited ==> r.1 == props
    ensures r.0 == BadRequest <==> routeId != f.id
    ensures r.0 == AdminEdited <==> routeId == f.id && AdminFormValid(f) && FindProperty(props, routeId).Some?
    ensures r.0 == AdminEdited ==>
      var k := FindProperty(props, routeId).value;
      && |r.1| == |props|
      && r.1[k].id == props[k].id && r.1[k].sellerId == props[k].sellerId
      && r.1[k].details == f.details && r.1[k].yearBuilt == f.yearBuilt
      && r.1[k].status == f.status && r.1[k].approval == f.approval
      && r.1[k].isFeatured == f.isFeatured && r.1[k].updated == Some(now)
      && r.1[k].created == props[k].created
      && r.1[k].commissionRatePercent == props[k].commissionRatePercent
      && (forall j :: 0 <= j < |props| && j != k ==> r.1[j] == props[j])
  {
    if routeId != f.id then (BadRequest, props)
    else if !AdminFormValid(f) then (AdminInvalid, props)
    else match FindProperty(props, routeId)
      case None => (AdminNotFound, props)
      case Some(k) =>
        var p := props[k].(details := f.details, yearBuilt := f.yearBuilt, status := f.status,
                           approval := f.approval, isFeatured := f.isFeatured, updated := Some(now));
        (AdminEdited, props[k := p])
  }

  /** A blank description, address, city, area, state or zip code makes
      the administrator's form invalid, and nothing changes. */
  lemma AdminEditRefusesBlankText(props: seq<Property>, routeId: int, f: AdminForm, now: int)
    requires || IsBlank(f.details.description) || IsBlank(f.details.address) || IsBlank(f.details.city)
             || IsBlank(f.details.area) || IsBlank(f.details.state) || IsBlank(f.details.zipCode)
    ensures AdminEdit(props, routeId, f, now).0 != AdminEdited
    ensures AdminEdit(props, routeId, f, now).1 == props
  {
  }

  // ---------------------------------------------------------------------
  // Active listings
  // ---------------------------------------------------------------------

  /** A listing buyers can see: Available and Approved. */
  predicate IsActive(p: Property) {
    p.status == Available && p.approval == Approved
  }

  predicate NewerOrSame(a: Property, b: Property) {
    a.created >= b.created
  }

  /** `ActiveListings`: the active listings, newest first. */
  function ActiveListings(props: seq<Property>): (r: seq<Property>)
    ensures forall p :: p in r <==> p in props && IsActive(p)
    ensures multiset(r) == multiset(Filter(props, IsActive))
    ensures SortedBy(r, NewerOrSame)
  {
    var active := Filter(props, IsActive);
    forall p ensures p in active <==> p in props && IsActive(p) {
      FilterMembers(props, IsActive, p);
    }
    var r := Sort(active, NewerOrSame);
    assert forall p :: p in r <==> p in multiset(r);
    assert forall p :: p in active <==> p in multiset(active);
    r
  }
}
