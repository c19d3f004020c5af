/** The database as a whole: the tables the core touches, the two seller
    actions that span several tables (`MarkAsSold` and `Delete`), every
    operation as one atomic step, and the invariant the keys and the
    commission rules keep across all of them. */
module Store {
  import opened Wrappers
  import opened Seqs
  import opened Money
  import opened Invoices
  import Text
  import Listings
  import Images
  import Wishlists
  import Appointments
  import Gateway
  import ManualPayment

  datatype Db = Db(
    properties: seq<Listings.Property>,
    images: seq<Images.Image>,
    invoices: seq<Invoice>,
    wishlist: seq<Wishlists.Entry>,
    appointments: seq<Appointments.Appointment>)

  function PropertyKey(p: Listings.Property): nat { p.id }
  function InvoiceKey(i: Invoice): nat { i.id }
  function AppointmentKey(a: Appointments.Appointment): nat { a.id }

  // ---------------------------------------------------------------------
  // The invariant
  // ---------------------------------------------------------------------

  /** Listing ids are distinct and prices are never negative. */
  predicate PropertiesOk(props: seq<Listings.Property>) {
    && Listings.UniqueIds(props)
    && forall i :: 0 <= i < |props| ==> props[i].details.price >= 0
  }

  /** An invoice's gateway transaction id is empty or names the invoice. */
  predicate TranOk(inv: Invoice) {
    inv.gatewayTranId == "" || Gateway.TranInvoiceId(inv.gatewayTranId) == Some(inv.id)
  }

  /** Invoice ids are distinct, a listing has at most one invoice (the
      unique index), and every invoice is priced and names itself in its
      transaction id. */
  predicate InvoicesOk(invs: seq<Invoice>) {
    && (forall i, j :: 0 <= i < j < |invs| ==> invs[i].id != invs[j].id)
    && (forall i, j :: 0 <= i < j < |invs| ==> invs[i].propertyId != invs[j].propertyId)
    && (forall i :: 0 <= i < |invs| ==> Priced(invs[i]) && TranOk(invs[i]))
  }

  /** The ids of the stored listings. */
  function Ids(props: seq<Listings.Property>): set<nat> {
    set k | 0 <= k < |props| :: props[k].id
  }

  /** The (listing, seller) pairs of the stored listings. */
  function Owners(props: seq<Listings.Property>): set<(nat, nat)> {
    set k | 0 <= k < |props| :: (props[k].id, props[k].sellerId)
  }

  /** Every invoice belongs to a stored listing of the same seller. */
  predicate InvoiceRefsOk(invs: seq<Invoice>, props: seq<Listings.Property>) {
    forall i :: 0 <= i < |invs| ==> (invs[i].propertyId, invs[i].sellerId) in Owners(props)
  }

  /** Every visit is to a stored listing. */
  predicate AppointmentRefsOk(appts: seq<Appointments.Appointment>, props: seq<Listings.Property>) {
    forall i :: 0 <= i < |appts| ==> appts[i].propertyId in Ids(props)
  }

  /** Every photo belongs to a stored listing. */
  predicate ImageRefsOk(images: seq<Images.Image>, props: seq<Listings.Property>) {
    forall i :: 0 <= i < |images| ==> images[i].propertyId in Ids(props)
  }

  /** Every wishlist row is for a stored listing. */
  predicate WishlistRefsOk(ws: seq<Wishlists.Entry>, props: seq<Listings.Property>) {
    forall i :: 0 <= i < |ws| ==> ws[i].propertyId in Ids(props)
  }

  predicate WellFormed(db: Db) {
    && PropertiesOk(db.properties)
    && InvoicesOk(db.invoices)
    && InvoiceRefsOk(db.invoices, db.properties)
    && AppointmentRefsOk(db.appointments, db.properties)
    && ImageRefsOk(db.images, db.properties)
    && WishlistRefsOk(db.wishlist, db.properties)
  }

  /** The empty database. */
  lemma EmptyIsWellFormed()
    ensures WellFormed(Db([], [], [], [], []))
  {
  }

  /** A transaction id found on an invoice names that invoice, so the
      callbacks act on the invoice the session was started for. */
  lemma TranIdNamesItsInvoice(invs: seq<Invoice>, tranId: string)
    requires InvoicesOk(invs) && tranId != ""
    requires FindByTranId(invs, tranId).Some?
    ensures Gateway.TranInvoiceId(tranId) == Some(invs[FindByTranId(invs, tranId).value].id)
  {
    var k := FindByTranId(invs, tranId).value;
    assert TranOk(invs[k]);
  }

  /** Two tables of listings with the same ids and sellers, row by row. */
  predicate SameKeys(a: seq<Listings.Property>, b: seq<Listings.Property>) {
    |a| == |b| && forall j :: 0 <= j < |a| ==> a[j].id == b[j].id && a[j].sellerId == b[j].sellerId
  }

  lemma SameKeysSameIds(a: seq<Listings.Property>, b: seq<Listings.Property>)
    requires SameKeys(a, b)
    ensures Ids(a) == Ids(b) && Owners(a) == Owners(b)
  {
    forall x | x in Ids(a) ensures x in Ids(b) {
      var k :| 0 <= k < |a| && a[k].id == x;
      assert b[k].id == x;
    }
    forall x | x in Ids(b) ensures x in Ids(a) {
      var k :| 0 <= k < |b| && b[k].id == x;
      assert a[k].id == x;
    }
    forall x | x in Owners(a) ensures x in Owners(b) {
      var k :| 0 <= k < |a| && (a[k].id, a[k].sellerId) == x;
      assert (b[k].id, b[k].sellerId) == x;
    }
    forall x | x in Owners(b) ensures x in Owners(a) {
      var k :| 0 <= k < |b| && (b[k].id, b[k].sellerId) == x;
      assert (a[k].id, a[k].sellerId) == x;
    }
  }

  /** References survive any change to listings that keeps their keys. */
  lemma SameKeysKeepRefs(db: Db, props: seq<Listings.Property>)
    requires WellFormed(db) && SameKeys(db.properties, props)
    requires forall i :: 0 <= i < |props| ==> props[i].details.price >= 0
    ensures WellFormed(db.(properties := props))
  {
    SameKeysSameIds(db.properties, props);
    forall i, j | 0 <= i < j < |props| ensures props[i].id != props[j].id {
      assert db.properties[i].id != db.properties[j].id;
    }
  }

  /** Rewriting one invoice keeps the invariant when the rewrite keeps its
      identity, its pricing and its transaction id honest. */
  lemma UpdateInvoiceKeeps(db: Db, k: nat, x: Invoice)
    requires WellFormed(db) && k < |db.invoices|
    requires SameIdentity(db.invoices[k], x) && Priced(x) && TranOk(x)
    ensures WellFormed(db.(invoices := db.invoices[k := x]))
  {
    var invs := db.invoices;
    var r := invs[k := x];
    forall i | 0 <= i < |r| ensures (r[i].propertyId, r[i].sellerId) in Owners(db.properties) {
      assert r[i].propertyId == invs[i].propertyId && r[i].sellerId == invs[i].sellerId;
    }
    forall i, j | 0 <= i < j < |r| ensures r[i].id != r[j].id && r[i].propertyId != r[j].propertyId {
      assert r[i].id == invs[i].id && r[j].id == invs[j].id;
    }
  }

  // ---------------------------------------------------------------------
  // MarkAsSold
  // ---------------------------------------------------------------------

  /** The invoice `MarkAsSold` creates: unpaid, at the listing's own rate
      when it lies in `[2, 5]` and 2% otherwise, for the listing's price. */
  function SaleInvoice(p: Listings.Property, sellerId: nat, id: nat, now: int): (inv: Invoice)
    requires p.details.price >= 0
    ensures Priced(inv) && TranOk(inv)
    ensures inv.id == id && inv.propertyId == p.id && inv.sellerId == sellerId && inv.created == now
    ensures inv.listingPrice == p.details.price && inv.rate == ClampRate(p.commissionRatePercent)
    ensures inv.status == Unpaid && inv.submitted.None? && inv.verified.None?
    ensures inv.adminNote == "" && inv.transactionId == "" && inv.proofImageUrl == ""
  {
    var rate := ClampRate(p.commissionRatePercent);
    Blank(id, now).(propertyId := p.id, sellerId := sellerId, listingPrice := p.details.price,
                    rate := rate, amount := Commission(p.details.price, rate))
  }

  datatype SaleOutcome = SaleNotFound | NotAvailable | MarkedSold | SaleFailed

  /** `MarkAsSold`: the seller's own Available listing becomes Sold and,
      unless the listing already has one, gets its commission invoice. Both
      writes happen in one transaction: when saving fails (`saveFails`)
      neither is kept. */
  function MarkAsSold(db: Db, sellerId: nat, id: int, now: int, saveFails: bool): (r: (SaleOutcome, Db))
    requires PropertiesOk(db.properties)
    ensures r.0 == SaleNotFound <==> Listings.FindOwned(db.properties, sellerId, id).None?
    ensures r.0 == NotAvailable <==>
      Listings.FindOwned(db.properties, sellerId, id).Some? &&
      db.properties[Listings.FindOwned(db.properties, sellerId, id).value].status != Listings.Available
    ensures r.0 == SaleFailed <==>
      Listings.FindOwned(db.properties, sellerId, id).Some? &&
      db.properties[Listings.FindOwned(db.properties, sellerId, id).value].status == Listings.Available && saveFails
    ensures r.0 != MarkedSold ==> r.1 == db
    ensures r.0 == MarkedSold ==>
      var k := Listings.FindOwned(db.properties, sellerId, id).value;
      var p := db.properties[k];
      && r.1.properties == db.properties[k := p.(status := Listings.Sold, updated := Some(now))]
      && (HasInvoiceFor(db.invoices, p.id) ==> r.1.invoices == db.invoices)
      && (!HasInvoiceFor(db.invoices, p.id) ==>
            r.1.invoices == db.invoices + [SaleInvoice(p, sellerId, NextId(db.invoices, InvoiceKey), now)])
      && r.1.images == db.images && r.1.wishlist == db.wishlist && r.1.appointments == db.appointments
  {
    match Listings.FindOwned(db.properties, sellerId, id)
    case None => (SaleNotFound, db)
    case Some(k) =>
      var p := db.properties[k];
      if p.status != Listings.Available then (NotAvailable, db)
      else if saveFails then (SaleFailed, db)
      else
        var props := db.properties[k := p.(status := Listings.Sold, updated := Some(now))];
        var invs := if HasInvoiceFor(db.invoices, p.id) then db.invoices
                    else db.invoices + [SaleInvoice(p, sellerId, NextId(db.invoices, InvoiceKey), now)];
        (MarkedSold, db.(properties := props, invoices := invs))
  }

  /** Appending an invoice keeps the invariant when it is priced, names
      itself, belongs to a stored listing of its seller and clashes with no
      stored invoice's id or listing. */
  lemma AppendInvoiceKeeps(db: Db, inv: Invoice)
    requires WellFormed(db) && Priced(inv) && TranOk(inv)
    requires (inv.propertyId, inv.sellerId) in Owners(db.properties)
    requires forall i :: 0 <= i < |db.invoices| ==> db.invoices[i].id != inv.id && db.invoices[i].propertyId != inv.propertyId
    ensures WellFormed(db.(invoices := db.invoices + [inv]))
  {
    var invs := db.invoices + [inv];
    assert invs[|db.invoices|] == inv;
    assert forall i :: 0 <= i < |db.invoices| ==> invs[i] == db.invoices[i];
  }

  /** Selling keeps the invariant: the new invoice has a fresh id, is the
      listing's only one, is priced and belongs to the listing's seller. */
  lemma MarkAsSoldKeeps(db: Db, sellerId: nat, id: int, now: int, saveFails: bool)
    requires WellFormed(db)
    ensures WellFormed(MarkAsSold(db, sellerId, id, now, saveFails).1)
  {
    var r := MarkAsSold(db, sellerId, id, now, saveFails);
    if r.0 == MarkedSold {
      var k := Listings.FindOwned(db.properties, sellerId, id).value;
      var p := db.properties[k];
      var props := db.properties[k := p.(status := Listings.Sold, updated := Some(now))];
      SameKeysKeepRefs(db, props);
      var mid := db.(properties := props);
      if !HasInvoiceFor(db.invoices, p.id) {
        var n := NextId(db.invoices, InvoiceKey);
        var inv := SaleInvoice(p, sellerId, n, now);
        forall i | 0 <= i < |db.invoices| ensures db.invoices[i].id != inv.id && db.invoices[i].propertyId != inv.propertyId {
          assert InvoiceKey(db.invoices[i]) < n;
        }
        assert (props[k].id, props[k].sellerId) in Owners(props);
        AppendInvoiceKeeps(mid, inv);
      }
    }
  }

  /** Selling the same listing again never adds a second invoice. */
  lemma SecondSaleAddsNoInvoice(db: Db, sellerId: nat, id: int, t1: int, t2: int, fails: bool)
    requires WellFormed(db)
    requires MarkAsSold(db, sellerId, id, t1, false).0 == MarkedSold
    ensures var once := MarkAsSold(db, sellerId, id, t1, false).1;
      PropertiesOk(once.properties) && MarkAsSold(once, sellerId, id, t2, fails).1.invoices == once.invoices
  {
    MarkAsSoldKeeps(db, sellerId, id, t1, false);
    var once := MarkAsSold(db, sellerId, id, t1, false).1;
    var k := Listings.FindOwned(db.properties, sellerId, id).value;
    var p := db.properties[k];
    if !HasInvoiceFor(db.invoices, p.id) {
      assert once.invoices[|db.invoices|].propertyId == p.id;
    }
    assert HasInvoiceFor(once.invoices, p.id);
    var again := MarkAsSold(once, sellerId, id, t2, fails);
    if again.0 == MarkedSold {
      var k2 := Listings.FindOwned(once.properties, sellerId, id).value;
      assert once.properties[k2].id == p.id;
    }
  }

  // ---------------------------------------------------------------------
  // Delete
  // ---------------------------------------------------------------------

  /** `Any` row of the visits table referring to the listing. */
  predicate HasAppointmentFor(appts: seq<Appointments.Appointment>, propertyId: nat) {
    exists k :: 0 <= k < |appts| && appts[k].propertyId == propertyId
  }

  datatype DeleteOutcome = DeleteNotFound | DeleteRestricted | Deleted

  /** `Delete`: removes the seller's own listing with its wishlist rows and
      photos in one save. Every foreign key restricts deletes, so the save
      fails and nothing is removed while an invoice or a visit refers to
      the listing, or a row of a table outside this model does
      (`referencedElsewhere`: inquiries, offers, analytics, documents). */
  function Delete(db: Db, sellerId: nat, id: int, referencedElsewhere: bool): (r: (DeleteOutcome, Db))
    ensures r.0 == DeleteNotFound <==> Listings.FindOwned(db.properties, sellerId, id).None?
    ensures r.0 == Deleted <==>
      && Listings.FindOwned(db.properties, sellerId, id).Some?
      && !HasInvoiceFor(db.invoices, db.properties[Listings.FindOwned(db.properties, sellerId, id).value].id)
      && !HasAppointmentFor(db.appointments, db.properties[Listings.FindOwned(db.properties, sellerId, id).value].id)
      && !referencedElsewhere
    ensures r.0 != Deleted ==> r.1 == db
    ensures r.0 == Deleted ==>
      var k := Listings.FindOwned(db.properties, sellerId, id).value;
      && r.1.properties == db.properties[..k] + db.properties[k + 1..]
      && (forall e :: e in r.1.wishlist <==> e in db.wishlist && e.propertyId != id)
      && (forall i :: i in r.1.images <==> i in db.images && i.propertyId != id)
      && r.1.invoices == db.invoices && r.1.appointments == db.appointments
  {
    match Listings.FindOwned(db.properties, sellerId, id)
    case None => (DeleteNotFound, db)
    case Some(k) =>
      var p := db.properties[k];
      if HasInvoiceFor(db.invoices, p.id) || HasAppointmentFor(db.appointments, p.id) || referencedElsewhere then
        (DeleteRestricted, db)
      else
        var ws := Filter(db.wishlist, (w: Wishlists.Entry) => w.propertyId != id);
        var imgs := Filter(db.images, (i: Images.Image) => i.propertyId != id);
        forall e ensures e in ws <==> e in db.wishlist && e.propertyId != id {
          FilterMembers(db.wishlist, (w: Wishlists.Entry) => w.propertyId != id, e);
        }
        forall i ensures i in imgs <==> i in db.images && i.propertyId != id {
          FilterMembers(db.images, (i: Images.Image) => i.propertyId != id, i);
        }
        (Deleted, db.(properties := db.properties[..k] + db.properties[k + 1..], wishlist := ws, images := imgs))
  }

  /** Removing the row of a listing removes its id and its owner pair and
      nothing else, since ids are distinct. */
  lemma RemoveRowIds(ps: seq<Listings.Property>, k: nat)
    requires Listings.UniqueIds(ps) && k < |ps|
    ensures var props := ps[..k] + ps[k + 1..];
      && Listings.UniqueIds(props)
      && Ids(props) == Ids(ps) - {ps[k].id}
      && (forall x :: x in Owners(props) <==> x in Owners(ps) && x.0 != ps[k].id)
      && (forall i :: 0 <= i < |props| ==> props[i] == ps[if i < k then i else i + 1])
  {
    var props := ps[..k] + ps[k + 1..];
    assert forall i :: 0 <= i < |props| ==> props[i] == ps[if i < k then i else i + 1];
    forall x | x in Ids(ps) - {ps[k].id} ensures x in Ids(props) {
      var q :| 0 <= q < |ps| && ps[q].id == x;
      assert props[if q < k then q else q - 1] == ps[q];
    }
    forall x | x in Owners(ps) && x.0 != ps[k].id ensures x in Owners(props) {
      var q :| 0 <= q < |ps| && (ps[q].id, ps[q].sellerId) == x;
      assert props[if q < k then q else q - 1] == ps[q];
    }
  }

  /** Rows that do not refer to a removed listing still refer to a stored
      one. */
  lemma RefsAfterRemoval(db: Db, k: nat, images: seq<Images.Image>, wishlist: seq<Wishlists.Entry>)
    requires WellFormed(db) && k < |db.properties|
    requires !HasInvoiceFor(db.invoices, db.properties[k].id)
    requires !HasAppointmentFor(db.appointments, db.properties[k].id)
    requires forall i :: i in images ==> i in db.images && i.propertyId != db.properties[k].id
    requires forall e :: e in wishlist ==> e in db.wishlist && e.propertyId != db.properties[k].id
    ensures WellFormed(db.(properties := db.properties[..k] + db.properties[k + 1..], images := images,
                           wishlist := wishlist))
  {
    var ps := db.properties;
    var props := ps[..k] + ps[k + 1..];
    RemoveRowIds(ps, k);
    forall i | 0 <= i < |props| ensures props[i].details.price >= 0 {
      assert props[i] == ps[if i < k then i else i + 1];
    }
    forall i | 0 <= i < |db.invoices| ensures (db.invoices[i].propertyId, db.invoices[i].sellerId) in Owners(props) {
      assert db.invoices[i].propertyId != ps[k].id;
    }
    forall i | 0 <= i < |db.appointments| ensures db.appointments[i].propertyId in Ids(props) {
      assert db.appointments[i].propertyId != ps[k].id;
    }
    forall i | 0 <= i < |images| ensures images[i].propertyId in Ids(props) {
      assert images[i] in images;
      var t :| 0 <= t < |db.images| && db.images[t] == images[i];
    }
    forall i | 0 <= i < |wishlist| ensures wishlist[i].propertyId in Ids(props) {
      assert wishlist[i] in wishlist;
      var t :| 0 <= t < |db.wishlist| && db.wishlist[t] == wishlist[i];
    }
  }

  /** Deleting keeps the invariant: nothing left refers to the removed
      listing. */
  lemma DeleteKeeps(db: Db, sellerId: nat, id: int, referencedElsewhere: bool)
    requires WellFormed(db)
    ensures WellFormed(Delete(db, sellerId, id, referencedElsewhere).1)
  {
    var r := Delete(db, sellerId, id, referencedElsewhere);
    if r.0 == Deleted {
      var k := Listings.FindOwned(db.properties, sellerId, id).value;
      RefsAfterRemoval(db, k, r.1.images, r.1.wishlist);
      assert r.1 == db.(properties := db.properties[..k] + db.properties[k + 1..], images := r.1.images, wishlist := r.1.wishlist);
    }
  }

  // ---------------------------------------------------------------------
  // Every operation as one step
  // ---------------------------------------------------------------------

  /** The requests the core serves, with the clock, the random parts, the
      gateway's answers and the failures it cannot see as arguments. */
  datatype Op =
    | CreateListing(sellerId: nat, details: Listings.Details, photos: seq<Images.Upload>, now: int)
    | EditListing(sellerId: nat, id: int, details: Listings.Details, photos: seq<Images.Upload>, now: int)
    | SellListing(sellerId: nat, id: int, now: int, saveFails: bool)
    | DeleteListing(sellerId: nat, id: int, referencedElsewhere: bool)
    | ApproveListing(id: int)
    | RejectListing(id: int)
    | AdminEditListing(routeId: int, form: Listings.AdminForm, now: int)
    | StartGatewayPayment(invoiceId: int, guid: string, stamp: string, config: Gateway.GatewayConfig, initReply: Gateway.InitReply)
    | GatewaySuccess(tranId: string, valId: string, reply: Gateway.ValidationReply, now: int)
    | GatewayFail(tranId: string)
    | GatewayCancel(tranId: string)
    | GatewayIpn(tranId: string, valId: string, reply: Gateway.ValidationReply, now: int)
    | SubmitManualPayment(sellerId: nat, payment: ManualPayment.PaymentForm, now: int)
    | ApproveInvoice(id: int, note: string, now: int)
    | RejectInvoice(id: int, note: string, now: int)
    | ToggleWishlist(buyer: Option<nat>, propertyId: int, now: int)
    | BookVisit(buyerId: nat, propertyId: int, date: int, time: Option<int>, message: string, now: int)
    | CancelVisit(buyerId: nat, id: int, now: int)
    | SetVisitStatus(sellerId: nat, id: int, statusCode: int, now: int)

  /** Creating a listing, then storing its photos under its new id. */
  function CreateStep(db: Db, sellerId: nat, d: Listings.Details, photos: seq<Images.Upload>, now: int): (r: Db)
    ensures Listings.SellerFormValid(d) ==> |r.properties| == |db.properties| + 1 && r.properties[..|db.properties|] == db.properties
    ensures !Listings.SellerFormValid(d) ==> r == db
    ensures r.invoices == db.invoices && r.appointments == db.appointments && r.wishlist == db.wishlist
  {
    match Listings.Create(sellerId, NextId(db.properties, PropertyKey), d, now)
    case None => db
    case Some(p) => db.(properties := db.properties + [p], images := Images.SaveUploadedImagesAsWritten(db.images, p.id, photos))
  }

  /** Editing a listing, then storing any new photos. */
  function EditStep(db: Db, sellerId: nat, id: int, d: Listings.Details, photos: seq<Images.Upload>, now: int): (r: Db)
    ensures SameKeys(db.properties, r.properties)
    ensures r.invoices == db.invoices && r.appointments == db.appointments && r.wishlist == db.wishlist
  {
    var (o, props) := Listings.SellerEdit(db.properties, sellerId, id, d, now);
    if o == Listings.Edited then
      var k := Listings.FindOwned(db.properties, sellerId, id).value;
      db.(properties := props, images := Images.SaveUploadedImagesAsWritten(db.images, db.properties[k].id, photos))
    else db
  }

  /** `b` keeps every invoice row of `a` at its place, with the same id,
      listing, seller, price and creation time, and may add rows after
      them. */
  predicate KeepsInvoiceRows(a: seq<Invoice>, b: seq<Invoice>) {
    |a| <= |b| && forall j :: 0 <= j < |a| ==> SameIdentity(a[j], b[j])
  }

  /** A request on the invoice table alone: the gateway's start and
      callbacks, the seller's submission and the administrator's decision.
      None of them adds, removes or re-keys an invoice. */
  function PaymentStep(invs: seq<Invoice>, op: Op): (r: seq<Invoice>)
    ensures |r| == |invs| && KeepsInvoiceRows(invs, r)
  {
    if op.SubmitManualPayment? || op.ApproveInvoice? || op.RejectInvoice? then ManualStep(invs, op)
    else GatewayStep(invs, op)
  }

  /** The gateway's start and its callbacks. */
  function GatewayStep(invs: seq<Invoice>, op: Op): (r: seq<Invoice>)
    ensures |r| == |invs| && KeepsInvoiceRows(invs, r)
  {
    match op
    case StartGatewayPayment(id, guid, stamp, config, reply) => Gateway.Init(invs, id, guid, stamp, config, reply).1
    case GatewaySuccess(t, v, reply, now) => Gateway.Success(invs, t, v, reply, now).1
    case GatewayFail(t) => Gateway.Fail(invs, t)
    case GatewayCancel(t) => Gateway.Cancel(invs, t)
    case GatewayIpn(t, v, reply, now) => Gateway.Ipn(invs, t, v, reply, now)
    case _ => invs
  }

  /** The seller's submission and the administrator's decision. */
  function ManualStep(invs: seq<Invoice>, op: Op): (r: seq<Invoice>)
    ensures |r| == |invs| && KeepsInvoiceRows(invs, r)
  {
    match op
    case SubmitManualPayment(s, f, now) => ManualPayment.SubmitPayment(invs, s, f, now).1
    case ApproveInvoice(id, note, now) => ManualPayment.Approve(invs, id, note, now).1
    case RejectInvoice(id, note, now) => ManualPayment.Reject(invs, id, note, now).1
    case _ => invs
  }

  /** An administrator's request on the listing table: approve, reject or
      edit a listing. */
  function AdminListingStep(ps: seq<Listings.Property>, op: Op): seq<Listings.Property>
  {
    match op
    case ApproveListing(id) => Listings.AdminApprove(ps, id).GetOr(ps)
    case RejectListing(id) => Listings.AdminReject(ps, id).GetOr(ps)
    case AdminEditListing(routeId, f, now) => Listings.AdminEdit(ps, routeId, f, now).1
    case _ => ps
  }

  /** A request on the appointment table: book, cancel or set the status
      of a visit. */
  function VisitStep(db: Db, op: Op): seq<Appointments.Appointment>
  {
    match op
    case BookVisit(b, propertyId, date, time, message, now) =>
      Appointments.BookAsWritten(db.appointments, db.properties, b, propertyId, date, time, message,
                                 NextId(db.appointments, AppointmentKey), now).1
    case CancelVisit(b, id, now) => Appointments.Cancel(db.appointments, b, id, now).1
    case SetVisitStatus(s, id, status, now) => Appointments.UpdateStatus(db.appointments, s, id, status, now).1
    case _ => db.appointments
  }

  /** One request served, as one atomic change of the database. No
      invoice is ever removed or re-keyed; only a sale adds one, and it is
      added Unpaid. */
  function Step(db: Db, op: Op): (r: Db)
    requires PropertiesOk(db.properties)
    ensures KeepsInvoiceRows(db.invoices, r.invoices)
    ensures !op.SellListing? ==> |r.invoices| == |db.invoices|
    ensures forall j :: |db.invoices| <= j < |r.invoices| ==> r.invoices[j].status == Unpaid
  {
    match op
    case CreateListing(s, d, photos, now) => CreateStep(db, s, d, photos, now)
    case EditListing(s, id, d, photos, now) => EditStep(db, s, id, d, photos, now)
    case SellListing(s, id, now, fails) => MarkAsSold(db, s, id, now, fails).1
    case DeleteListing(s, id, elsewhere) => Delete(db, s, id, elsewhere).1
    case ApproveListing(_) | RejectListing(_) | AdminEditListing(_, _, _) =>
      db.(properties := AdminListingStep(db.properties, op))
    case StartGatewayPayment(_, _, _, _, _) | GatewaySuccess(_, _, _, _) | GatewayFail(_) | GatewayCancel(_)
       | GatewayIpn(_, _, _, _) | SubmitManualPayment(_, _, _) | ApproveInvoice(_, _, _) | RejectInvoice(_, _, _) =>
      db.(invoices := PaymentStep(db.invoices, op))
    case ToggleWishlist(buyer, propertyId, now) =>
      db.(wishlist := Wishlists.Toggle(db.wishlist, db.properties, buyer, propertyId, now).1)
    case BookVisit(_, _, _, _, _, _) | CancelVisit(_, _, _) | SetVisitStatus(_, _, _, _) =>
      db.(appointments := VisitStep(db, op))
  }

  // ---------------------------------------------------------------------
  // Every step keeps the invariant
  // ---------------------------------------------------------------------

  /** Appending a listing with a fresh id and a price that is not
      negative keeps the invariant, and adds exactly that id. */
  lemma AppendListingKeeps(db: Db, p: Listings.Property)
    requires WellFormed(db)
    requires forall i :: 0 <= i < |db.properties| ==> db.properties[i].id < p.id
    requires p.details.price >= 0
    ensures WellFormed(db.(properties := db.properties + [p]))
    ensures Ids(db.properties + [p]) == Ids(db.properties) + {p.id}
  {
    var ps := db.properties;
    var props := ps + [p];
    assert forall i :: 0 <= i < |ps| ==> props[i] == ps[i];
    assert props[|ps|] == p;
    assert Ids(props) == Ids(ps) + {p.id};
    assert Owners(ps) <= Owners(props);
  }

  /** Photos stored under a listing that exists keep every photo's
      reference valid. */
  lemma SaveImagesKeeps(db: Db, propertyId: nat, photos: seq<Images.Upload>)
    requires WellFormed(db) && propertyId in Ids(db.properties)
    ensures WellFormed(db.(images := Images.SaveUploadedImagesAsWritten(db.images, propertyId, photos)))
  {
    var imgs := Images.SaveUploadedImagesAsWritten(db.images, propertyId, photos);
    forall i | 0 <= i < |imgs| ensures imgs[i].propertyId in Ids(db.properties) {
      if i < |db.images| { assert imgs[i] == imgs[..|db.images|][i] == db.images[i]; }
    }
  }

  lemma CreateKeeps(db: Db, sellerId: nat, d: Listings.Details, photos: seq<Images.Upload>, now: int)
    requires WellFormed(db)
    ensures WellFormed(CreateStep(db, sellerId, d, photos, now))
  {
    var n := NextId(db.properties, PropertyKey);
    match Listings.Create(sellerId, n, d, now)
    case None =>
    case Some(p) =>
      assert forall i :: 0 <= i < |db.properties| ==> PropertyKey(db.properties[i]) < n;
      AppendListingKeeps(db, p);
      var db' := db.(properties := db.properties + [p]);
      SaveImagesKeeps(db', p.id, photos);
      assert CreateStep(db, sellerId, d, photos, now)
          == db'.(images := Images.SaveUploadedImagesAsWritten(db.images, p.id, photos));
  }

  lemma EditKeeps(db: Db, sellerId: nat, id: int, d: Listings.Details, photos: seq<Images.Upload>, now: int)
    requires WellFormed(db)
    ensures WellFormed(EditStep(db, sellerId, id, d, photos, now))
  {
    var (o, props) := Listings.SellerEdit(db.properties, sellerId, id, d, now);
    if o == Listings.Edited {
      var k := Listings.FindOwned(db.properties, sellerId, id).value;
      forall i | 0 <= i < |props| ensures props[i].details.price >= 0 {
        if i != k { assert props[i] == db.properties[i]; }
      }
      SameKeysKeepRefs(db, props);
      SameKeysSameIds(db.properties, props);
      var imgs := Images.SaveUploadedImagesAsWritten(db.images, db.properties[k].id, photos);
      assert db.properties[k].id in Ids(props);
      forall i | 0 <= i < |imgs| ensures imgs[i].propertyId in Ids(props) {
        if i < |db.images| { assert imgs[i] == db.images[i]; }
      }
    }
  }

  /** Approving, rejecting or editing a listing as administrator keeps
      every key, so every reference stays valid. */
  lemma ApproveListingKeeps(db: Db, id: int)
    requires WellFormed(db)
    ensures WellFormed(db.(properties := Listings.AdminApprove(db.properties, id).GetOr(db.properties)))
  {
    var ps := db.properties;
    var props := Listings.AdminApprove(ps, id).GetOr(ps);
    if Listings.FindProperty(ps, id).Some? {
      var k := Listings.FindProperty(ps, id).value;
      assert forall i :: 0 <= i < |ps| && i != k ==> props[i] == ps[i];
    }
    SameKeysKeepRefs(db, props);
  }

  lemma RejectListingKeeps(db: Db, id: int)
    requires WellFormed(db)
    ensures WellFormed(db.(properties := Listings.AdminReject(db.properties, id).GetOr(db.properties)))
  {
    var ps := db.properties;
    var props := Listings.AdminReject(ps, id).GetOr(ps);
    if Listings.FindProperty(ps, id).Some? {
      var k := Listings.FindProperty(ps, id).value;
      assert forall i :: 0 <= i < |ps| && i != k ==> props[i] == ps[i];
    }
    SameKeysKeepRefs(db, props);
  }

  lemma AdminEditKeeps(db: Db, routeId: int, f: Listings.AdminForm, now: int)
    requires WellFormed(db)
    ensures WellFormed(db.(properties := Listings.AdminEdit(db.properties, routeId, f, now).1))
  {
    var ps := db.properties;
    var props := Listings.AdminEdit(ps, routeId, f, now).1;
    if Listings.AdminEdit(ps, routeId, f, now).0 == Listings.AdminEdited {
      var k := Listings.FindProperty(ps, routeId).value;
      assert forall i :: 0 <= i < |ps| && i != k ==> props[i] == ps[i];
    }
    SameKeysKeepRefs(db, props);
  }

  lemma InitKeeps(db: Db, id: int, guid: string, stamp: string, config: Gateway.GatewayConfig, reply: Gateway.InitReply)
    requires WellFormed(db)
    ensures WellFormed(db.(invoices := Gateway.Init(db.invoices, id, guid, stamp, config, reply).1))
  {
    var r := Gateway.Init(db.invoices, id, guid, stamp, config, reply);
    if r.1 != db.invoices {
      var k := FindInvoice(db.invoices, id).value;
      UpdateInvoiceKeeps(db, k, Gateway.Initiated(db.invoices[k], guid, stamp));
    }
  }

  lemma SuccessKeeps(db: Db, t: string, v: string, reply: Gateway.ValidationReply, now: int)
    requires WellFormed(db)
    ensures WellFormed(db.(invoices := Gateway.Success(db.invoices, t, v, reply, now).1))
  {
    var r := Gateway.Success(db.invoices, t, v, reply, now);
    if r.0 == Gateway.PaymentConfirmed || r.0 == Gateway.ValidationFailed {
      var k := FindByTranId(db.invoices, t).value;
      var x := r.1[k];
      assert r.1 == db.invoices[k := x];
      UpdateInvoiceKeeps(db, k, x);
    }
  }

  lemma GatewayStatusKeeps(db: Db, t: string, statusText: string)
    requires WellFormed(db)
    ensures WellFormed(db.(invoices := Gateway.RecordGatewayStatus(db.invoices, t, statusText)))
  {
    var r := Gateway.RecordGatewayStatus(db.invoices, t, statusText);
    if r != db.invoices {
      var k := FindByTranId(db.invoices, t).value;
      UpdateInvoiceKeeps(db, k, r[k]);
    }
  }

  lemma IpnKeeps(db: Db, t: string, v: string, reply: Gateway.ValidationReply, now: int)
    requires WellFormed(db)
    ensures WellFormed(db.(invoices := Gateway.Ipn(db.invoices, t, v, reply, now)))
  {
    var r := Gateway.Ipn(db.invoices, t, v, reply, now);
    if r != db.invoices {
      var k := FindByTranId(db.invoices, t).value;
      UpdateInvoiceKeeps(db, k, r[k]);
    }
  }

  lemma SubmitKeeps(db: Db, sellerId: nat, f: ManualPayment.PaymentForm, now: int)
    requires WellFormed(db)
    ensures WellFormed(db.(invoices := ManualPayment.SubmitPayment(db.invoices, sellerId, f, now).1))
  {
    var r := ManualPayment.SubmitPayment(db.invoices, sellerId, f, now);
    if r.0 == ManualPayment.Submitted {
      var k := FindOwnedInvoice(db.invoices, sellerId, f.invoiceId).value;
      assert Priced(db.invoices[k]);
      UpdateInvoiceKeeps(db, k, r.1[k]);
    }
  }

  lemma DecideKeeps(db: Db, id: int, verdict: InvoiceStatus, note: string, now: int)
    requires WellFormed(db)
    ensures WellFormed(db.(invoices := ManualPayment.Decide(db.invoices, id, verdict, note, now).1))
  {
    var r := ManualPayment.Decide(db.invoices, id, verdict, note, now);
    if r.0 == ManualPayment.Decided {
      var k := FindInvoice(db.invoices, id).value;
      UpdateInvoiceKeeps(db, k, r.1[k]);
    }
  }

  /** A decision whose save fails changes nothing. */
  lemma DecideAsWrittenKeeps(db: Db, id: int, verdict: InvoiceStatus, note: string, now: int)
    requires WellFormed(db)
    ensures WellFormed(db.(invoices := ManualPayment.DecideAsWritten(db.invoices, id, verdict, note, now).1))
  {
    var r := ManualPayment.DecideAsWritten(db.invoices, id, verdict, note, now);
    if r.0 == ManualPayment.SaveFailed {
      assert db.(invoices := r.1) == db;
    } else {
      DecideKeeps(db, id, verdict, note, now);
    }
  }

  /** A booking refers to a listing that exists; a cancellation or a
      status change keeps every appointment's listing. */
  lemma BookKeeps(db: Db, b: nat, propertyId: int, date: int, time: Option<int>, message: string, now: int)
    requires WellFormed(db)
    ensures WellFormed(db.(appointments := Appointments.BookAsWritten(db.appointments, db.properties, b, propertyId, date, time,
                                                                      message, NextId(db.appointments, AppointmentKey), now).1))
  {
    var appts := db.appointments;
    var n := NextId(appts, AppointmentKey);
    var (o, r) := Appointments.BookAsWritten(appts, db.properties, b, propertyId, date, time, message, n, now);
    if o == Appointments.Booked {
      var k := Listings.FindProperty(db.properties, propertyId).value;
      assert r[|appts|].propertyId == db.properties[k].id;
      forall i | 0 <= i < |r| ensures r[i].propertyId in Ids(db.properties) {
        if i < |appts| { assert r[i] == r[..|appts|][i] == appts[i]; }
      }
    }
  }

  lemma CancelVisitKeeps(db: Db, b: nat, id: int, now: int)
    requires WellFormed(db)
    ensures WellFormed(db.(appointments := Appointments.Cancel(db.appointments, b, id, now).1))
  {
    var r := Appointments.Cancel(db.appointments, b, id, now).1;
    assert forall i :: 0 <= i < |r| ==> r[i].propertyId == db.appointments[i].propertyId;
  }

  lemma VisitStatusKeeps(db: Db, s: nat, id: int, status: int, now: int)
    requires WellFormed(db)
    ensures WellFormed(db.(appointments := Appointments.UpdateStatus(db.appointments, s, id, status, now).1))
  {
    var r := Appointments.UpdateStatus(db.appointments, s, id, status, now).1;
    assert forall i :: 0 <= i < |r| ==> r[i].propertyId == db.appointments[i].propertyId;
  }

  /** Every administrator's request on the listing table keeps the
      invariant. */
  lemma AdminListingKeeps(db: Db, op: Op)
    requires WellFormed(db)
    ensures WellFormed(db.(properties := AdminListingStep(db.properties, op)))
  {
    match op
    case ApproveListing(id) => ApproveListingKeeps(db, id);
    case RejectListing(id) => RejectListingKeeps(db, id);
    case AdminEditListing(routeId, f, now) => AdminEditKeeps(db, routeId, f, now);
    case _ =>
  }

  /** Every request on the appointment table keeps the invariant. */
  lemma VisitKeeps(db: Db, op: Op)
    requires WellFormed(db)
    ensures WellFormed(db.(appointments := VisitStep(db, op)))
  {
    match op
    case BookVisit(b, propertyId, date, time, message, now) => BookKeeps(db, b, propertyId, date, time, message, now);
    case CancelVisit(b, id, now) => CancelVisitKeeps(db, b, id, now);
    case SetVisitStatus(s, id, status, now) => VisitStatusKeeps(db, s, id, status, now);
    case _ =>
  }

  /** Every request on the invoice table keeps the invariant. */
  lemma PaymentKeeps(db: Db, op: Op)
    requires WellFormed(db)
    ensures WellFormed(db.(invoices := PaymentStep(db.invoices, op)))
  {
    if op.SubmitManualPayment? || op.ApproveInvoice? || op.RejectInvoice? {
      ManualStepKeeps(db, op);
    } else {
      GatewayStepKeeps(db, op);
    }
  }

  /** The gateway's start and its callbacks. */
  lemma GatewayStepKeeps(db: Db, op: Op)
    requires WellFormed(db)
    requires !(op.SubmitManualPayment? || op.ApproveInvoice? || op.RejectInvoice?)
    ensures WellFormed(db.(invoices := GatewayStep(db.invoices, op)))
  {
    GatewayStepIs(db.invoices, op);
    match op
    case StartGatewayPayment(id, guid, stamp, config, reply) => InitKeeps(db, id, guid, stamp, config, reply);
    case GatewaySuccess(t, v, reply, now) => SuccessKeeps(db, t, v, reply, now);
    case GatewayFail(t) => GatewayStatusKeeps(db, t, "FAILED");
    case GatewayCancel(t) => GatewayStatusKeeps(db, t, "CANCELLED");
    case GatewayIpn(t, v, reply, now) => IpnKeeps(db, t, v, reply, now);
    case _ =>
  }

  /** `GatewayStep` on each gateway request is that request's handler. */
  lemma GatewayStepIs(invs: seq<Invoice>, op: Op)
    ensures op.StartGatewayPayment? ==>
      GatewayStep(invs, op) == Gateway.Init(invs, op.invoiceId, op.guid, op.stamp, op.config, op.initReply).1
    ensures op.GatewaySuccess? ==> GatewayStep(invs, op) == Gateway.Success(invs, op.tranId, op.valId, op.reply, op.now).1
    ensures op.GatewayFail? ==> GatewayStep(invs, op) == Gateway.Fail(invs, op.tranId)
    ensures op.GatewayCancel? ==> GatewayStep(invs, op) == Gateway.Cancel(invs, op.tranId)
    ensures op.GatewayIpn? ==> GatewayStep(invs, op) == Gateway.Ipn(invs, op.tranId, op.valId, op.reply, op.now)
  {
  }

  /** The seller's submission and the administrator's decision. */
  lemma ManualStepKeeps(db: Db, op: Op)
    requires WellFormed(db)
    requires op.SubmitManualPayment? || op.ApproveInvoice? || op.RejectInvoice?
    ensures WellFormed(db.(invoices := ManualStep(db.invoices, op)))
  {
    if op.SubmitManualPayment? {
      SubmitStepIs(db.invoices, op);
      SubmitKeeps(db, op.sellerId, op.payment, op.now);
    } else {
      DecisionStepKeeps(db, op);
    }
  }

  /** An approval or a rejection, as served by `ManualStep`. */
  lemma DecisionStepKeeps(db: Db, op: Op)
    requires WellFormed(db)
    requires op.ApproveInvoice? || op.RejectInvoice?
    ensures WellFormed(db.(invoices := ManualStep(db.invoices, op)))
  {
    var verdict := if op.ApproveInvoice? then Paid else Rejected;
    DecisionStepIs(db.invoices, op, verdict);
    DecideAsWrittenKeeps(db, op.id, verdict, op.note, op.now);
  }

  /** `ManualStep` on an approval or a rejection is the controllers'
      decision with that verdict. */
  lemma DecisionStepIs(invs: seq<Invoice>, op: Op, verdict: InvoiceStatus)
    requires op.ApproveInvoice? || op.RejectInvoice?
    requires verdict == if op.ApproveInvoice? then Paid else Rejected
    ensures ManualStep(invs, op) == ManualPayment.DecideAsWritten(invs, op.id, verdict, op.note, op.now).1
  {
  }

  /** `ManualStep` on a manual payment is the seller's submission. */
  lemma SubmitStepIs(invs: seq<Invoice>, op: Op)
    requires op.SubmitManualPayment?
    ensures ManualStep(invs, op) == ManualPayment.SubmitPayment(invs, op.sellerId, op.payment, op.now).1
  {
  }

  /** `Step` on a request of one group is that group's step. */
  lemma StepIsPayment(db: Db, op: Op)
    requires PropertiesOk(db.properties)
    requires op.StartGatewayPayment? || op.GatewaySuccess? || op.GatewayFail? || op.GatewayCancel?
          || op.GatewayIpn? || op.SubmitManualPayment? || op.ApproveInvoice? || op.RejectInvoice?
    ensures Step(db, op) == db.(invoices := PaymentStep(db.invoices, op))
  {
  }

  lemma StepIsVisit(db: Db, op: Op)
    requires PropertiesOk(db.properties)
    requires op.BookVisit? || op.CancelVisit? || op.SetVisitStatus?
    ensures Step(db, op) == db.(appointments := VisitStep(db, op))
  {
  }

  lemma StepIsAdminListing(db: Db, op: Op)
    requires PropertiesOk(db.properties)
    requires op.ApproveListing? || op.RejectListing? || op.AdminEditListing?
    ensures Step(db, op) == db.(properties := AdminListingStep(db.properties, op))
  {
  }

  /** Every seller's request on a listing keeps the invariant. */
  lemma SellerStepKeeps(db: Db, op: Op)
    requires WellFormed(db)
    requires op.CreateListing? || op.EditListing? || op.SellListing? || op.DeleteListing?
    ensures WellFormed(Step(db, op))
  {
    match op
    case CreateListing(s, d, photos, now) => CreateKeeps(db, s, d, photos, now);
    case EditListing(s, id, d, photos, now) => EditKeeps(db, s, id, d, photos, now);
    case SellListing(s, id, now, fails) => MarkAsSoldKeeps(db, s, id, now, fails);
    case DeleteListing(s, id, elsewhere) => DeleteKeeps(db, s, id, elsewhere);
  }

  /** The administrator's listing requests, as served by `Step`. */
  lemma AdminStepKeeps(db: Db, op: Op)
    requires WellFormed(db)
    requires op.ApproveListing? || op.RejectListing? || op.AdminEditListing?
    ensures WellFormed(Step(db, op))
  {
    StepIsAdminListing(db, op);
    AdminListingKeeps(db, op);
  }

  /** The invoice requests, as served by `Step`. */
  lemma PayStepKeeps(db: Db, op: Op)
    requires WellFormed(db)
    requires op.StartGatewayPayment? || op.GatewaySuccess? || op.GatewayFail? || op.GatewayCancel?
          || op.GatewayIpn? || op.SubmitManualPayment? || op.ApproveInvoice? || op.RejectInvoice?
    ensures WellFormed(Step(db, op))
  {
    StepIsPayment(db, op);
    PaymentKeeps(db, op);
  }

  /** The appointment requests, as served by `Step`. */
  lemma VisitStepKeeps(db: Db, op: Op)
    requires WellFormed(db)
    requires op.BookVisit? || op.CancelVisit? || op.SetVisitStatus?
    ensures WellFormed(Step(db, op))
  {
    StepIsVisit(db, op);
    VisitKeeps(db, op);
  }

  /** A wishlist toggle adds a row only for a stored listing. */
  lemma WishStepKeeps(db: Db, op: Op)
    requires WellFormed(db)
    requires op.ToggleWishlist?
    ensures WellFormed(Step(db, op))
  {
    var (o, ws) := Wishlists.Toggle(db.wishlist, db.properties, op.buyer, op.propertyId, op.now);
    assert Step(db, op) == db.(wishlist := ws);
    if o == Wishlists.Added {
      var k := Listings.FindProperty(db.properties, op.propertyId).value;
      assert ws[|db.wishlist|].propertyId == db.properties[k].id;
      forall i | 0 <= i < |ws| ensures ws[i].propertyId in Ids(db.properties) {
        if i < |db.wishlist| { assert ws[i] == db.wishlist[i]; }
      }
    } else if o == Wishlists.Removed {
      var k := Wishlists.FindEntry(db.wishlist, op.buyer.value, op.propertyId).value;
      forall i | 0 <= i < |ws| ensures ws[i].propertyId in Ids(db.properties) {
        if i < k { assert ws[i] == db.wishlist[i]; } else { assert ws[i] == db.wishlist[i + 1]; }
      }
    }
  }

  /** Every request keeps the invariant. */
  lemma StepKeepsWellFormed(db: Db, op: Op)
    requires WellFormed(db)
    ensures WellFormed(Step(db, op))
  {
    if op.CreateListing? || op.EditListing? || op.SellListing? || op.DeleteListing? {
      SellerStepKeeps(db, op);
    } else if op.ApproveListing? || op.RejectListing? || op.AdminEditListing? {
      AdminStepKeeps(db, op);
    } else if op.BookVisit? || op.CancelVisit? || op.SetVisitStatus? {
      VisitStepKeeps(db, op);
    } else if op.ToggleWishlist? {
      WishStepKeeps(db, op);
    } else {
      PayStepKeeps(db, op);
    }
  }

  /** Serving a sequence of requests in order. */
  function Run(db: Db, ops: seq<Op>): (r: Db)
    requires WellFormed(db)
    ensures WellFormed(r)
    ensures KeepsInvoiceRows(db.invoices, r.invoices)
    decreases |ops|
  {
    if |ops| == 0 then db
    else
      StepKeepsWellFormed(db, ops[0]);
      Run(Step(db, ops[0]), ops[1..])
  }

  // ---------------------------------------------------------------------
  // How an invoice gets paid
  // ---------------------------------------------------------------------

  /** An invoice becomes Paid only through a validation answer accepting
      its own gateway transaction (`Success` or `IPN`), or through an
      administrator approving a submission awaiting verification. */
  lemma PaidOnlyThroughValidationOrApproval(db: Db, op: Op, j: nat)
    requires PropertiesOk(db.properties)
    requires j < |db.invoices| && db.invoices[j].status != Paid
    requires Step(db, op).invoices[j].status == Paid
    ensures
      || ((op.GatewaySuccess? || op.GatewayIpn?) && !Text.IsBlank(op.tranId)
          && db.invoices[j].gatewayTranId == op.tranId && Gateway.Accepts(op.reply, db.invoices[j].amount))
      || (op.ApproveInvoice? && db.invoices[j].id == op.id && db.invoices[j].status == PendingVerification)
  {
    if op.StartGatewayPayment? || op.GatewaySuccess? || op.GatewayFail? || op.GatewayCancel?
       || op.GatewayIpn? || op.SubmitManualPayment? || op.ApproveInvoice? || op.RejectInvoice? {
      PaidOnlyThroughPaymentStep(db.invoices, op, j);
    }
  }

  /** The same, on the invoice table alone. */
  lemma PaidOnlyThroughPaymentStep(invs: seq<Invoice>, op: Op, j: nat)
    requires j < |invs| && invs[j].status != Paid
    requires PaymentStep(invs, op)[j].status == Paid
    ensures
      || ((op.GatewaySuccess? || op.GatewayIpn?) && !Text.IsBlank(op.tranId)
          && invs[j].gatewayTranId == op.tranId && Gateway.Accepts(op.reply, invs[j].amount))
      || (op.ApproveInvoice? && invs[j].id == op.id && invs[j].status == PendingVerification)
  {
    if op.SubmitManualPayment? || op.ApproveInvoice? || op.RejectInvoice? {
      PaidOnlyThroughManual(invs, op, j);
    } else {
      PaidOnlyThroughGateway(invs, op, j);
    }
  }

  lemma PaidOnlyThroughManual(invs: seq<Invoice>, op: Op, j: nat)
    requires op.SubmitManualPayment? || op.ApproveInvoice? || op.RejectInvoice?
    requires j < |invs| && invs[j].status != Paid
    requires ManualStep(invs, op)[j].status == Paid
    ensures op.ApproveInvoice? && invs[j].id == op.id && invs[j].status == PendingVerification
  {
    if op.SubmitManualPayment? {
      SubmitStepIs(invs, op);
    } else {
      DecisionStepIs(invs, op, if op.ApproveInvoice? then Paid else Rejected);
    }
  }

  lemma PaidOnlyThroughGateway(invs: seq<Invoice>, op: Op, j: nat)
    requires !(op.SubmitManualPayment? || op.ApproveInvoice? || op.RejectInvoice?)
    requires j < |invs| && invs[j].status != Paid
    requires GatewayStep(invs, op)[j].status == Paid
    ensures (op.GatewaySuccess? || op.GatewayIpn?) && !Text.IsBlank(op.tranId)
            && invs[j].gatewayTranId == op.tranId && Gateway.Accepts(op.reply, invs[j].amount)
  {
  }

  /** `op` is a validation answer for the transaction of invoice `id`, or
      an administrator's approval of that invoice. */
  predicate PaysInvoice(op: Op, id: nat) {
    || ((op.GatewaySuccess? || op.GatewayIpn?) && Gateway.TranInvoiceId(op.tranId) == Some(id))
    || (op.ApproveInvoice? && op.id == id)
  }

  /** Over a whole run, an invoice that ends Paid was paid by some request
      aimed at it: a validation answer for its own transaction, or an
      approval of it. */
  lemma {:induction false} PaidInRunHasCause(db: Db, ops: seq<Op>, j: nat)
    requires WellFormed(db)
    requires j < |db.invoices| && db.invoices[j].status != Paid
    requires Run(db, ops).invoices[j].status == Paid
    ensures exists i :: 0 <= i < |ops| && PaysInvoice(ops[i], db.invoices[j].id)
    decreases |ops|
  {
    if |ops| > 0 {
      StepKeepsWellFormed(db, ops[0]);
      var next := Step(db, ops[0]);
      assert Run(db, ops) == Run(next, ops[1..]);
      if next.invoices[j].status == Paid {
        PaidOnlyThroughValidationOrApproval(db, ops[0], j);
        if ops[0].GatewaySuccess? || ops[0].GatewayIpn? {
          assert TranOk(db.invoices[j]);
        }
        assert PaysInvoice(ops[0], db.invoices[j].id);
      } else {
        PaidInRunHasCause(next, ops[1..], j);
        var i :| 0 <= i < |ops[1..]| && PaysInvoice(ops[1..][i], next.invoices[j].id);
        assert ops[i + 1] == ops[1..][i];
      }
    }
  }
}
