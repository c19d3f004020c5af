/** The commission invoice raised when a listing is sold: its status and
    payment-method values, its record with the defaults a new object
    starts from, and the rate and amount rules every writer follows. */
module Invoices {
  import opened Wrappers
  import opened Seqs
  import Money

  datatype InvoiceStatus = Unpaid | PendingVerification | Paid | Rejected

  datatype PaymentMethod = Bank | BKash | Nagad | Rocket | Cash | Other

  /** A commission invoice. Money is in cents; dates are ticks. */
  datatype Invoice = Invoice(
    id: nat,
    propertyId: nat,
    sellerId: nat,
    listingPrice: int,
    rate: int,
    amount: int,
    status: InvoiceStatus,
    created: int,
    paymentMethod: Option<PaymentMethod>,
    transactionId: string,
    proofImageUrl: string,
    submitted: Option<int>,
    adminNote: string,
    verified: Option<int>,
    gatewayTranId: string,
    gatewayValId: string,
    gatewayStatus: string)

  /** `new CommissionInvoice()` with its initialisers: unpaid, at 2%, every
      text field empty and no submission or verification date. */
  function Blank(id: nat, created: int): (inv: Invoice)
    ensures inv.id == id && inv.created == created
    ensures inv.status == Unpaid && inv.rate == 2
    ensures inv.transactionId == "" && inv.proofImageUrl == "" && inv.adminNote == ""
    ensures inv.gatewayTranId == "" && inv.gatewayValId == "" && inv.gatewayStatus == ""
    ensures inv.submitted.None? && inv.verified.None? && inv.paymentMethod.None?
  {
    Invoice(id, 0, 0, 0, 2, 0, Unpaid, created, None, "", "", None, "", None, "", "", "")
  }

  /** The documented rate range: 2% to 5%. */
  predicate ValidRate(rate: int) {
    2 <= rate <= 5
  }

  /** The rate `MarkAsSold` uses: the listing's own rate when it is in
      range, 2% otherwise. */
  function ClampRate(rate: int): (r: int)
    ensures ValidRate(r)
    ensures ValidRate(rate) ==> r == rate
    ensures !ValidRate(rate) ==> r == 2
  {
    if rate < 2 || rate > 5 then 2 else rate
  }

  /** The invoice's amount is its rate applied to its listing price,
      rounded to cents half to even. */
  predicate Priced(inv: Invoice) {
    ValidRate(inv.rate) && inv.listingPrice >= 0 && inv.amount == Money.Commission(inv.listingPrice, inv.rate)
  }

  /** A priced invoice's amount lies between 2% and 5% of the price, to
      within half a cent. */
  lemma PricedAmountBounds(inv: Invoice)
    requires Priced(inv)
    ensures 0 <= inv.amount
    ensures 2 * (100 * inv.amount) <= 2 * (inv.listingPrice * 5) + 100
    ensures 2 * (inv.listingPrice * 2) <= 2 * (100 * inv.amount) + 100
  {
    assert inv.listingPrice * 2 <= inv.listingPrice * inv.rate <= inv.listingPrice * 5;
  }

  // ---------------------------------------------------------------------
  // Lookups
  // ---------------------------------------------------------------------

  /** `FirstOrDefault(i => i.CommissionInvoiceId == id)`. */
  function FindInvoice(invs: seq<Invoice>, id: int): (r: Option<nat>)
    ensures r.Some? ==> r.value < |invs| && invs[r.value].id == id
    ensures r.None? <==> forall k :: 0 <= k < |invs| ==> invs[k].id != id
  {
    FirstIndex(invs, (i: Invoice) => i.id == id)
  }

  /** `FirstOrDefault(i => i.CommissionInvoiceId == id && i.SellerId == sellerId)`. */
  function FindOwnedInvoice(invs: seq<Invoice>, sellerId: nat, id: int): (r: Option<nat>)
    ensures r.Some? ==> r.value < |invs| && invs[r.value].id == id && invs[r.value].sellerId == sellerId
    ensures r.None? <==> forall k :: 0 <= k < |invs| ==> !(invs[k].id == id && invs[k].sellerId == sellerId)
  {
    FirstIndex(invs, (i: Invoice) => i.id == id && i.sellerId == sellerId)
  }

  /** `FirstOrDefault(i => i.GatewayTranId == tranId)`. */
  function FindByTranId(invs: seq<Invoice>, tranId: string): (r: Option<nat>)
    ensures r.Some? ==> r.value < |invs| && invs[r.value].gatewayTranId == tranId
    ensures r.None? <==> forall k :: 0 <= k < |invs| ==> invs[k].gatewayTranId != tranId
  {
    FirstIndex(invs, (i: Invoice) => i.gatewayTranId == tranId)
  }

  /** `Any(ci => ci.PropertyId == propertyId)`. */
  predicate HasInvoiceFor(invs: seq<Invoice>, propertyId: nat) {
    exists k :: 0 <= k < |invs| && invs[k].propertyId == propertyId
  }

  /** Fields no invoice operation rewrites once the invoice exists. */
  predicate SameIdentity(a: Invoice, b: Invoice) {
    a.id == b.id && a.propertyId == b.propertyId && a.sellerId == b.sellerId
    && a.listingPrice == b.listingPrice && a.created == b.created
  }
}
