/** Paying a commission by hand: the seller submits the payment details
    with a proof image, an administrator approves or rejects the
    submission, and the seller may view a receipt once the invoice is
    paid. */
module ManualPayment {
  import opened Wrappers
  import opened Text
  import opened Money
  import opened Invoices

  /** The uploaded proof: its client-side name and the GUID text the stored
      file is named with. */
  datatype ProofFile = ProofFile(fileName: string, guid: string)

  /** The seller's payment form. `propertyTitle` is the listing's title,
    posted back with the form. */
  datatype PaymentForm = PaymentForm(
    invoiceId: int,
    propertyTitle: string,
    rate: int,
    paymentMethod: PaymentMethod,
    transactionId: string,
    proof: Option<ProofFile>)

  /** The form's annotations: a rate in `[2, 5]`, a transaction id and a
      proof file. The property title carries no annotation, but it is a
      non-nullable string and so is required by model validation too. */
  predicate PaymentFormValid(f: PaymentForm) {
    ValidRate(f.rate) && !IsBlank(f.propertyTitle) && !IsBlank(f.transactionId) && f.proof.Some?
  }

  const CommissionFolder := "/uploads/commission/"

  /** `/uploads/commission/invoice_{id}_{guid}{ext}`: the stored name is
      made of the invoice id and the GUID and keeps the extension of the
      uploaded name, and so long as the GUID text has no separator the file
      lands directly in the commission folder. */
  function ProofUrl(invoiceId: nat, file: ProofFile): (url: string)
    ensures StartsWith(url, CommissionFolder + "invoice_" + NatToString(invoiceId) + "_" + file.guid)
    ensures var ext := Extension(file.fileName); |ext| <= |url| && url[|url| - |ext|..] == ext
    ensures NoSeparator(file.guid) ==> NoSeparator(url[|CommissionFolder|..])
  {
    var digits := NatToString(invoiceId);
    var ext := Extension(file.fileName);
    ProofUrlParts(CommissionFolder, "invoice_", digits, "_", file.guid, ext);
    ProofNameNoSeparator(digits, file.guid, ext);
    CommissionFolder + "invoice_" + digits + "_" + file.guid + ext
  }

  /** How the parts sit in `a + b + c + d + e + f`: it starts with the
      first five, ends with `f`, and is `b + c + d + e + f` after `a`. */
  lemma ProofUrlParts(a: string, b: string, c: string, d: string, e: string, f: string)
    ensures StartsWith(a + b + c + d + e + f, a + b + c + d + e)
    ensures (a + b + c + d + e + f)[|a + b + c + d + e|..] == f
    ensures (a + b + c + d + e + f)[|a|..] == b + c + d + e + f
  {
    var p := a + b + c + d + e;
    assert (p + f)[..|p|] == p;
    assert (p + f)[|a|..] == b + c + d + e + f;
  }

  /** A stored proof name built from separator-free parts has none. */
  lemma ProofNameNoSeparator(digits: string, guid: string, ext: string)
    requires AllDigits(digits)
    requires ext == "" || (ext[0] == '.' && forall k :: 1 <= k < |ext| ==> !IsDirectorySeparator(ext[k]))
    ensures NoSeparator(guid) ==> NoSeparator("invoice_" + digits + "_" + guid + ext)
  {
    if NoSeparator(guid) {
      assert NoSeparator(digits) by {
        forall k | 0 <= k < |digits| ensures !IsDirectorySeparator(digits[k]) { assert IsDigit(digits[k]); }
      }
      NoSeparatorConcat("invoice_", digits);
      NoSeparatorConcat("invoice_" + digits, "_");
      NoSeparatorConcat("invoice_" + digits + "_", guid);
      NoSeparatorConcat("invoice_" + digits + "_" + guid, ext);
    }
  }

  datatype PayOutcome = PayInvalid | PayNotFound | Submitted

  /** The invoice after a submission. */
  function WithSubmission(inv: Invoice, f: PaymentForm, now: int): (r: Invoice)
    requires PaymentFormValid(f)
    ensures SameIdentity(inv, r)
    ensures r.rate == f.rate && r.amount == Commission(inv.listingPrice, f.rate)
    ensures inv.listingPrice >= 0 ==> Priced(r)
    ensures r.status == PendingVerification && r.submitted == Some(now)
    ensures r.paymentMethod == Some(f.paymentMethod) && r.transactionId == f.transactionId
    ensures r.proofImageUrl == ProofUrl(inv.id, f.proof.value)
    ensures r.gatewayTranId == inv.gatewayTranId && r.gatewayValId == inv.gatewayValId
    ensures r.gatewayStatus == inv.gatewayStatus
    ensures r.adminNote == inv.adminNote && r.verified == inv.verified
  {
    inv.(rate := f.rate, amount := Commission(inv.listingPrice, f.rate),
         paymentMethod := Some(f.paymentMethod), transactionId := f.transactionId,
         proofImageUrl := ProofUrl(inv.id, f.proof.value), submitted := Some(now),
         status := PendingVerification)
  }

  /** `Pay` (POST): a valid form for one of the seller's own invoices
      records the submission and sends the invoice to verification. The
      amount is recomputed from the stored listing price and the submitted
      rate, and the invoice's current status is not consulted. */
  function SubmitPayment(invs: seq<Invoice>, sellerId: nat, f: PaymentForm, now: int): (r: (PayOutcome, seq<Invoice>))
    ensures r.0 == PayInvalid <==> !PaymentFormValid(f)
    ensures r.0 == PayNotFound <==> PaymentFormValid(f) && FindOwnedInvoice(invs, sellerId, f.invoiceId).None?
    ensures r.0 != Submitted ==> r.1 == invs
    ensures r.0 == Submitted ==>
      var k := FindOwnedInvoice(invs, sellerId, f.invoiceId).value;
      && invs[k].sellerId == sellerId
      && r.1 == invs[k := WithSubmission(invs[k], f, now)]
    ensures |r.1| == |invs|
    ensures forall j :: 0 <= j < |invs| ==> SameIdentity(invs[j], r.1[j])
  {
    if !PaymentFormValid(f) then (PayInvalid, invs)
    else match FindOwnedInvoice(invs, sellerId, f.invoiceId)
      case None => (PayNotFound, invs)
      case Some(k) => (Submitted, invs[k := WithSubmission(invs[k], f, now)])
  }

  /** Any of the seller's invoices, a paid one included, goes back to
      verification on a valid submission. */
  lemma SubmissionReopensPaidInvoice(invs: seq<Invoice>, sellerId: nat, f: PaymentForm, now: int)
    requires PaymentFormValid(f)
    requires FindOwnedInvoice(invs, sellerId, f.invoiceId).Some?
    requires invs[FindOwnedInvoice(invs, sellerId, f.invoiceId).value].status == Paid
    ensures var k := FindOwnedInvoice(invs, sellerId, f.invoiceId).value;
      SubmitPayment(invs, sellerId, f, now).1[k].status == PendingVerification
  {
  }

  datatype ReceiptOutcome = ReceiptNotFound | NotYetPaid | ShowReceipt(invoice: Invoice)

  /** `Receipt`: shown only for the seller's own paid invoice. */
  function Receipt(invs: seq<Invoice>, sellerId: nat, id: int): (r: ReceiptOutcome)
    ensures r.ShowReceipt? <==> exists k :: 0 <= k < |invs| && FindOwnedInvoice(invs, sellerId, id) == Some(k) && invs[k].status == Paid
    ensures r.ShowReceipt? ==> r.invoice in invs && r.invoice.status == Paid && r.invoice.sellerId == sellerId && r.invoice.id == id
    ensures r == ReceiptNotFound <==> FindOwnedInvoice(invs, sellerId, id).None?
  {
    match FindOwnedInvoice(invs, sellerId, id)
    case None => ReceiptNotFound
    case Some(k) => if invs[k].status != Paid then NotYetPaid else ShowReceipt(invs[k])
  }

  // ---------------------------------------------------------------------
  // Administrator's decision
  // ---------------------------------------------------------------------

  datatype DecisionOutcome = DecisionNotFound | NotPending | SaveFailed | Decided

  /** Approve (`Paid`) or reject (`Rejected`) a submission awaiting
      verification, recording the note and the time; nothing else
      changes. Any other invoice is refused unchanged. This is the
      decision as evidently intended, with any note, a blank one included,
      stored as given; `DecideAsWritten` is the controllers' actual
      behaviour. */
  function Decide(invs: seq<Invoice>, id: int, verdict: InvoiceStatus, note: string, now: int)
    : (r: (DecisionOutcome, seq<Invoice>))
    ensures r.0 == DecisionNotFound <==> FindInvoice(invs, id).None?
    ensures r.0 == NotPending <==> FindInvoice(invs, id).Some? && invs[FindInvoice(invs, id).value].status != PendingVerification
    ensures r.0 == Decided <==> FindInvoice(invs, id).Some? && invs[FindInvoice(invs, id).value].status == PendingVerification
    ensures r.0 != Decided ==> r.1 == invs
    ensures r.0 == Decided ==>
      var k := FindInvoice(invs, id).value;
      && invs[k].status == PendingVerification
      && r.1 == invs[k := invs[k].(status := verdict, adminNote := note, verified := Some(now))]
    ensures |r.1| == |invs|
    ensures forall j :: 0 <= j < |invs| ==> SameIdentity(invs[j], r.1[j])
  {
    match FindInvoice(invs, id)
    case None => (DecisionNotFound, invs)
    case Some(k) =>
      if invs[k].status != PendingVerification then (NotPending, invs)
      else (Decided, invs[k := invs[k].(status := verdict, adminNote := note, verified := Some(now))])
  }

  /** The decision as the controllers make it: the posted note is bound
      to a `string` parameter, so a blank note arrives as null and is
      assigned to `AdminNote`, whose column is NOT NULL. The save then
      fails and the invoice stays awaiting verification. */
  function DecideAsWritten(invs: seq<Invoice>, id: int, verdict: InvoiceStatus, note: string, now: int)
    : (r: (DecisionOutcome, seq<Invoice>))
    ensures r.0 == SaveFailed <==> Decide(invs, id, verdict, note, now).0 == Decided && BoundText(note).None?
    ensures r.0 != SaveFailed ==> r == Decide(invs, id, verdict, note, now)
    ensures r.0 == SaveFailed ==> r.1 == invs
    ensures |r.1| == |invs|
    ensures forall j :: 0 <= j < |invs| ==> SameIdentity(invs[j], r.1[j])
  {
    var d := Decide(invs, id, verdict, note, now);
    if d.0 == Decided && BoundText(note).None? then (SaveFailed, invs) else d
  }

  /** `Approve`. */
  function Approve(invs: seq<Invoice>, id: int, note: string, now: int): (r: (DecisionOutcome, seq<Invoice>))
    ensures |r.1| == |invs|
    ensures forall j :: 0 <= j < |invs| ==> SameIdentity(invs[j], r.1[j])
    ensures r.0 == Decided ==> FindInvoice(invs, id).Some? && r.1[FindInvoice(invs, id).value].status == Paid
    ensures r.0 == Decided ==> !IsBlank(note) && r.1[FindInvoice(invs, id).value].adminNote == note
    ensures r.0 == SaveFailed <==>
      FindInvoice(invs, id).Some? && invs[FindInvoice(invs, id).value].status == PendingVerification && IsBlank(note)
    ensures r.0 != Decided ==> r.1 == invs
  {
    DecideAsWritten(invs, id, Paid, note, now)
  }

  /** `Reject`. */
  function Reject(invs: seq<Invoice>, id: int, note: string, now: int): (r: (DecisionOutcome, seq<Invoice>))
    ensures |r.1| == |invs|
    ensures forall j :: 0 <= j < |invs| ==> SameIdentity(invs[j], r.1[j])
    ensures r.0 == Decided ==> FindInvoice(invs, id).Some? && r.1[FindInvoice(invs, id).value].status == Rejected
    ensures r.0 == Decided ==> !IsBlank(note) && r.1[FindInvoice(invs, id).value].adminNote == note
    ensures r.0 == SaveFailed <==>
      FindInvoice(invs, id).Some? && invs[FindInvoice(invs, id).value].status == PendingVerification && IsBlank(note)
    ensures r.0 != Decided ==> r.1 == invs
  {
    DecideAsWritten(invs, id, Rejected, note, now)
  }

  /** As written, an approval or a rejection with a blank note never goes
      through, although `Decide` would record it: the invoice keeps
      waiting for verification. */
  lemma BlankNoteDecisionFails(invs: seq<Invoice>, id: int, note: string, now: int)
    requires FindInvoice(invs, id).Some? && invs[FindInvoice(invs, id).value].status == PendingVerification
    requires IsBlank(note)
    ensures Decide(invs, id, Paid, note, now).0 == Decided
    ensures Approve(invs, id, note, now) == (SaveFailed, invs)
    ensures Reject(invs, id, note, now) == (SaveFailed, invs)
    ensures invs[FindInvoice(invs, id).value].status == PendingVerification
  {
  }

  /** The evidently intended decision records a blank note as it is. */
  lemma BlankNoteRecorded(invs: seq<Invoice>, id: int, verdict: InvoiceStatus, now: int)
    requires FindInvoice(invs, id).Some? && invs[FindInvoice(invs, id).value].status == PendingVerification
    ensures var r := Decide(invs, id, verdict, "", now);
      && r.0 == Decided
      && r.1[FindInvoice(invs, id).value].status == verdict
      && r.1[FindInvoice(invs, id).value].adminNote == ""
  {
  }

  /** A decision is final: a second approve or reject of the same invoice
      is refused. */
  lemma SecondDecisionRefused(invs: seq<Invoice>, id: int, v1: InvoiceStatus, n1: string, t1: int,
                              v2: InvoiceStatus, n2: string, t2: int)
    requires v1 == Paid || v1 == Rejected
    requires Decide(invs, id, v1, n1, t1).0 == Decided
    ensures var after := Decide(invs, id, v1, n1, t1).1;
      Decide(after, id, v2, n2, t2) == (NotPending, after)
  {
    var k := FindInvoice(invs, id).value;
    var after := Decide(invs, id, v1, n1, t1).1;
    assert after[k].id == id;
    assert forall j :: 0 <= j < k ==> after[j].id != id;
    assert FindInvoice(after, id) == Some(k);
  }
}
