/** Online payment of a commission invoice through SSLCOMMERZ: starting a
    gateway session (`Init`), the decision whether the validation service's
    answer proves the payment (`ValidateAndMarkPaid`), and the gateway's
    four callbacks (`Success`, `Fail`, `Cancel`, `IPN`).

    The HTTP exchanges are not modelled: the gateway's answer to the
    session request and the validation service's parsed answer are
    parameters, as are the clock and the random part of a transaction id. */
module Gateway {
  import opened Wrappers
  import opened Text
  import opened Money
  import opened Invoices

  // ---------------------------------------------------------------------
  // Transaction ids
  // ---------------------------------------------------------------------

  const TranPrefix: string := "COMM_INV_"

  /** `COMM_INV_{invoiceId}_{guid}_{stamp}`, where `guid` stands for the
      first ten hex digits of a fresh GUID and `stamp` for the local time as
      yyyyMMddHHmmss. */
  function TranId(invoiceId: nat, guid: string, stamp: string): (t: string)
    ensures StartsWith(t, TranPrefix)
    ensures !IsBlank(t)
  {
    var t := TranPrefix + NatToString(invoiceId) + "_" + guid + "_" + stamp;
    assert t[..|TranPrefix|] == TranPrefix;
    assert !IsWhiteSpace(t[0]);
    t
  }

  /** The invoice id embedded in a transaction id: the digits between the
      prefix and the next '_'. */
  function TranInvoiceId(t: string): (r: Option<nat>)
    ensures r.Some? ==> StartsWith(t, TranPrefix)
  {
    if !StartsWith(t, TranPrefix) then None
    else
      var rest := t[|TranPrefix|..];
      var k := DigitSpan(rest);
      if 0 < k < |rest| && rest[k] == '_' then Some(DigitsValue(rest[..k])) else None
  }

  /** The digit span of a numeral followed by a non-digit is the numeral. */
  lemma {:induction false} DigitSpanOfNumeral(d: string, tail: string)
    requires AllDigits(d) && |tail| > 0 && !IsDigit(tail[0])
    ensures DigitSpan(d + tail) == |d|
    decreases |d|
  {
    if |d| > 0 {
      assert (d + tail)[1..] == d[1..] + tail;
      DigitSpanOfNumeral(d[1..], tail);
    }
  }

  /** A transaction id names the invoice it was made for. */
  lemma TranIdRoundTrip(invoiceId: nat, guid: string, stamp: string)
    ensures TranInvoiceId(TranId(invoiceId, guid, stamp)) == Some(invoiceId)
  {
    var t := TranId(invoiceId, guid, stamp);
    var d := NatToString(invoiceId);
    var tail := "_" + guid + "_" + stamp;
    assert t == TranPrefix + (d + tail);
    assert t[|TranPrefix|..] == d + tail;
    DigitSpanOfNumeral(d, tail);
    assert (d + tail)[..|d|] == d;
    DigitsRoundTrip(invoiceId);
  }

  /** Transaction ids made for different invoices never coincide, whatever
      the random part. */
  lemma TranIdsDistinct(a: nat, ga: string, sa: string, b: nat, gb: string, sb: string)
    requires a != b
    ensures TranId(a, ga, sa) != TranId(b, gb, sb)
  {
    TranIdRoundTrip(a, ga, sa);
    TranIdRoundTrip(b, gb, sb);
  }

  // ---------------------------------------------------------------------
  // Init
  // ---------------------------------------------------------------------

  /** The three `SSLCommerz` settings; a missing setting is "". */
  datatype GatewayConfig = GatewayConfig(storeId: string, storePassword: string, baseUrl: string)

  /** Every setting present; the base URL counts without trailing slashes. */
  predicate ConfigPresent(c: GatewayConfig) {
    !IsBlank(c.storeId) && !IsBlank(c.storePassword) && !IsBlank(TrimEndChar(c.baseUrl, '/'))
  }

  /** What the session request produced: a transport failure or non-success
      HTTP status, a body that is not JSON, or a JSON object with or
      without a `GatewayPageURL` (a JSON null reads as ""). */
  datatype InitReply = HttpFailed | InitNotJson | InitJson(gatewayPageUrl: Option<string>)

  datatype InitOutcome =
    | InitNotFound
    | NotEligible
    | ConfigMissing
    | InvalidAmount
    | GatewayError
    | Redirect(url: string)

  /** Invoices a seller may pay online. */
  predicate Payable(s: InvoiceStatus) {
    s == Unpaid || s == Rejected
  }

  /** The invoice after `Init` has saved its new session. */
  function Initiated(inv: Invoice, guid: string, stamp: string): (r: Invoice)
    ensures TranInvoiceId(r.gatewayTranId) == Some(inv.id)
    ensures r.gatewayValId == "" && r.gatewayStatus == "INITIATED"
    ensures r.status == inv.status && SameIdentity(inv, r)
    ensures r.rate == inv.rate && r.amount == inv.amount
    ensures r.transactionId == inv.transactionId && r.verified == inv.verified
  {
    TranIdRoundTrip(inv.id, guid, stamp);
    inv.(gatewayTranId := TranId(inv.id, guid, stamp), gatewayValId := "", gatewayStatus := "INITIATED")
  }

  /** `Init`: starts a gateway session for an Unpaid or Rejected invoice.
      The new transaction id is saved before the settings are checked, so
      it is kept even when the session cannot start; the invoice's status
      is never changed here. */
  function Init(invs: seq<Invoice>, invoiceId: int, guid: string, stamp: string,
                config: GatewayConfig, reply: InitReply): (r: (InitOutcome, seq<Invoice>))
    ensures r.0 == InitNotFound <==> FindInvoice(invs, invoiceId).None?
    ensures r.0 == NotEligible <==> FindInvoice(invs, invoiceId).Some? && !Payable(invs[FindInvoice(invs, invoiceId).value].status)
    ensures r.0 == InitNotFound || r.0 == NotEligible ==> r.1 == invs
    ensures r.0 != InitNotFound && r.0 != NotEligible ==>
      var k := FindInvoice(invs, invoiceId).value;
      r.1 == invs[k := Initiated(invs[k], guid, stamp)]
    ensures r.0 == ConfigMissing <==> r.0 != InitNotFound && r.0 != NotEligible && !ConfigPresent(config)
    ensures r.0 == InvalidAmount <==>
      && FindInvoice(invs, invoiceId).Some?
      && Payable(invs[FindInvoice(invs, invoiceId).value].status)
      && ConfigPresent(config)
      && invs[FindInvoice(invs, invoiceId).value].amount <= 0
    ensures r.0 == GatewayError <==>
      && FindInvoice(invs, invoiceId).Some?
      && Payable(invs[FindInvoice(invs, invoiceId).value].status)
      && ConfigPresent(config)
      && invs[FindInvoice(invs, invoiceId).value].amount > 0
      && !(reply.InitJson? && reply.gatewayPageUrl.Some? && !IsBlank(reply.gatewayPageUrl.value))
    ensures r.0.Redirect? <==>
      && FindInvoice(invs, invoiceId).Some?
      && Payable(invs[FindInvoice(invs, invoiceId).value].status)
      && ConfigPresent(config)
      && invs[FindInvoice(invs, invoiceId).value].amount > 0
      && reply.InitJson? && reply.gatewayPageUrl.Some? && !IsBlank(reply.gatewayPageUrl.value)
    ensures r.0.Redirect? ==> r.0.url == reply.gatewayPageUrl.value
    ensures |r.1| == |invs|
    ensures forall j :: 0 <= j < |invs| ==> SameIdentity(invs[j], r.1[j])
    ensures forall j :: 0 <= j < |invs| ==> r.1[j].status == invs[j].status
  {
    match FindInvoice(invs, invoiceId)
    case None => (InitNotFound, invs)
    case Some(k) =>
      if !Payable(invs[k].status) then (NotEligible, invs)
      else (StartOutcome(invs[k], config, reply), invs[k := Initiated(invs[k], guid, stamp)])
  }

  /** What happens once the new transaction id is saved: the settings, the
      amount and the gateway's answer are checked in that order. */
  function StartOutcome(inv: Invoice, config: GatewayConfig, reply: InitReply): (o: InitOutcome)
    ensures o != InitNotFound && o != NotEligible
    ensures o == ConfigMissing <==> !ConfigPresent(config)
    ensures o == InvalidAmount <==> ConfigPresent(config) && inv.amount <= 0
    ensures o == GatewayError <==>
      ConfigPresent(config) && inv.amount > 0
      && !(reply.InitJson? && reply.gatewayPageUrl.Some? && !IsBlank(reply.gatewayPageUrl.value))
    ensures o.Redirect? <==>
      ConfigPresent(config) && inv.amount > 0
      && reply.InitJson? && reply.gatewayPageUrl.Some? && !IsBlank(reply.gatewayPageUrl.value)
    ensures o.Redirect? ==> o.url == reply.gatewayPageUrl.value
  {
    if !ConfigPresent(config) then ConfigMissing
    else if inv.amount <= 0 then InvalidAmount
    else match reply
      case HttpFailed => GatewayError
      case InitNotJson => GatewayError
      case InitJson(url) =>
        if url.None? || IsBlank(url.value) then GatewayError
        else Redirect(url.value)
  }

  // ---------------------------------------------------------------------
  // The validation decision
  // ---------------------------------------------------------------------

  /** The validation service's answer: unreachable (any transport error),
      not JSON, or the string fields read from it, absent ones as "". The
      amount is the result of `decimal.TryParse`, `None` when it fails. */
  datatype ValidationReply =
    | Unreachable
    | ValidationNotJson
    | Fields(status: string, currency: string, amount: Option<Decimal>, bankTranId: string)

  predicate StatusOk(status: string) {
    EqualsIgnoreCase(status, "VALID") || EqualsIgnoreCase(status, "VALIDATED")
  }

  /** BDT in any case, or no currency at all. */
  predicate CurrencyOk(currency: string) {
    EqualsIgnoreCase(currency, "BDT") || IsBlank(currency)
  }

  /** The paid amount is non-negative and equals the invoice's amount after
      both are rounded to cents; an unparsable amount counts as -1. */
  predicate AmountOk(amount: Option<Decimal>, invoiceCents: int) {
    amount.Some? && amount.value.units >= 0 && Round2(amount.value) == Round2(Decimal(invoiceCents, 2))
  }

  /** The answer proves the payment of an invoice of `invoiceCents`. */
  predicate Accepts(reply: ValidationReply, invoiceCents: int) {
    reply.Fields? && StatusOk(reply.status) && AmountOk(reply.amount, invoiceCents) && CurrencyOk(reply.currency)
  }

  /** The bank's transaction id when it gave one, else the gateway's. */
  function ReceiptTransactionId(reply: ValidationReply, gatewayTranId: string): (t: string)
    requires reply.Fields?
    ensures !IsBlank(reply.bankTranId) ==> t == reply.bankTranId
    ensures IsBlank(reply.bankTranId) ==> t == gatewayTranId
  {
    if !IsBlank(reply.bankTranId) then reply.bankTranId else gatewayTranId
  }

  /** `ValidateAndMarkPaid`: when the answer proves the payment the invoice
      becomes Paid, stamped now, with the validation id, the service's
      status text and the receipt transaction id; otherwise it is left as
      it is. */
  function ValidateAndMarkPaid(inv: Invoice, valId: string, reply: ValidationReply, now: int): (r: (bool, Invoice))
    ensures r.0 <==> Accepts(reply, inv.amount)
    ensures !r.0 ==> r.1 == inv
    ensures SameIdentity(inv, r.1) && r.1.amount == inv.amount
    ensures r.0 ==> r.1.status == Paid && r.1.verified == Some(now)
    ensures r.0 ==> r.1.gatewayValId == valId && r.1.gatewayStatus == reply.status
    ensures r.0 ==> r.1.transactionId == ReceiptTransactionId(reply, inv.gatewayTranId)
    ensures r.0 ==> r.1 == inv.(status := Paid, verified := Some(now), gatewayValId := valId,
                                gatewayStatus := reply.status, transactionId := r.1.transactionId)
  {
    if !Accepts(reply, inv.amount) then (false, inv)
    else (true, inv.(gatewayValId := valId, gatewayStatus := reply.status, status := Paid,
                     verified := Some(now), transactionId := ReceiptTransactionId(reply, inv.gatewayTranId)))
  }

  /** A stored amount of whole cents compares with itself: the invoice
      side of the amount test is the stored amount. */
  lemma AmountOkAgainstCents(amount: Option<Decimal>, cents: int)
    ensures AmountOk(amount, cents) <==> amount.Some? && amount.value.units >= 0 && Round2(amount.value) == cents
  {
    Round2OfCents(cents);
  }

  /** The status words are compared without regard to letter case. */
  lemma StatusCaseInsensitive()
    ensures StatusOk("VALID") && StatusOk("valid") && StatusOk("Validated")
    ensures CurrencyOk("BDT") && CurrencyOk("bdt") && CurrencyOk("")
  {
    assert ToLower("valid") == ToLower("VALID");
    assert ToLower("Validated") == ToLower("VALIDATED");
    assert ToLower("bdt") == ToLower("BDT");
  }

  /** A positive answer carrying the invoice's exact amount, written with
      any number of extra trailing zeros, is accepted with or without a
      currency. */
  lemma ExactAnswerAccepted(cents: nat, k: nat, status: string, currency: string, bank: string)
    requires StatusOk(status) && CurrencyOk(currency)
    ensures Accepts(Fields(status, currency, Some(Decimal(cents * Pow10(k), 2 + k)), bank), cents)
  {
    var x := Decimal(cents * Pow10(k), 2 + k);
    assert x.units >= 0;
    Round2OfPadded(cents, k);
    Round2OfCents(cents);
    assert AmountOk(Some(x), cents);
  }

  /** An amount that does not parse, or a negative one, is never accepted. */
  lemma BadAmountRejected(reply: ValidationReply, cents: int)
    requires reply.Fields? && (reply.amount.None? || reply.amount.value.units < 0)
    ensures !Accepts(reply, cents)
  {
  }

  /** Any status other than VALID or VALIDATED is refused, whatever the
      amount and currency. */
  lemma OtherStatusRejected(reply: ValidationReply, cents: int)
    requires reply.Fields? && ToLower(reply.status) != "valid" && ToLower(reply.status) != "validated"
    ensures !Accepts(reply, cents)
  {
    assert ToLower("VALID") == "valid";
    assert ToLower("VALIDATED") == "validated";
  }

  // ---------------------------------------------------------------------
  // Callbacks
  // ---------------------------------------------------------------------

  datatype SuccessOutcome = MissingIds | UnknownTransaction | ValidationFailed | PaymentConfirmed

  /** `Success`: the browser returns from the gateway with `tran_id` and
      `val_id`. The invoice holding that transaction id is validated; a
      failed validation only records "VALIDATION_FAILED". There is no
      check that the invoice is already paid. */
  function Success(invs: seq<Invoice>, tranId: string, valId: string, reply: ValidationReply, now: int)
    : (r: (SuccessOutcome, seq<Invoice>))
    ensures r.0 == MissingIds <==> IsBlank(tranId) || IsBlank(valId)
    ensures r.0 == UnknownTransaction <==> !IsBlank(tranId) && !IsBlank(valId) && FindByTranId(invs, tranId).None?
    ensures r.0 == MissingIds || r.0 == UnknownTransaction ==> r.1 == invs
    ensures r.0 == PaymentConfirmed || r.0 == ValidationFailed ==>
      var k := FindByTranId(invs, tranId).value;
      && (r.0 == PaymentConfirmed <==> Accepts(reply, invs[k].amount))
      && r.1 == invs[k := if r.0 == PaymentConfirmed then ValidateAndMarkPaid(invs[k], valId, reply, now).1
                         else invs[k].(gatewayStatus := "VALIDATION_FAILED")]
    ensures |r.1| == |invs|
    ensures forall j :: 0 <= j < |invs| ==> SameIdentity(invs[j], r.1[j])
  {
    if IsBlank(tranId) || IsBlank(valId) then (MissingIds, invs)
    else match FindByTranId(invs, tranId)
      case None => (UnknownTransaction, invs)
      case Some(k) =>
        var (ok, inv) := ValidateAndMarkPaid(invs[k], valId, reply, now);
        if ok then (PaymentConfirmed, invs[k := inv])
        else (ValidationFailed, invs[k := invs[k].(gatewayStatus := "VALIDATION_FAILED")])
  }

  /** `Fail` and `Cancel`: record `statusText` as the gateway status of the
      invoice holding a non-blank `tran_id`; nothing else changes. */
  function RecordGatewayStatus(invs: seq<Invoice>, tranId: string, statusText: string): (r: seq<Invoice>)
    ensures IsBlank(tranId) || FindByTranId(invs, tranId).None? ==> r == invs
    ensures !IsBlank(tranId) && FindByTranId(invs, tranId).Some? ==>
      var k := FindByTranId(invs, tranId).value;
      r == invs[k := invs[k].(gatewayStatus := statusText)]
    ensures |r| == |invs|
    ensures forall j :: 0 <= j < |invs| ==> SameIdentity(invs[j], r[j])
    ensures forall j :: 0 <= j < |invs| ==> r[j].status == invs[j].status && r[j].verified == invs[j].verified
  {
    if IsBlank(tranId) then invs
    else match FindByTranId(invs, tranId)
      case None => invs
      case Some(k) => invs[k := invs[k].(gatewayStatus := statusText)]
  }

  /** `Fail`: the invoice holding the non-blank `tran_id` gets the gateway
      status "FAILED"; every other row, and every status, stays. */
  function Fail(invs: seq<Invoice>, tranId: string): (r: seq<Invoice>)
    ensures |r| == |invs|
    ensures forall j :: 0 <= j < |invs| ==> SameIdentity(invs[j], r[j])
    ensures forall j :: 0 <= j < |invs| ==> r[j].status == invs[j].status
    ensures forall j :: 0 <= j < |invs| && (IsBlank(tranId) || invs[j].gatewayTranId != tranId) ==> r[j] == invs[j]
    ensures !IsBlank(tranId) && FindByTranId(invs, tranId).Some? ==>
      r[FindByTranId(invs, tranId).value] == invs[FindByTranId(invs, tranId).value].(gatewayStatus := "FAILED")
  {
    RecordGatewayStatus(invs, tranId, "FAILED")
  }

  /** `Cancel`: the same with the gateway status "CANCELLED". */
  function Cancel(invs: seq<Invoice>, tranId: string): (r: seq<Invoice>)
    ensures |r| == |invs|
    ensures forall j :: 0 <= j < |invs| ==> SameIdentity(invs[j], r[j])
    ensures forall j :: 0 <= j < |invs| ==> r[j].status == invs[j].status
    ensures forall j :: 0 <= j < |invs| && (IsBlank(tranId) || invs[j].gatewayTranId != tranId) ==> r[j] == invs[j]
    ensures !IsBlank(tranId) && FindByTranId(invs, tranId).Some? ==>
      r[FindByTranId(invs, tranId).value] == invs[FindByTranId(invs, tranId).value].(gatewayStatus := "CANCELLED")
  {
    RecordGatewayStatus(invs, tranId, "CANCELLED")
  }

  /** `IPN`: the gateway's server-to-server notice. It always answers OK;
      it validates only a known, not yet paid invoice, and a failed
      validation leaves that invoice untouched. */
  function Ipn(invs: seq<Invoice>, tranId: string, valId: string, reply: ValidationReply, now: int): (r: seq<Invoice>)
    ensures IsBlank(tranId) || IsBlank(valId) || FindByTranId(invs, tranId).None? ==> r == invs
    ensures !IsBlank(tranId) && !IsBlank(valId) && FindByTranId(invs, tranId).Some? ==>
      var k := FindByTranId(invs, tranId).value;
      && (invs[k].status == Paid || !Accepts(reply, invs[k].amount) ==> r == invs)
      && (invs[k].status != Paid && Accepts(reply, invs[k].amount) ==>
            r == invs[k := ValidateAndMarkPaid(invs[k], valId, reply, now).1])
    ensures |r| == |invs|
    ensures forall j :: 0 <= j < |invs| ==> SameIdentity(invs[j], r[j])
  {
    if IsBlank(tranId) || IsBlank(valId) then invs
    else match FindByTranId(invs, tranId)
      case None => invs
      case Some(k) =>
        if invs[k].status == Paid then invs
        else
          var (ok, inv) := ValidateAndMarkPaid(invs[k], valId, reply, now);
          if ok then invs[k := inv] else invs
  }

  /** A repeated notice for a paid invoice changes nothing. */
  lemma IpnOnPaidIsNoOp(invs: seq<Invoice>, tranId: string, valId: string, reply: ValidationReply, now: int)
    requires FindByTranId(invs, tranId).Some? && invs[FindByTranId(invs, tranId).value].status == Paid
    ensures Ipn(invs, tranId, valId, reply, now) == invs
  {
  }

  /** `Success` on an invoice that is already paid validates it again and,
      on a positive answer, overwrites its verification date. */
  lemma SuccessRestampsPaidInvoice(invs: seq<Invoice>, tranId: string, valId: string, reply: ValidationReply, now: int)
    requires !IsBlank(tranId) && !IsBlank(valId)
    requires FindByTranId(invs, tranId).Some?
    requires var k := FindByTranId(invs, tranId).value; invs[k].status == Paid && Accepts(reply, invs[k].amount)
    ensures var k := FindByTranId(invs, tranId).value;
      var r := Success(invs, tranId, valId, reply, now);
      r.0 == PaymentConfirmed && r.1[k].status == Paid && r.1[k].verified == Some(now)
  {
  }
}
