# Real-estate listing system: a Dafny model of its core

The system is an ASP.NET MVC site where sellers list properties, an
administrator approves them, buyers browse, save, chat and book viewings, and
a seller pays the site a commission when a listing sells. The payment goes
either online through the SSLCOMMERZ gateway or by hand with a proof image
that an administrator verifies.

This project models the logic behind those pages as pure functions over
immutable records. Each database table is a sequence of rows. Money is whole
cents, times are integer ticks and calendar dates are integer day numbers.

The centrepiece is the commission invoice. It is created when a listing is
marked sold and is then touched by:
- the gateway session start (`Init`);
- the validation decision (`ValidateAndMarkPaid`);
- the four gateway callbacks;
- the seller's manual submission;
- the administrator's approve and reject.

`Store` joins every write operation into one step function over the whole
database. It proves that each step keeps the keys and pricing rules the
schema relies on. It also proves that an invoice can only become Paid
through an accepted validation or an approval.

Modules:
- `Money`: half-to-even rounding, `Math.Round(_, 2)` and the commission amount.
- `Time`: day arithmetic.
- `Text`: trimming, case folding, substring search, ordinal ordering, `int.TryParse` and `Path.GetExtension`.
- `Seqs`: the LINQ operators used.
- `Invoices`: the invoice record, its status and payment-method values and its pricing rule.
- `Listings`: the listing lifecycle.
- `Images`: photo upload numbering.
- `Gateway`: online payment.
- `ManualPayment`: manual payment and the administrator's decision.
- `Wishlists`, `Appointments` and `Chat`.
- `Browse`: the home page, the buyer's search and the details page.
- `Reports`: the administrator's report page.
- `Store`: the database and the invariant.

The clock, GUIDs, the gateway's HTTP answers and the current user are
parameters.

## Model

| member | source | states |
|---|---|---|
| Money.RoundHalfEven | RealEstateSystem/Controllers/SellerPropertiesController.cs:106 | `Math.Round` on decimals rounds to the nearest value and sends ties to the even one (MidpointRounding.ToEven) |
| Money.HalfEvenRoundingUnique | RealEstateSystem/Controllers/SellerPropertiesController.cs:106 | the half-to-even rounding of a quotient is unique, so any two computations of a commission agree |
| Money.Round2 | RealEstateSystem/Controllers/SSLCommerzController.cs:395 | `Math.Round(x, 2)` of a decimal with any scale is the half-to-even rounding of x to cents |
| Money.Round2OfPadded | RealEstateSystem/Controllers/SSLCommerzController.cs:395 | an amount of whole cents written with extra trailing zeros rounds back to the same cents |
| Money.Commission | RealEstateSystem/Controllers/SellerPropertiesController.cs:106 | the commission is price × rate / 100 rounded half to even to cents, and is non-negative for a non-negative price and rate |
| Money.CommissionIsRound2 | RealEstateSystem/Controllers/SellerCommissionController.cs:80-81 | the cent arithmetic equals `Math.Round(price * (rate / 100m), 2)` taken on the exact four-decimal product |
| Money.Pow10Add | RealEstateSystem/Controllers/SSLCommerzController.cs:387-395 | the decimal scale law used to compare parsed gateway amounts of any scale |
| Time.WindowByDays | RealEstateSystem/Controllers/AdminReportsController.cs:29-44 | an instant lies between the start of one day and the end of another exactly when its day lies between them |
| Seqs.Filter | RealEstateSystem/Controllers/HomeController.cs:30-55 | `Where` keeps exactly the rows satisfying the condition, with their multiplicities |
| Seqs.FirstIndex | RealEstateSystem/Controllers/AdminCommissionController.cs:54-55 | `FirstOrDefault` finds the first matching row, and finds none only when no row matches |
| Seqs.Sort | RealEstateSystem/Controllers/HomeController.cs:58-60 | `OrderBy` returns a permutation of its input, sorted by the key order |
| Seqs.FilterSorted | RealEstateSystem/Controllers/BuyerAppointmentsController.cs:101-105 | a `Where` applied after an `OrderBy` keeps the order |
| Seqs.FilterFilter | RealEstateSystem/Controllers/BuyerPropertiesController.cs:68-104 | chained `Where` clauses filter by their conjunction |
| Seqs.SortWhere | RealEstateSystem/Controllers/BuyerPropertiesController.cs:68-111 | a filtered and ordered query holds exactly the matching rows, each in the table, sorted |
| Seqs.NextId | RealEstateSystem/Data/ApplicationDbContext.cs:60-62 | an identity column hands out a key no stored row has |
| Seqs.Page | RealEstateSystem/Controllers/HomeController.cs:69-71 | `Skip(n).Take(k)` is the slice from n of at most k rows, empty past the end |
| Text.Trim | RealEstateSystem/Hubs/ChatHub.cs:53 | `Trim()` gives a slice of the input with only white space before and after it, "" exactly for a blank text, and otherwise a text that neither starts nor ends with white space |
| Text.TrimIsTheInnerSlice | RealEstateSystem/Hubs/ChatHub.cs:53 | any slice with only white space around it and none at its own ends is what `Trim()` gives |
| Text.TrimIdempotent | RealEstateSystem/Hubs/ChatHub.cs:53-54 | trimming a trimmed text changes nothing |
| Text.LexLeqAntisymmetric | RealEstateSystem/Controllers/ChatApiController.cs:97-99 | the ordinal order on names is antisymmetric, so the name ordering is a total order |
| Text.NatToStringInjective | RealEstateSystem/Controllers/SSLCommerzController.cs:53 | distinct invoice ids print as distinct decimal numerals |
| Text.DigitsRoundTrip | RealEstateSystem/Controllers/SSLCommerzController.cs:53 | reading back a printed id gives the id |
| Text.ParseInt32 | RealEstateSystem/Controllers/AdminReportsController.cs:40-41 | a text `int.TryParse` accepts is white space, an optional sign, digits and white space, and the value is the signed digits, inside the 32-bit range |
| Text.ParseInt32Accepts | RealEstateSystem/Controllers/AdminReportsController.cs:40-41 | every such numeral whose value fits in 32 bits is accepted with that value |
| Text.ParseInt32OfNat | RealEstateSystem/Controllers/AdminReportsController.cs:40-41 | a printed range such as "7" or "365" parses to its value |
| Text.Extension | RealEstateSystem/Controllers/SellerPropertiesController.cs:444 | `Path.GetExtension` is the suffix from a '.' that is not the last character and has no dot or separator after it whenever such a '.' exists, and otherwise "" or such a suffix |
| Invoices.Blank | RealEstateSystem/Models/CommissionInvoice.cs:22-45 | a new invoice is Unpaid at 2%, with every text field "" and no submission or verification date |
| Invoices.ClampRate | RealEstateSystem/Controllers/SellerPropertiesController.cs:93-97 | the sale rate is the listing's own rate when it lies in [2, 5] and 2 otherwise, so it always lies in [2, 5] |
| Invoices.PricedAmountBounds | RealEstateSystem/Models/CommissionInvoice.cs:21-25 | a correctly priced invoice's amount lies between 2% and 5% of its price, to within half a cent |
| Invoices.FindByTranId | RealEstateSystem/Controllers/SSLCommerzController.cs:227-229 | the lookup by gateway transaction id finds a matching invoice, or reports that none matches |
| Listings.Create | RealEstateSystem/Controllers/SellerPropertiesController.cs:183-221 | a valid form creates an Available, Pending, unfeatured listing of the seller, not yet visible to buyers; an invalid form creates nothing |
| Listings.EditGate | RealEstateSystem/Controllers/SellerPropertiesController.cs:237-253 | the edit form opens only for the seller's own listing and never once it is Sold |
| Listings.SellerEdit | RealEstateSystem/Controllers/SellerPropertiesController.cs:282-324 | an edit copies the form into the seller's own unsold listing and stamps it, changes nothing else, and changes nothing at all when refused |
| Listings.AdminApprove | RealEstateSystem/Controllers/AdminPropertiesController.cs:102-109 | approval makes the listing Approved and Available whatever its status, a Sold one included; an unknown id changes nothing |
| Listings.AdminReject | RealEstateSystem/Controllers/AdminPropertiesController.cs:117-123 | rejection changes only the approval status, and the listing is then not active |
| Listings.AdminEdit | RealEstateSystem/Controllers/AdminPropertiesController.cs:170-202 | the administrator's edit is refused unchanged on an id mismatch, an invalid form (any blank text field, each being a required non-nullable string) or an unknown listing; otherwise every editable field is copied, status and approval included, with no transition check |
| Listings.AdminEditRefusesBlankText | RealEstateSystem/ViewModels/AdminPropertyEditViewModel.cs:13-35 | a blank description, address, city, area, state or zip code fails model validation, so the edit changes nothing |
| Listings.ActiveListings | RealEstateSystem/Controllers/AdminPropertiesController.cs:211-219 | the active listings are exactly the Available and Approved ones, newest first |
| Images.Accepted | RealEstateSystem/Controllers/SellerPropertiesController.cs:440-446 | only non-empty uploads whose lower-cased extension is .jpg, .jpeg, .png or .webp are stored |
| Images.MaxOrder | RealEstateSystem/Controllers/SellerPropertiesController.cs:435-438 | the nullable maximum display order of the listing's photos is None exactly when it has none, and otherwise bounds them and is attained |
| Images.SaveUploadedImagesAsWritten | RealEstateSystem/Controllers/SellerPropertiesController.cs:435-461 | the stored photos stay, and each accepted upload adds, in order, a photo of the listing with its URL, numbered from the current highest order (0 without one) upward, primary exactly when it is the first photo of a listing that had none |
| Images.SaveUploadedImagesKeepsOrdersDistinct | RealEstateSystem/Controllers/SellerPropertiesController.cs:435-461 | with numbering from one past the maximum, new photos take consecutive orders above every existing one, and a listing's orders stay distinct |
| Images.SaveUploadedImagesPrimary | RealEstateSystem/Controllers/SellerPropertiesController.cs:460 | a new photo is primary exactly when it is the first photo of a listing that had none |
| Images.AsWrittenRepeatsAnOrder | RealEstateSystem/Controllers/SellerPropertiesController.cs:435-461 | numbering as written gives a new photo the order of an existing photo whenever the listing already had photos |
| Images.AsWrittenExample | RealEstateSystem/Controllers/SellerPropertiesController.cs:435-461 | one stored photo at order 0 plus one upload named b.JPG gives two photos at order 0 |
| Images.AsWrittenIsCorrectedShifted | RealEstateSystem/Controllers/SellerPropertiesController.cs:435-461 | the numbering as written and the corrected one store the same rows, except that on a listing with photos each new order as written is one lower |
| Gateway.TranIdRoundTrip | RealEstateSystem/Controllers/SSLCommerzController.cs:53 | a transaction id "COMM_INV_{id}_…" names the invoice it was made for |
| Gateway.TranIdsDistinct | RealEstateSystem/Controllers/SSLCommerzController.cs:53 | transaction ids made for different invoices never coincide, whatever the random part |
| Gateway.Initiated | RealEstateSystem/Controllers/SSLCommerzController.cs:53-58 | starting a session sets a transaction id naming the invoice, clears the validation id and records "INITIATED", leaving status and pricing alone |
| Gateway.Init | RealEstateSystem/Controllers/SSLCommerzController.cs:33-208 | only an Unpaid or Rejected invoice is started; the new transaction id is saved even when the session cannot start; each failure (no settings, amount not positive, no JSON page URL) happens exactly when it is the first check to fail, and the redirect exactly when all pass; no status ever changes |
| Gateway.ReceiptTransactionId | RealEstateSystem/Controllers/SSLCommerzController.cs:401-414 | the receipt carries the bank's transaction id when the gateway gave a non-blank one, and the gateway's own id otherwise |
| Gateway.ValidateAndMarkPaid | RealEstateSystem/Controllers/SSLCommerzController.cs:345-418 | the invoice becomes Paid, stamped, with the validation id, status text and receipt id, exactly when status, amount and currency all pass; otherwise it is untouched |
| Gateway.AmountOkAgainstCents | RealEstateSystem/Controllers/SSLCommerzController.cs:395 | the amount test compares the paid amount, rounded to cents, with the stored cents |
| Gateway.StatusCaseInsensitive | RealEstateSystem/Controllers/SSLCommerzController.cs:390-393 | VALID and VALIDATED match in any letter case, and BDT in any case or a blank currency is accepted |
| Gateway.ExactAnswerAccepted | RealEstateSystem/Controllers/SSLCommerzController.cs:387-398 | a positive answer for the exact amount, written with any number of trailing zeros, is accepted with or without a currency |
| Gateway.OtherStatusRejected | RealEstateSystem/Controllers/SSLCommerzController.cs:390-391 | any other status text is refused whatever the amount and currency |
| Gateway.Success | RealEstateSystem/Controllers/SSLCommerzController.cs:214-246 | missing ids or an unknown transaction change nothing; a refused validation only records "VALIDATION_FAILED"; an accepted one pays the invoice, with no already-paid guard |
| Gateway.SuccessRestampsPaidInvoice | RealEstateSystem/Controllers/SSLCommerzController.cs:237 | a second success callback for a paid invoice validates again and overwrites its verification date |
| Gateway.RecordGatewayStatus | RealEstateSystem/Controllers/SSLCommerzController.cs:281-315 | fail and cancel write only the gateway status of the invoice holding a non-blank transaction id, and never its status or verification date |
| Gateway.Fail | RealEstateSystem/Controllers/SSLCommerzController.cs:281-296 | the invoice holding the non-blank transaction id gets the gateway status "FAILED" and nothing else; every other invoice and every status stays |
| Gateway.Cancel | RealEstateSystem/Controllers/SSLCommerzController.cs:300-315 | the invoice holding the non-blank transaction id gets the gateway status "CANCELLED" and nothing else; every other invoice and every status stays |
| Gateway.Ipn | RealEstateSystem/Controllers/SSLCommerzController.cs:321-342 | the notice validates only a known invoice that is not yet paid, and changes nothing otherwise |
| ManualPayment.ProofUrl | RealEstateSystem/Controllers/SellerCommissionController.cs:86-97 | the proof is stored as /uploads/commission/invoice_{id}_{guid} followed by the uploaded name's extension, directly in that folder when the GUID text has no separator |
| ManualPayment.WithSubmission | RealEstateSystem/Controllers/SellerCommissionController.cs:79-99 | a submission recomputes the amount from the stored price and the submitted rate; it records method, transaction id, proof and date, moves the invoice to PendingVerification and leaves the gateway fields alone |
| ManualPayment.SubmitPayment | RealEstateSystem/Controllers/SellerCommissionController.cs:62-101 | an invalid form (a rate outside [2, 5], a blank property title or transaction id, or no proof) or another seller's invoice changes nothing; otherwise the seller's own invoice takes the submission whatever its status |
| ManualPayment.SubmissionReopensPaidInvoice | RealEstateSystem/Controllers/SellerCommissionController.cs:70-99 | a paid invoice goes back to PendingVerification on a valid submission |
| ManualPayment.Receipt | RealEstateSystem/Controllers/SellerCommissionController.cs:145-165 | the receipt is shown exactly for the seller's own paid invoice |
| ManualPayment.Decide | RealEstateSystem/Controllers/AdminCommissionController.cs:52-97 | the evidently intended decision: it succeeds exactly on a PendingVerification invoice and sets its status, note and verification date and nothing else; an unknown or undecidable invoice is unchanged |
| ManualPayment.DecideAsWritten | RealEstateSystem/Controllers/AdminCommissionController.cs:52-97 | the decision as the controllers run it: when the intended decision would succeed but the note is blank, the note binds to null, the NOT NULL AdminNote column makes the save fail and nothing changes; otherwise it is the intended decision |
| ManualPayment.Approve | RealEstateSystem/Controllers/AdminCommissionController.cs:52-74 | an approval succeeds only with a non-blank note, leaving the invoice Paid with that note; the save fails exactly for a PendingVerification invoice and a blank note; a refused or failed one changes nothing |
| ManualPayment.Reject | RealEstateSystem/Controllers/AdminCommissionController.cs:79-101 | a rejection succeeds only with a non-blank note, leaving the invoice Rejected with that note; the save fails exactly for a PendingVerification invoice and a blank note; a refused or failed one changes nothing |
| ManualPayment.BlankNoteDecisionFails | RealEstateSystem/Migrations/20251228064725_AddCommissionInvoices.cs:31 | with a blank note, an approval or rejection of a pending invoice that the intended decision accepts fails to save, and the invoice stays PendingVerification |
| ManualPayment.BlankNoteRecorded | RealEstateSystem/Controllers/AdminCommissionController.cs:67 | the intended decision records an empty note as the empty text and still applies the verdict |
| ManualPayment.SecondDecisionRefused | RealEstateSystem/Controllers/AdminCommissionController.cs:60-66 | once approved or rejected, a second approve or reject of the same invoice is refused |
| Wishlists.Toggle | RealEstateSystem/Controllers/BuyerWishlistController.cs:97-123 | without a buyer nothing changes; a saved pair is removed; a pair not yet saved is added exactly when the listing exists, and otherwise the foreign key makes the save fail and nothing changes |
| Wishlists.ToggleFlipsMembership | RealEstateSystem/Controllers/BuyerWishlistController.cs:103-121 | a toggle flips the membership of exactly that (buyer, listing) pair, unless the save fails for an unknown listing, and keeps the table free of duplicates |
| Wishlists.ToggleTwiceRestores | RealEstateSystem/Controllers/BuyerWishlistController.cs:103-123 | on a table whose rows all name stored listings, as the foreign key keeps it, toggling the same listing twice restores the saved pairs |
| Wishlists.MineNewestFirst | RealEstateSystem/Controllers/BuyerWishlistController.cs:48-55 | the page's rows are exactly the buyer's own, most recently added first |
| Wishlists.WishlistPage | RealEstateSystem/Controllers/BuyerWishlistController.cs:57-89 | one card per row of the buyer's, in that order, each flagged as saved |
| Appointments.Book | RealEstateSystem/Controllers/BuyerAppointmentsController.cs:128-185 | the evidently intended booking: each refusal happens exactly when its check is the first to fail (unknown listing, unparsable time, a day before today, a slot the buyer already holds); a booking succeeds otherwise, and the new visit is Requested, date-only, takes the listing's seller and has no note when the message is blank; a refusal adds nothing |
| Appointments.BookAsWritten | RealEstateSystem/Controllers/BuyerAppointmentsController.cs:180-185 | the booking as the controller runs it: a booking the intended one accepts fails to save exactly when the message is blank, because the null note violates the NOT NULL Notes column; otherwise it is the intended booking, and a stored visit carries the message |
| Appointments.BlankMessageNeverBooks | RealEstateSystem/Migrations/20251120045153_DBC6.cs:259 | with a blank message no visit is ever stored, and a booking the intended one accepts ends in a failed save |
| Appointments.StatusOfCode | RealEstateSystem/Models/Enums.cs:72-79 | a status value is kept as it is, and is a declared member exactly when it lies in 1 to 5 |
| Appointments.StatusCodeRoundTrip | RealEstateSystem/Models/Enums.cs:72-79 | a status survives the trip through its integer value |
| Appointments.RebookingRefused | RealEstateSystem/Controllers/BuyerAppointmentsController.cs:156-170 | booking the same slot again is refused and adds nothing |
| Appointments.Cancel | RealEstateSystem/Controllers/BuyerAppointmentsController.cs:199-221 | the buyer cancels only their own visit, never a completed one, and an already cancelled one is restamped |
| Appointments.SellerPopupDistinct | RealEstateSystem/Controllers/SellerAppointmentsController.cs:62-89 | equal messages mean equal statuses, except that every undefined value shares the default message |
| Appointments.UpdateStatus | RealEstateSystem/Controllers/SellerAppointmentsController.cs:43-91 | the seller stores any posted value, a declared member or not, on a visit to their own listing, with no transition check, stamps it and changes nothing else; the default message is shown exactly for an undefined value; another seller's visit is not found and nothing changes |
| Appointments.SellerMayReopenCompleted | RealEstateSystem/Controllers/SellerAppointmentsController.cs:56-59 | a completed visit can be put back to Requested |
| Appointments.Timeline | RealEstateSystem/Controllers/BuyerAppointmentsController.cs:61-69 | the buyer's visits, exactly, by date then time |
| Appointments.Past | RealEstateSystem/Controllers/BuyerAppointmentsController.cs:107-111 | the past visits are the rest of the timeline after the upcoming ones, most recent first |
| Appointments.Schedule | RealEstateSystem/Controllers/BuyerAppointmentsController.cs:101-111 | upcoming (a later day, or today at or after now) and past split the buyer's visits disjointly and exhaustively, earliest-first and latest-first |
| Chat.PairKey | RealEstateSystem/Hubs/ChatHub.cs:57-58 | the conversation key is the pair ordered as (min, max) |
| Chat.SendMessage | RealEstateSystem/Hubs/ChatHub.cs:48-81 | without a session or with blank text nothing changes; otherwise one message with the trimmed text and a fresh id is appended to the pair's conversation, created with a fresh id only when missing; only that conversation's last-message time changes, and every other conversation and message stays |
| Chat.SendMessageKeepsWellFormed | RealEstateSystem/Data/ApplicationDbContext.cs:46-53 | sending keeps conversation pairs ordered and unique and every message filed under a stored conversation |
| Chat.ReplySharesConversation | RealEstateSystem/Hubs/ChatHub.cs:57-68 | a reply in the other direction lands in the same conversation and creates none |
| Chat.History | RealEstateSystem/Controllers/ChatApiController.cs:113-139 | without a session the answer is Unauthorized; with no conversation it is empty; otherwise it is exactly that conversation's messages, oldest first |
| Chat.HistorySymmetric | RealEstateSystem/Controllers/ChatApiController.cs:118-122 | the history of a pair is the same from either side |
| Chat.SentMessageInHistory | RealEstateSystem/Hubs/ChatHub.cs:70-81 | a sent message appears in both users' histories |
| Chat.OtherUser | RealEstateSystem/Controllers/ChatApiController.cs:30 | the contact is a member of the conversation, and not the user when the user is one of two distinct members |
| Chat.OtherUserOfBoth | RealEstateSystem/Controllers/ChatApiController.cs:30 | seen from either member, a conversation leads to the other one |
| Chat.Recent | RealEstateSystem/Controllers/ChatApiController.cs:25-38 | the user's conversations, exactly, most recent first |
| Chat.LastText | RealEstateSystem/Controllers/ChatApiController.cs:32-36 | the last message is "" for a conversation without messages, and otherwise the text of one of its messages with the latest sending time |
| Chat.JoinContacts | RealEstateSystem/Controllers/ChatApiController.cs:41-54 | the inner join gives, for every conversation and every user whose id is its other member, that user's row with the trimmed full name, the latest message text and the conversation time; every row is such a join; rows stay newest first |
| Chat.RecentContacts | RealEstateSystem/Controllers/ChatApiController.cs:25-54 | every stored conversation of the user whose other member exists gives its row, every row is one of those, and rows are newest first |
| Chat.SearchContacts | RealEstateSystem/Controllers/ChatApiController.cs:57-75 | the search lists, as trimmed full name with no message, exactly the users other than me whose lower-cased full name contains the lower-cased term |
| Chat.SearchRowsHaveNoMessage | RealEstateSystem/Controllers/ChatApiController.cs:62-71 | a search row never names the user and carries no message or time |
| Chat.Contacts | RealEstateSystem/Controllers/ChatApiController.cs:18-78 | Unauthorized without a session; for a blank term exactly the joined rows of the user's conversations, newest first; otherwise exactly the rows of the users the search finds |
| Chat.NameLeqIsTotalPreorder | RealEstateSystem/Controllers/ChatApiController.cs:97-99 | ordering by first then last name is a total preorder |
| Chat.AllUsers | RealEstateSystem/Controllers/ChatApiController.cs:80-110 | Unauthorized without a session; otherwise exactly the active users other than me that match the trimmed lower-cased term on name or email, by first then last name |
| Browse.GalleryOf | RealEstateSystem/Controllers/HomeController.cs:83-87 | a listing's photos, each as often as it is stored and nothing else, primary first, then by display order |
| Browse.Cover | RealEstateSystem/Controllers/HomeController.cs:83-87 | the cover is absent only for a listing without photos, and is a primary photo whenever the listing has one |
| Browse.HomeResults | RealEstateSystem/Controllers/HomeController.cs:30-60 | the home search finds exactly the non-removed, non-rejected listings matching the location, type and inclusive price bounds, featured first, then newest |
| Browse.TotalPages | RealEstateSystem/Controllers/HomeController.cs:62-64 | the page count is max(1, ceil(count / 6)) |
| Browse.ClampPage | RealEstateSystem/Controllers/HomeController.cs:66-67 | the requested page is clamped into [1, totalPages] |
| Browse.PagesUpToPrefix | RealEstateSystem/Controllers/HomeController.cs:69-71 | the first n pages, concatenated, are the first 6n results |
| Browse.HomePagesPartitionResults | RealEstateSystem/Controllers/HomeController.cs:62-71 | the pages together are exactly the sorted results |
| Browse.HomeIndex | RealEstateSystem/Controllers/HomeController.cs:20-104 | the home page shows the clamped page's slice of at most six matching listings, and a non-empty page whenever anything matches |
| Browse.ParseTypeFilter | RealEstateSystem/Controllers/BuyerPropertiesController.cs:87-91 | a blank text sets no filter; a type is selected exactly when the trimmed text is its name, or starts like a number and parses to its value; a number that is no type's value selects a type no listing has; anything else sets no filter |
| Browse.ParseTypeName | RealEstateSystem/Models/Enums.cs:31-37 | each type name parses back to its type |
| Browse.ParseTypeValue | RealEstateSystem/Models/Enums.cs:31-37 | each type's declared number parses back to its type |
| Browse.ParseUndefinedValue | RealEstateSystem/Controllers/BuyerPropertiesController.cs:87-91 | a 32-bit number above every declared value selects a type no listing has |
| Browse.BuyerResults | RealEstateSystem/Controllers/BuyerPropertiesController.cs:68-111 | the buyer's search finds exactly the Available and Approved listings matching location (not state), type, inclusive prices and positive minimum bedrooms, featured first, then newest |
| Browse.BuyerIndex | RealEstateSystem/Controllers/BuyerPropertiesController.cs:41-158 | without a buyer the page redirects; otherwise it shows the first min(50, found) results in order, flagged exactly when the buyer saved them |
| Browse.BuyerIndexShowsAllWhenFew | RealEstateSystem/Controllers/BuyerPropertiesController.cs:107-111 | when the search finds at most fifty listings, every one of them is shown |
| Browse.Details | RealEstateSystem/Controllers/BuyerPropertiesController.cs:162-191 | the details page shows any approved listing, sold ones included, with its photos by display order; others are not found |
| Reports.ResolveWindow | RealEstateSystem/Controllers/AdminReportsController.cs:29-44 | a custom window is taken only when both dates are given; otherwise it runs from today − days + 1 to the end of endDate or today |
| Reports.PreviousWindow | RealEstateSystem/Controllers/AdminReportsController.cs:161-163 | the previous window is as long and ends the day before the window starts |
| Reports.Revenue | RealEstateSystem/Controllers/AdminReportsController.cs:48-52 | revenue sums the amounts of invoices paid in the window; it is 0 when none was and never negative |
| Reports.RevenueOfAdjacent | RealEstateSystem/Controllers/AdminReportsController.cs:48-52 | the revenue of two adjacent windows adds up to that of their union |
| Reports.RevenueWithPrevious | RealEstateSystem/Controllers/AdminReportsController.cs:161-180 | a window's revenue and the previous window's add up to the revenue of both together |
| Reports.CountIn | RealEstateSystem/Controllers/AdminReportsController.cs:55-73 | an activity count is zero exactly when no listing's activity falls in the window |
| Reports.CountInSplit | RealEstateSystem/Controllers/AdminReportsController.cs:76-118 | a window's count is the sum of the counts of its two halves |
| Reports.WeeklyBuckets | RealEstateSystem/Controllers/AdminReportsController.cs:76-118 | weeks start at the window start in 7-day steps, each ends at the earlier of six days later and the window end, and together they cover the window without overlap |
| Reports.Conversion | RealEstateSystem/Controllers/AdminReportsController.cs:103-105 | a week's conversion is 0 when nothing was listed, otherwise sold × 100 / new rounded half to even, and within [0, 100] when no more were sold than listed; sales count by update date and new listings by creation date, so a week can exceed 100 |
| Reports.WeekLabelsDistinct | RealEstateSystem/Controllers/AdminReportsController.cs:109 | "Week n" labels are distinct |
| Reports.ColumnTotalOfContiguous | RealEstateSystem/Controllers/AdminReportsController.cs:76-118 | the weekly counts add up to the window's count |
| Reports.BestPeriod | RealEstateSystem/Controllers/AdminReportsController.cs:121-123 | the best week has the highest conversion, the earliest such week on a tie, and is "-" when there are no weeks |
| Reports.AvgDaysToSell | RealEstateSystem/Controllers/AdminReportsController.cs:126-138 | the average days to sell is 0 without sales and never negative |
| Reports.SalesByType | RealEstateSystem/Controllers/AdminReportsController.cs:141-153 | the sales of the four types add up to all sales |
| Reports.TopCategory | RealEstateSystem/Controllers/AdminReportsController.cs:141-153 | the top category is absent only without sales, and otherwise has at least as many sales as every type |
| Reports.ChangeHundredths | RealEstateSystem/Controllers/AdminReportsController.cs:182-190 | a change is 0 when the previous value is not positive, and otherwise the rounded relative change |
| Reports.ChangeSign | RealEstateSystem/Controllers/AdminReportsController.cs:182-190 | the change's sign follows the direction of change, and doubling shows +100% |
| Reports.WeeklyRows | RealEstateSystem/Controllers/AdminReportsController.cs:76-118 | row i is labelled "Week i+1" and holds the new, sold and cancelled counts of week i's bucket with their conversion; the columns add up to the window's counts |
| Reports.BuildReport | RealEstateSystem/Controllers/AdminReportsController.cs:21-190 | the report's headline figures are the window's counts and revenue, each row holds its week's counts, the rows add up to the headline counts, the average days to sell is that of all sales, and the changes compare with the previous window |
| Store.TranIdNamesItsInvoice | RealEstateSystem/Controllers/SSLCommerzController.cs:227-229 | a transaction id found on an invoice names that invoice, so callbacks act on the invoice the session was started for |
| Store.SaleInvoice | RealEstateSystem/Controllers/SellerPropertiesController.cs:100-113 | the sale invoice is Unpaid, priced at the clamped rate on the listing's price, with empty note, transaction id and proof |
| Store.MarkAsSold | RealEstateSystem/Controllers/SellerPropertiesController.cs:60-131 | only the seller's own Available listing becomes Sold and stamped; the invoice is added only when none exists; a failed save keeps neither change |
| Store.MarkAsSoldKeeps | RealEstateSystem/Data/ApplicationDbContext.cs:60-72 | selling keeps one invoice per listing, belonging to the listing's seller, correctly priced |
| Store.SecondSaleAddsNoInvoice | RealEstateSystem/Controllers/SellerPropertiesController.cs:87-89 | repeating a sale never creates a second invoice |
| Store.Delete | RealEstateSystem/Controllers/SellerPropertiesController.cs:376-424 | deleting removes the seller's own listing with its wishlist rows and photos; any other row referring to it makes the save fail and nothing changes |
| Store.DeleteKeeps | RealEstateSystem/Data/ApplicationDbContext.cs:276-279 | with restrict-delete keys nothing left refers to a removed listing |
| Store.StepKeepsWellFormed | RealEstateSystem/Data/ApplicationDbContext.cs:46-72 | every operation keeps ids unique, one invoice per listing, every invoice priced and naming itself in its transaction id, and every invoice, appointment, photo and wishlist row pointing at a stored listing |
| Store.Run | RealEstateSystem/Data/ApplicationDbContext.cs:46-72 | the invariant holds after any sequence of operations, and every stored invoice row stays, at its place, with its id, listing, seller, price and creation time |
| Store.Step | RealEstateSystem/Controllers/SellerPropertiesController.cs:100-117 | no operation removes or re-keys an invoice, only a sale adds invoices, and every new invoice is Unpaid |
| Store.PaidOnlyThroughValidationOrApproval | RealEstateSystem/Controllers/SSLCommerzController.cs:408 | an invoice becomes Paid only through an accepted validation of its own non-blank transaction id, or an approval of that PendingVerification invoice |
| Store.PaidInRunHasCause | RealEstateSystem/Controllers/AdminCommissionController.cs:60-66 | over any run, an invoice that ends Paid was paid by a step aimed at it: a success or notice for a transaction id naming it, or an approval of its id |

## Left out

- E-mail notifications, file writes, directory removal, HTTP calls to the gateway, JSON parsing, SignalR groups and broadcasting are I/O. The gateway's answers are parameters.
- Sessions, logins and redirects to the login page are out. The current user, seller or buyer is an argument, or `None` when absent.
- Concurrency is out. The Success/IPN race has no lock in the code; the model serves requests one at a time, and each save is one atomic step.
- Chat.SendMessage: the two saves (conversation, then message) are one step. The hub reads the clock twice, once for the message's sending time and once for the conversation's last-message time; the model takes one reading for both.
- Chat.LastText: when several messages share the latest sending time, the database may return any of them; the model promises only that the text is one of theirs.
- Text.ParseInt32: the grammar is that of the invariant culture. Trailing NUL characters, culture-specific sign symbols and the full set of Unicode white space and digits are not modelled.
- Appointments.UpdateStatus: the model takes the integer the form posts. The binding rules that turn the posted text into that integer, 0 for a value that does not bind, are not modelled.
- Text: letter case is folded on ASCII only, and substring tests are ordinal. The database's collation may compare case-insensitively or ignore trailing spaces in `Contains` and `OrderBy`; the model does not.
- Invoices.FindByTranId: compares transaction ids ordinally. The success, fail, cancel and notice lookups run in SQL under the column's collation, which may ignore letter case and trailing spaces, so a callback id that differs only in those may find an invoice the model does not. Store.TranIdNamesItsInvoice holds for the ordinal lookup only.
- Browse.ParseTypeFilter: the comma-separated flag form of `Enum.TryParse` is not modelled, and the name comparison is case-sensitive, like the default overload.
- Gateway.ValidateAndMarkPaid: the grammar of `decimal.TryParse` with `NumberStyles.Any` is not modelled. The parsed amount is an input, `None` when parsing fails.
- Appointments.Book: the grammar of `TimeSpan.TryParse` is not modelled. The parsed time is an input, `None` when parsing fails.
- Reports.Conversion: the source computes it in double floating point. The model rounds the exact ratio half to even to a whole percent.
- Reports.AvgDaysToSell: the source computes it in double floating point. The model rounds the exact ratio half to even to a whole number of days.
- Reports.ChangeHundredths: the source divides in 28-digit decimals. The model rounds the exact ratio half to even to hundredths of a percent.
- Reports.ResolveWindow: `DateTime` range limits, the exceptions `AddDays` raises outside them, and the overflow of `-days` are not modelled.
- Reports.TopCategory: the query runs in the database, whose order among equal counts is not specified. The model picks the first of the four types in declaration order.
- Seqs.Sort: it is stable, and so is LINQ's `OrderBy`. The database's order among equal keys is not specified, and the model does not state one.
- Seqs.NextId: identity values are only guaranteed fresh, not consecutive.
- The display-only fields of listings, view-model text (seller and buyer names, role and photo of a contact) and null photo collections are out.
- Store.Delete: the tables outside the model (inquiries, offers, analytics, documents) are one flag, `referencedElsewhere`.
- Prices are whole cents, the precision of the decimal(18,2) columns.

## Findings

| source | as written | input that shows it | evidently intended | confidence | as-written member | corrected member |
|---|---|---|---|---|---|---|
| RealEstateSystem/Controllers/SellerPropertiesController.cs:435-438,461 | new photos are numbered from the listing's current highest display order, so the first new photo reuses an order already taken | a listing with one photo at order 0 and one new upload "b.JPG": both photos end up at order 0 | numbering from one past the highest order, so a listing's display orders stay distinct | not executed | Images.AsWrittenRepeatsAnOrder | Images.SaveUploadedImagesKeepsOrdersDistinct |
| RealEstateSystem/Controllers/BuyerAppointmentsController.cs:180,185 | a blank message is stored as a null note, but the Notes column is NOT NULL (Migrations/20251120045153_DBC6.cs:259), so the save throws | a booking of a free future slot on a stored listing with the message "" or "  " | a visit stored with no note, or with an empty one | not executed | Appointments.BlankMessageNeverBooks | Appointments.Book |
| RealEstateSystem/Controllers/AdminCommissionController.cs:67,70,94,97 | a blank note binds to a null string parameter and is written to AdminNote, which is NOT NULL (Migrations/20251228064725_AddCommissionInvoices.cs:31), so the save throws | approving or rejecting a PendingVerification invoice with an empty note field | the verdict applied with an empty note | not executed | ManualPayment.BlankNoteDecisionFails | ManualPayment.BlankNoteRecorded |

The store runs every one of these as written: its create and edit steps number photos with `SaveUploadedImagesAsWritten`, a booking goes through `BookAsWritten` and an approval or rejection through `DecideAsWritten`. So every stored-state result holds for the code as it stands. `SaveUploadedImages`, `Book` and `Decide` are the corrected definitions; `AsWrittenIsCorrectedShifted` states exactly how the two numberings differ, and `BookAsWritten` and `DecideAsWritten` state that they differ from the corrected ones only by the failed save on a blank text.
