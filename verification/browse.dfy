/** The public listing pages. The landing page filters the listings that
    are neither removed nor rejected, puts featured ones first and then the
    newest, and shows them six to a page. The buyer's browse page shows at
    most fifty available, approved listings in the same order, each flagged
    when the buyer has saved it; the buyer's details page shows any
    approved listing. */
module Browse {
  import opened Wrappers
  import opened Text
  import opened Seqs
  import opened Listings
  import opened Images
  import Wishlists

  // ---------------------------------------------------------------------
  // Shared ordering and cover photo
  // ---------------------------------------------------------------------

  /** `OrderByDescending(p => p.IsFeatured).ThenByDescending(p => p.CreatedDate)`. */
  predicate FeaturedThenNewest(a: Property, b: Property) {
    if a.isFeatured != b.isFeatured then a.isFeatured else a.created >= b.created
  }

  lemma FeaturedThenNewestIsTotalPreorder()
    ensures IsTotalPreorder(FeaturedThenNewest)
  {
  }

  /** `OrderByDescending(i => i.IsPrimary).ThenBy(i => i.DisplayOrder)`. */
  predicate PrimaryThenOrder(a: Image, b: Image) {
    if a.isPrimary != b.isPrimary then a.isPrimary else a.displayOrder <= b.displayOrder
  }

  lemma PrimaryThenOrderIsTotalPreorder()
    ensures IsTotalPreorder(PrimaryThenOrder)
  {
  }

  /** The photos of one listing, each as often as it is stored, primary
      first, then by display order. */
  function GalleryOf(images: seq<Image>, propertyId: nat): (r: seq<Image>)
    ensures forall i :: i in r <==> i in images && i.propertyId == propertyId
    ensures forall i :: multiset(r)[i] == if i.propertyId == propertyId then multiset(images)[i] else 0
    ensures SortedBy(r, PrimaryThenOrder)
  {
    var mine := Filter(images, (i: Image) => i.propertyId == propertyId);
    PrimaryThenOrderIsTotalPreorder();
    var r := Sort(mine, PrimaryThenOrder);
    forall i ensures i in r <==> i in images && i.propertyId == propertyId {
      FilterMembers(images, (i: Image) => i.propertyId == propertyId, i);
      assert i in r <==> i in multiset(r);
      assert i in mine <==> i in multiset(mine);
    }
    r
  }

  /** The cover photo of a listing: a primary photo when it has one, and
      among those the lowest display order; none for a listing without
      photos. */
  function Cover(images: seq<Image>, propertyId: nat): (r: Option<Image>)
    ensures r.None? <==> forall i :: i in images ==> i.propertyId != propertyId
    ensures r.Some? ==> r.value in images && r.value.propertyId == propertyId
    ensures r.Some? ==> forall i :: i in images && i.propertyId == propertyId ==> PrimaryThenOrder(r.value, i)
    ensures r.Some? && (exists i :: i in images && i.propertyId == propertyId && i.isPrimary) ==> r.value.isPrimary
  {
    var g := GalleryOf(images, propertyId);
    if |g| == 0 then None
    else
      assert g[0] in g;
      forall i | i in images && i.propertyId == propertyId ensures PrimaryThenOrder(g[0], i) {
        assert i in g;
        var k :| 0 <= k < |g| && g[k] == i;
        if k > 0 { assert PrimaryThenOrder(g[0], g[k]); }
      }
      Some(g[0])
  }

  // ---------------------------------------------------------------------
  // Landing page
  // ---------------------------------------------------------------------

  const HomePageSize: nat := 6

  /** The search form of the landing page; prices are in cents. */
  datatype HomeQuery = HomeQuery(
    location: string,
    propertyType: Option<PropertyType>,
    minPrice: Option<int>,
    maxPrice: Option<int>,
    page: int)

  /** Neither removed by its seller nor rejected by an administrator. */
  predicate OnHomePage(p: Property) {
    p.status != Removed && p.approval != Rejected
  }

  /** The inclusive price bounds; an absent bound does not filter. */
  predicate InPriceRange(p: Property, minPrice: Option<int>, maxPrice: Option<int>) {
    (minPrice.None? || p.details.price >= minPrice.value) && (maxPrice.None? || p.details.price <= maxPrice.value)
  }

  /** The trimmed term in the city, state, area or address. */
  predicate HomeLocationMatches(p: Property, location: string) {
    var term := Trim(location);
    IsBlank(location)
      || Contains(p.details.city, term) || Contains(p.details.state, term)
      || Contains(p.details.area, term) || Contains(p.details.address, term)
  }

  predicate HomeMatches(q: HomeQuery, p: Property) {
    && OnHomePage(p)
    && HomeLocationMatches(p, q.location)
    && (q.propertyType.None? || p.details.propertyType == q.propertyType.value)
    && InPriceRange(p, q.minPrice, q.maxPrice)
  }

  /** Every listing the search finds, featured first, then newest. */
  function HomeResults(props: seq<Property>, q: HomeQuery): (r: seq<Property>)
    ensures forall p :: p in r <==> p in props && HomeMatches(q, p)
    ensures forall i :: 0 <= i < |r| ==> r[i] in props && HomeMatches(q, r[i])
    ensures multiset(r) == multiset(Filter(props, p => HomeMatches(q, p)))
    ensures |r| == |Filter(props, p => HomeMatches(q, p))|
    ensures SortedBy(r, FeaturedThenNewest)
  {
    FeaturedThenNewestIsTotalPreorder();
    SortWhere(props, p => HomeMatches(q, p), FeaturedThenNewest)
  }


  /** `max(1, ceil(count / 6))`: the fewest pages that hold `count`
      listings, and never none. */
  function TotalPages(count: nat): (r: nat)
    ensures r >= 1
    ensures count <= r * HomePageSize
    ensures r == 1 || (r - 1) * HomePageSize < count
  {
    if count == 0 then 1 else (count + HomePageSize - 1) / HomePageSize
  }

  /** The requested page moved into `[1, total]`. */
  function ClampPage(page: int, total: nat): (r: nat)
    requires total >= 1
    ensures 1 <= r <= total
    ensures 1 <= page <= total ==> r == page
    ensures page < 1 ==> r == 1
    ensures page > total ==> r == total
  {
    if page < 1 then 1 else if page > total then total else page
  }

  /** Page `n` (from 1) of `s`, `pageSize` to a page. */
  function PageOf<T>(s: seq<T>, n: nat, pageSize: nat): seq<T>
    requires n >= 1
  {
    Page(s, (n - 1) * pageSize, pageSize)
  }

  /** Page `n` holds the items from position `(n - 1) * pageSize` on, and
      is not empty while that position is inside `s`. */
  lemma PageOfItems<T>(s: seq<T>, n: nat, pageSize: nat)
    requires n >= 1
    ensures var pg := PageOf(s, n, pageSize);
      && |pg| <= pageSize
      && (forall i :: 0 <= i < |pg| ==> (n - 1) * pageSize + i < |s| && pg[i] == s[(n - 1) * pageSize + i])
      && ((n - 1) * pageSize < |s| && pageSize > 0 ==> |pg| > 0)
  {
  }

  /** Pages 1 to `n` of `s`, one after another. */
  function PagesUpTo<T>(s: seq<T>, n: nat, pageSize: nat): seq<T> {
    if n == 0 then [] else PagesUpTo(s, n - 1, pageSize) + PageOf(s, n, pageSize)
  }

  /** The first `n` pages hold the first `n * pageSize` items. */
  lemma {:induction false} PagesUpToPrefix<T>(s: seq<T>, n: nat, pageSize: nat)
    ensures PagesUpTo(s, n, pageSize) == s[..if n * pageSize <= |s| then n * pageSize else |s|]
  {
    if n > 0 {
      PagesUpToPrefix(s, n - 1, pageSize);
      var lo := (n - 1) * pageSize;
      assert n * pageSize == lo + pageSize;
      if lo <= |s| {
        var hi := if lo + pageSize <= |s| then lo + pageSize else |s|;
        assert s[..lo] + s[lo..hi] == s[..hi];
      }
    }
  }

  /** Read page by page, the landing page shows every listing the search
      finds exactly once and in order. */
  lemma HomePagesPartitionResults(props: seq<Property>, q: HomeQuery)
    ensures var r := HomeResults(props, q);
      PagesUpTo(r, TotalPages(|r|), HomePageSize) == r
  {
    var r := HomeResults(props, q);
    PagesUpToPrefix(r, TotalPages(|r|), HomePageSize);
  }

  /** A card on the landing page. */
  datatype HomeCard = HomeCard(
    propertyId: nat,
    price: int,
    bedrooms: Option<int>,
    bathrooms: Option<int>,
    city: string,
    state: string,
    area: string,
    primaryImageUrl: Option<string>)

  function HomeCardOf(p: Property, images: seq<Image>): HomeCard {
    var cover := Cover(images, p.id);
    HomeCard(p.id, p.details.price, p.details.bedrooms, p.details.bathrooms,
      p.details.city, p.details.state, p.details.area,
      if cover.Some? then Some(cover.value.url) else None)
  }

  datatype HomeView = HomeView(page: nat, pageSize: nat, totalPages: nat, cards: seq<HomeCard>)

  /** `Home/Index`: the requested page, clamped into range, of the search
      results. The page is never empty while the search finds anything. */
  function HomeIndex(props: seq<Property>, images: seq<Image>, q: HomeQuery): (v: HomeView)
    ensures var r := HomeResults(props, q);
      && v.totalPages == TotalPages(|r|)
      && 1 <= v.page <= v.totalPages
      && (1 <= q.page <= v.totalPages ==> v.page == q.page)
      && v.pageSize == HomePageSize
      && |v.cards| <= HomePageSize
      && (|r| > 0 ==> |v.cards| > 0)
      && var shown := PageOf(r, v.page, HomePageSize);
      && |v.cards| == |shown|
      && forall i :: 0 <= i < |v.cards| ==> v.cards[i] == HomeCardOf(shown[i], images) && shown[i] in props && HomeMatches(q, shown[i])
  {
    var r := HomeResults(props, q);
    var total := TotalPages(|r|);
    var page := ClampPage(q.page, total);
    var shown := PageOf(r, page, HomePageSize);
    PageOfItems(r, page, HomePageSize);
    assert (page - 1) * HomePageSize <= (total - 1) * HomePageSize;
    HomeView(page, HomePageSize, total, seq(|shown|, i requires 0 <= i < |shown| => HomeCardOf(shown[i], images)))
  }

  // ---------------------------------------------------------------------
  // Buyer browse page
  // ---------------------------------------------------------------------

  const BrowseLimit: nat := 50

  /** The buyer's search form: the type is the raw query-string text. */
  datatype BuyerQuery = BuyerQuery(
    location: string,
    propertyType: string,
    minPrice: Option<int>,
    maxPrice: Option<int>,
    minBedrooms: Option<int>)

  /** The declared name of each property type. */
  function TypeName(t: PropertyType): string {
    match t
    case Apartment => "Apartment"
    case House => "House"
    case Commercial => "Commercial"
    case Land => "Land"
  }

  /** The declared value of each property type. */
  function TypeValue(t: PropertyType): int {
    match t
    case Apartment => 1
    case House => 2
    case Commercial => 3
    case Land => 4
  }

  /** What `Enum.TryParse<PropertyType>` makes of the text: nothing, a
      declared member, or a number no member has (which matches no
      listing). */
  datatype TypeFilter = NoTypeFilter | OnlyType(t: PropertyType) | NoSuchType

  function TypeOfValue(n: int): (r: Option<PropertyType>)
    ensures r.Some? ==> TypeValue(r.value) == n
    ensures r.None? <==> !(1 <= n <= 4)
  {
    if n == 1 then Some(Apartment)
    else if n == 2 then Some(House)
    else if n == 3 then Some(Commercial)
    else if n == 4 then Some(Land)
    else None
  }

  /** `Enum.TryParse` reads a text starting with a digit or a sign as a
      number. */
  predicate NumericStart(t: string) {
    |t| > 0 && (IsDigit(t[0]) || t[0] == '-' || t[0] == '+')
  }

  /** The member whose declared name is exactly `t`. */
  function TypeOfName(t: string): (r: Option<PropertyType>)
    ensures forall x :: r == Some(x) <==> t == TypeName(x)
  {
    if t == "Apartment" then Some(Apartment)
    else if t == "House" then Some(House)
    else if t == "Commercial" then Some(Commercial)
    else if t == "Land" then Some(Land)
    else None
  }

  /** `Enum.TryParse` on a trimmed, non-blank text. */
  function ParseTrimmedType(t: string): (r: TypeFilter)
    ensures forall x :: r == OnlyType(x) <==>
      if NumericStart(t) then ParseInt32(t) == Some(TypeValue(x)) else t == TypeName(x)
    ensures r == NoSuchType <==> NumericStart(t) && ParseInt32(t).Some? && !(1 <= ParseInt32(t).value <= 4)
  {
    if NumericStart(t) then NumberType(ParseInt32(t))
    else
      match TypeOfName(t)
      case Some(pt) => OnlyType(pt)
      case None => NoTypeFilter
  }

  /** The filter for a parsed number: the member with that value, a type
      no listing has, or none when the text was not a 32-bit number. */
  function NumberType(n: Option<int>): (r: TypeFilter)
    ensures forall x :: r == OnlyType(x) <==> n == Some(TypeValue(x))
    ensures r == NoSuchType <==> n.Some? && !(1 <= n.value <= 4)
  {
    match n
    case None => NoTypeFilter
    case Some(v) =>
      match TypeOfValue(v)
      case Some(pt) => OnlyType(pt)
      case None => NoSuchType
  }

  /** `Enum.TryParse`: after trimming, a text starting with a digit or a
      sign is read as a number, anything else must be a member's exact
      name. A blank or unparsable text sets no filter; a number no member
      has is accepted and matches nothing. */
  function ParseTypeFilter(s: string): (r: TypeFilter)
    ensures IsBlank(s) ==> r == NoTypeFilter
    ensures forall t :: r == OnlyType(t) <==>
      !IsBlank(s) && (if NumericStart(Trim(s)) then ParseInt32(Trim(s)) == Some(TypeValue(t)) else Trim(s) == TypeName(t))
    ensures r == NoSuchType <==>
      !IsBlank(s) && NumericStart(Trim(s)) && ParseInt32(Trim(s)).Some? && !(1 <= ParseInt32(Trim(s)).value <= 4)
  {
    if IsBlank(s) then NoTypeFilter else ParseTrimmedType(Trim(s))
  }

  /** A printed number is its own trim and is not blank. */
  lemma NumeralIsTrimmed(n: nat)
    ensures !IsBlank(NatToString(n)) && Trim(NatToString(n)) == NatToString(n)
    ensures NumericStart(NatToString(n))
  {
    var s := NatToString(n);
    assert IsDigit(s[0]) && IsDigit(s[|s| - 1]);
    assert !IsWhiteSpace(s[0]);
    TrimWithNoEdges(s, IsWhiteSpace);
  }

  /** Every member's declared value selects that member. */
  lemma ParseTypeValue(t: PropertyType)
    ensures ParseTypeFilter(NatToString(TypeValue(t) as nat)) == OnlyType(t)
  {
    var n := TypeValue(t) as nat;
    NumeralIsTrimmed(n);
    ParseInt32OfNat(n);
  }

  /** A number no member has is accepted as a type that no listing has. */
  lemma ParseUndefinedValue(n: nat)
    requires 4 < n <= Int32Max
    ensures ParseTypeFilter(NatToString(n)) == NoSuchType
  {
    NumeralIsTrimmed(n);
    ParseInt32OfNat(n);
  }

  /** Every member's own name selects that member. */
  lemma ParseTypeName(t: PropertyType)
    ensures ParseTypeFilter(TypeName(t)) == OnlyType(t)
  {
    var s := TypeName(t);
    assert !IsWhiteSpace(s[0]) && !IsWhiteSpace(s[|s| - 1]) && !NumericStart(s);
    TrimWithNoEdges(s, IsWhiteSpace);
    assert Trim(s) == s && !IsBlank(s);
    assert ParseTrimmedType(s) == OnlyType(t);
  }

  /** Available and approved. */
  predicate OnBrowsePage(p: Property) {
    p.status == Available && p.approval == Approved
  }

  /** The trimmed, lower-cased term in the lower-cased city, area or
      address (the state is not searched). */
  predicate BuyerLocationMatches(p: Property, location: string) {
    var term := ToLower(Trim(location));
    IsBlank(location)
      || Contains(ToLower(p.details.city), term)
      || Contains(ToLower(p.details.area), term)
      || Contains(ToLower(p.details.address), term)
  }

  predicate TypeMatches(f: TypeFilter, p: Property) {
    match f
    case NoTypeFilter => true
    case OnlyType(t) => p.details.propertyType == t
    case NoSuchType => false
  }

  /** A positive minimum bedroom count; a listing without a count has none. */
  predicate EnoughBedrooms(p: Property, minBedrooms: Option<int>) {
    minBedrooms.None? || minBedrooms.value <= 0 || p.details.bedrooms.GetOr(0) >= minBedrooms.value
  }

  predicate BuyerMatches(q: BuyerQuery, p: Property) {
    && OnBrowsePage(p)
    && BuyerLocationMatches(p, q.location)
    && TypeMatches(ParseTypeFilter(q.propertyType), p)
    && InPriceRange(p, q.minPrice, q.maxPrice)
    && EnoughBedrooms(p, q.minBedrooms)
  }

  /** Every listing the buyer's search finds, featured first, then newest. */
  function BuyerResults(props: seq<Property>, q: BuyerQuery): (r: seq<Property>)
    ensures forall p :: p in r <==> p in props && BuyerMatches(q, p)
    ensures forall i :: 0 <= i < |r| ==> r[i] in props && BuyerMatches(q, r[i])
    ensures multiset(r) == multiset(Filter(props, p => BuyerMatches(q, p)))
    ensures |r| == |Filter(props, p => BuyerMatches(q, p))|
    ensures SortedBy(r, FeaturedThenNewest)
  {
    FeaturedThenNewestIsTotalPreorder();
    SortWhere(props, p => BuyerMatches(q, p), FeaturedThenNewest)
  }


  /** The buyer saved the listing (the controller's id set of the
      buyer's wishlist rows). */
  predicate IsSaved(ws: seq<Wishlists.Entry>, buyerId: nat, p: Property) {
    Wishlists.FindEntry(ws, buyerId, p.id).Some?
  }

  /** A card on the browse page: the listing, its cover photo (or the
      placeholder), its gallery and whether the buyer saved it. */
  datatype BrowseCard = BrowseCard(property: Property, primaryImageUrl: string, gallery: seq<string>, isInWishlist: bool)

  const Placeholder: string := "/images/property-placeholder.jpg"

  function BrowseCardOf(p: Property, images: seq<Image>, ws: seq<Wishlists.Entry>, buyerId: nat): BrowseCard {
    var g := GalleryOf(images, p.id);
    BrowseCard(p, if |g| > 0 then g[0].url else Placeholder,
      seq(|g|, i requires 0 <= i < |g| => g[i].url), IsSaved(ws, buyerId, p))
  }

  function BrowseCards(shown: seq<Property>, images: seq<Image>, ws: seq<Wishlists.Entry>, buyerId: nat): (cards: seq<BrowseCard>)
    ensures |cards| == |shown|
    ensures forall i :: 0 <= i < |shown| ==> cards[i].property == shown[i] && (cards[i].isInWishlist <==> IsSaved(ws, buyerId, shown[i]))
  {
    seq(|shown|, i requires 0 <= i < |shown| => BrowseCardOf(shown[i], images, ws, buyerId))
  }

  /** The first `n` search results as browse cards. */
  function FirstCards(found: seq<Property>, n: nat, images: seq<Image>, ws: seq<Wishlists.Entry>, buyerId: nat): (cards: seq<BrowseCard>)
    requires n <= |found|
    ensures |cards| == n
    ensures forall i :: 0 <= i < n ==> cards[i].property == found[i] && (cards[i].isInWishlist <==> IsSaved(ws, buyerId, found[i]))
  {
    var shown := found[..n];
    assert forall i :: 0 <= i < n ==> shown[i] == found[i];
    BrowseCards(shown, images, ws, buyerId)
  }

  /** `BuyerProperties/Index`: without a buyer the page redirects to the
      login (`None`); otherwise the first fifty listings the search finds,
      each flagged exactly when the buyer saved it. */
  function BuyerIndex(props: seq<Property>, images: seq<Image>, ws: seq<Wishlists.Entry>, buyer: Option<nat>, q: BuyerQuery): (r: Option<seq<BrowseCard>>)
    ensures r.None? <==> buyer.None?
    ensures r.Some? ==> var found := BuyerResults(props, q);
      |r.value| == (if |found| <= BrowseLimit then |found| else BrowseLimit)
    ensures r.Some? ==> var found := BuyerResults(props, q);
      forall i :: 0 <= i < |r.value| ==> r.value[i].property == found[i]
    ensures r.Some? ==> var found := BuyerResults(props, q);
      forall i :: 0 <= i < |r.value| ==> (r.value[i].isInWishlist <==> IsSaved(ws, buyer.value, found[i]))
  {
    match buyer
    case None => None
    case Some(b) =>
      var found := BuyerResults(props, q);
      var n := if |found| <= BrowseLimit then |found| else BrowseLimit;
      Some(FirstCards(found, n, images, ws, b))
  }

  /** The position of a member of `s`. */
  function PositionOf<T(==)>(s: seq<T>, x: T): (i: nat)
    requires x in s
    ensures i < |s| && s[i] == x
  {
    if s[0] == x then 0 else 1 + PositionOf(s[1..], x)
  }

  /** When the search finds fifty listings or fewer, the page shows every
      one of them. */
  lemma BuyerIndexShowsAllWhenFew(props: seq<Property>, images: seq<Image>, ws: seq<Wishlists.Entry>, buyerId: nat, q: BuyerQuery, p: Property)
    requires p in props && BuyerMatches(q, p)
    requires |Filter(props, p => BuyerMatches(q, p))| <= BrowseLimit
    ensures var cards := BuyerIndex(props, images, ws, Some(buyerId), q).value;
      exists i :: 0 <= i < |cards| && cards[i].property == p
  {
    var found := BuyerResults(props, q);
    var i := PositionOf(found, p);
    var cards := BuyerIndex(props, images, ws, Some(buyerId), q).value;
    assert |cards| == |found|;
    assert cards[i].property == p;
  }

  /** The buyer's details page. */
  datatype DetailsOutcome = DetailsLogin | DetailsNotFound | DetailsShown(property: Property, gallery: seq<Image>)

  /** `OrderBy(i => i.DisplayOrder).ThenByDescending(i => i.IsPrimary)`. */
  predicate OrderThenPrimary(a: Image, b: Image) {
    if a.displayOrder != b.displayOrder then a.displayOrder < b.displayOrder else a.isPrimary || !b.isPrimary
  }

  lemma OrderThenPrimaryIsTotalPreorder()
    ensures IsTotalPreorder(OrderThenPrimary)
  {
  }

  /** `BuyerProperties/Details`: the approved listing with that id, whatever
      its sale status, with its photos by display order. */
  function Details(props: seq<Property>, images: seq<Image>, buyer: Option<nat>, id: int): (r: DetailsOutcome)
    ensures r == DetailsLogin <==> buyer.None?
    ensures r == DetailsNotFound <==>
      buyer.Some? && forall k :: 0 <= k < |props| ==> !(props[k].id == id && props[k].approval == Approved)
    ensures r.DetailsShown? ==>
      && r.property in props && r.property.id == id && r.property.approval == Approved
      && (forall i :: i in r.gallery <==> i in images && i.propertyId == r.property.id)
      && SortedBy(r.gallery, OrderThenPrimary)
  {
    if buyer.None? then DetailsLogin
    else
      match FirstIndex(props, (p: Property) => p.id == id && p.approval == Approved)
      case None => DetailsNotFound
      case Some(k) =>
        var p := props[k];
        var mine := Filter(images, (i: Image) => i.propertyId == p.id);
        OrderThenPrimaryIsTotalPreorder();
        var g := Sort(mine, OrderThenPrimary);
        forall i ensures i in g <==> i in images && i.propertyId == p.id {
          FilterMembers(images, (i: Image) => i.propertyId == p.id, i);
          assert i in g <==> i in multiset(g);
          assert i in mine <==> i in multiset(mine);
        }
        DetailsShown(p, g)
  }

  /** The details page shows a sold listing that the browse page never
      lists. */
  lemma DetailsShowsSoldListing(p: Property, images: seq<Image>, buyerId: nat, q: BuyerQuery)
    requires p.approval == Approved && p.status == Sold
    ensures Details([p], images, Some(buyerId), p.id).DetailsShown?
    ensures BuyerResults([p], q) == []
  {
  }
}
