/** A buyer's wishlist: one row per saved listing. `Toggle` saves a listing
    that is not saved and removes it when it is; the wishlist page lists
    the buyer's rows, most recently added first. */
module Wishlists {
  import opened Wrappers
  import opened Seqs
  import Listings

  datatype Entry = Entry(buyerId: nat, propertyId: int, added: int)

  /** `FirstOrDefault(w => w.BuyerId == buyerId && w.PropertyId == propertyId)`. */
  function FindEntry(ws: seq<Entry>, buyerId: nat, propertyId: int): (r: Option<nat>)
    ensures r.Some? ==> r.value < |ws| && ws[r.value].buyerId == buyerId && ws[r.value].propertyId == propertyId
    ensures r.None? <==> forall k :: 0 <= k < |ws| ==> !(ws[k].buyerId == buyerId && ws[k].propertyId == propertyId)
  {
    FirstIndex(ws, (w: Entry) => w.buyerId == buyerId && w.propertyId == propertyId)
  }

  /** The (buyer, listing) pairs the table holds. */
  function Saved(ws: seq<Entry>): set<(nat, int)> {
    set k | 0 <= k < |ws| :: (ws[k].buyerId, ws[k].propertyId)
  }

  /** No pair is saved twice. */
  predicate NoDuplicates(ws: seq<Entry>) {
    forall i, j :: 0 <= i < j < |ws| ==> (ws[i].buyerId, ws[i].propertyId) != (ws[j].buyerId, ws[j].propertyId)
  }

  /** Removes the row at `k`. */
  function RemoveAt(ws: seq<Entry>, k: nat): (r: seq<Entry>)
    requires k < |ws|
    ensures |r| == |ws| - 1
    ensures forall j :: 0 <= j < k ==> r[j] == ws[j]
    ensures forall j :: k <= j < |r| ==> r[j] == ws[j + 1]
  {
    ws[..k] + ws[k + 1..]
  }

  datatype ToggleOutcome = LoginRequired | SaveFailed | Added | Removed

  /** `Toggle`: adds the pair when the buyer has not saved the listing and
      removes the saved row otherwise. Without a buyer session nothing
      changes. The posted id is not checked, so a new row for a listing
      that is not stored breaks the foreign key on `PropertyId`: the save
      fails and nothing changes. */
  function Toggle(ws: seq<Entry>, props: seq<Listings.Property>, buyer: Option<nat>, propertyId: int, now: int)
    : (r: (ToggleOutcome, seq<Entry>))
    ensures buyer.None? <==> r.0 == LoginRequired
    ensures r.0 == LoginRequired || r.0 == SaveFailed ==> r.1 == ws
    ensures r.0 == SaveFailed <==>
      buyer.Some? && FindEntry(ws, buyer.value, propertyId).None? && Listings.FindProperty(props, propertyId).None?
    ensures r.0 == Added <==>
      buyer.Some? && FindEntry(ws, buyer.value, propertyId).None? && Listings.FindProperty(props, propertyId).Some?
    ensures r.0 == Added ==> r.1 == ws + [Entry(buyer.value, propertyId, now)]
    ensures r.0 == Removed ==> r.1 == RemoveAt(ws, FindEntry(ws, buyer.value, propertyId).value)
  {
    match buyer
    case None => (LoginRequired, ws)
    case Some(b) =>
      match FindEntry(ws, b, propertyId)
      case None =>
        if Listings.FindProperty(props, propertyId).None? then (SaveFailed, ws)
        else (Added, ws + [Entry(b, propertyId, now)])
      case Some(k) => (Removed, RemoveAt(ws, k))
  }

  /** Toggling flips the membership of exactly one pair, unless it would
      save a listing that is not stored, and keeps the table free of
      duplicates. */
  lemma ToggleFlipsMembership(ws: seq<Entry>, props: seq<Listings.Property>, buyerId: nat, propertyId: int, now: int)
    requires NoDuplicates(ws)
    ensures var r := Toggle(ws, props, Some(buyerId), propertyId, now).1;
      && NoDuplicates(r)
      && ((buyerId, propertyId) in Saved(ws) ==> Saved(r) == Saved(ws) - {(buyerId, propertyId)})
      && ((buyerId, propertyId) !in Saved(ws) && Listings.FindProperty(props, propertyId).Some? ==>
            Saved(r) == Saved(ws) + {(buyerId, propertyId)})
      && ((buyerId, propertyId) !in Saved(ws) && Listings.FindProperty(props, propertyId).None? ==> r == ws)
  {
    var key := (buyerId, propertyId);
    var r := Toggle(ws, props, Some(buyerId), propertyId, now).1;
    match FindEntry(ws, buyerId, propertyId)
    case None =>
      if Listings.FindProperty(props, propertyId).None? {
        assert key !in Saved(ws);
        return;
      }
      assert key !in Saved(ws);
      assert r == ws + [Entry(buyerId, propertyId, now)];
      forall x | x in Saved(r) ensures x in Saved(ws) + {key} {
        var k :| 0 <= k < |r| && x == (r[k].buyerId, r[k].propertyId);
        if k < |ws| { assert r[k] == ws[k]; }
      }
      forall x | x in Saved(ws) + {key} ensures x in Saved(r) {
        if x == key {
          assert r[|ws|] == Entry(buyerId, propertyId, now);
        } else {
          var k :| 0 <= k < |ws| && x == (ws[k].buyerId, ws[k].propertyId);
          assert r[k] == ws[k];
        }
      }
    case Some(k) =>
      assert key in Saved(ws);
      forall x | x in Saved(r) ensures x in Saved(ws) - {key} {
        var j :| 0 <= j < |r| && x == (r[j].buyerId, r[j].propertyId);
        if j < k { assert r[j] == ws[j]; } else { assert r[j] == ws[j + 1]; }
      }
      forall x | x in Saved(ws) - {key} ensures x in Saved(r) {
        var j :| 0 <= j < |ws| && x == (ws[j].buyerId, ws[j].propertyId);
        assert j != k;
        if j < k { assert r[j] == ws[j]; } else { assert r[j - 1] == ws[j]; }
      }
  }

  /** Every row is for a stored listing: the foreign key on `PropertyId`. */
  predicate AllListed(ws: seq<Entry>, props: seq<Listings.Property>) {
    forall i :: 0 <= i < |ws| ==> Listings.FindProperty(props, ws[i].propertyId).Some?
  }

  /** Toggling the same listing twice restores the saved pairs. */
  lemma ToggleTwiceRestores(ws: seq<Entry>, props: seq<Listings.Property>, buyerId: nat, propertyId: int, t1: int, t2: int)
    requires NoDuplicates(ws) && AllListed(ws, props)
    ensures var once := Toggle(ws, props, Some(buyerId), propertyId, t1).1;
      Saved(Toggle(once, props, Some(buyerId), propertyId, t2).1) == Saved(ws)
  {
    var once := Toggle(ws, props, Some(buyerId), propertyId, t1).1;
    if (buyerId, propertyId) in Saved(ws) {
      var k :| 0 <= k < |ws| && (ws[k].buyerId, ws[k].propertyId) == (buyerId, propertyId);
      assert Listings.FindProperty(props, ws[k].propertyId).Some?;
    }
    ToggleFlipsMembership(ws, props, buyerId, propertyId, t1);
    ToggleFlipsMembership(once, props, buyerId, propertyId, t2);
  }

  /** A card on the wishlist page. */
  datatype Card = Card(propertyId: int, added: int, isInWishlist: bool)

  predicate NewerOrSame(a: Entry, b: Entry) {
    a.added >= b.added
  }

  predicate IsBuyers(buyerId: nat, w: Entry) {
    w.buyerId == buyerId
  }

  /** The buyer's rows, most recently added first. */
  function MineNewestFirst(ws: seq<Entry>, buyerId: nat): (r: seq<Entry>)
    ensures forall e :: e in r <==> e in ws && e.buyerId == buyerId
    ensures multiset(r) == multiset(Filter(ws, (w: Entry) => IsBuyers(buyerId, w)))
    ensures SortedBy(r, NewerOrSame)
  {
    var mine := Filter(ws, (w: Entry) => IsBuyers(buyerId, w));
    forall e ensures e in mine <==> e in ws && e.buyerId == buyerId {
      FilterMembers(ws, (w: Entry) => IsBuyers(buyerId, w), e);
    }
    var r := Sort(mine, NewerOrSame);
    assert forall e :: e in r <==> e in multiset(r);
    assert forall e :: e in mine <==> e in multiset(mine);
    r
  }

  /** `Index`: one card per row of the buyer's, newest first, each flagged
      as saved. */
  function WishlistPage(ws: seq<Entry>, buyerId: nat): (cards: seq<Card>)
    ensures var rows := MineNewestFirst(ws, buyerId);
      |cards| == |rows| && forall i :: 0 <= i < |rows| ==>
        cards[i] == Card(rows[i].propertyId, rows[i].added, true) && rows[i] in ws && rows[i].buyerId == buyerId
    ensures forall i, j :: 0 <= i < j < |cards| ==> cards[i].added >= cards[j].added
  {
    var rows := MineNewestFirst(ws, buyerId);
    seq(|rows|, i requires 0 <= i < |rows| => Card(rows[i].propertyId, rows[i].added, true))
  }
}
