/** Listing photos. After a create or edit the seller's uploads are stored
    as `PropertyImage` rows: only non-empty files with an allowed extension
    are kept, each gets the next display order, and the first photo of a
    listing that had none becomes its primary image.

    The action as written starts numbering at the listing's current
    highest display order, so the first new photo repeats an order already
    in use (`SaveUploadedImagesAsWritten`); the store steps run it as
    written. `SaveUploadedImages` starts one past the highest order, which
    keeps a listing's orders distinct. */
module Images {
  import opened Wrappers
  import opened Text
  import opened Seqs

  datatype Image = Image(propertyId: nat, url: string, isPrimary: bool, displayOrder: int)

  /** An uploaded file: its client-side name, its length in bytes and the
      GUID text the stored file is renamed to. */
  datatype Upload = Upload(fileName: string, length: int, guid: string)

  /** The extensions accepted, compared after lower-casing. */
  predicate AllowedExtension(ext: string) {
    ext == ".jpg" || ext == ".jpeg" || ext == ".png" || ext == ".webp"
  }

  /** The lower-cased extension of an upload. */
  function LowerExtension(u: Upload): string {
    ToLower(Extension(u.fileName))
  }

  predicate IsAccepted(u: Upload) {
    u.length > 0 && AllowedExtension(LowerExtension(u))
  }

  /** The uploads that are stored, in upload order. */
  function Accepted(photos: seq<Upload>): (r: seq<Upload>)
    ensures forall u :: u in r <==> u in photos && IsAccepted(u)
    ensures |r| <= |photos|
  {
    var r := Filter(photos, IsAccepted);
    forall u ensures u in r <==> u in photos && IsAccepted(u) {
      FilterMembers(photos, IsAccepted, u);
    }
    r
  }

  /** `/uploads/properties/{propertyId}/{guid}{ext}`. */
  function ImageUrl(propertyId: nat, u: Upload): string {
    "/uploads/properties/" + NatToString(propertyId) + "/" + u.guid + LowerExtension(u)
  }

  /** `Where(i => i.PropertyId == propertyId).Max(i => (int?)i.DisplayOrder)`. */
  function MaxOrder(images: seq<Image>, propertyId: nat): (r: Option<int>)
    ensures r.None? <==> forall k :: 0 <= k < |images| ==> images[k].propertyId != propertyId
    ensures r.Some? ==> forall k :: 0 <= k < |images| && images[k].propertyId == propertyId ==> images[k].displayOrder <= r.value
    ensures r.Some? ==> exists k :: 0 <= k < |images| && images[k].propertyId == propertyId && images[k].displayOrder == r.value
  {
    if |images| == 0 then None
    else
      var rest := MaxOrder(images[..|images| - 1], propertyId);
      var last := images[|images| - 1];
      if last.propertyId != propertyId then rest
      else if rest.None? || rest.value < last.displayOrder then Some(last.displayOrder)
      else rest
  }

  /** `Any(i => i.PropertyId == propertyId)` against the stored rows. */
  predicate HasImages(images: seq<Image>, propertyId: nat) {
    exists k :: 0 <= k < |images| && images[k].propertyId == propertyId
  }

  /** The rows for `accepted`, numbered from `start`; the one numbered 0
      is primary when the listing had no stored image. */
  function NewImages(propertyId: nat, accepted: seq<Upload>, start: int, hadImages: bool): (r: seq<Image>)
    ensures |r| == |accepted|
    ensures forall j :: 0 <= j < |r| ==>
      r[j] == Image(propertyId, ImageUrl(propertyId, accepted[j]), start + j == 0 && !hadImages, start + j)
  {
    seq(|accepted|, j requires 0 <= j < |accepted| =>
      Image(propertyId, ImageUrl(propertyId, accepted[j]), start + j == 0 && !hadImages, start + j))
  }

  /** `SaveUploadedImages` as written: numbering starts at the current
      maximum display order, or 0 when there is none. */
  function SaveUploadedImagesAsWritten(images: seq<Image>, propertyId: nat, photos: seq<Upload>): (r: seq<Image>)
    ensures |r| == |images| + |Accepted(photos)|
    ensures r[..|images|] == images
    ensures forall j :: |images| <= j < |r| ==>
      && r[j].propertyId == propertyId
      && r[j].url == ImageUrl(propertyId, Accepted(photos)[j - |images|])
      && r[j].displayOrder == MaxOrder(images, propertyId).GetOr(0) + (j - |images|)
      && (r[j].isPrimary <==> j == |images| && !HasImages(images, propertyId))
  {
    HasImagesHasMax(images, propertyId);
    var start := MaxOrder(images, propertyId).GetOr(0);
    images + NewImages(propertyId, Accepted(photos), start, HasImages(images, propertyId))
  }

  /** A listing with a stored image has a highest display order. */
  lemma HasImagesHasMax(images: seq<Image>, propertyId: nat)
    ensures HasImages(images, propertyId) <==> MaxOrder(images, propertyId).Some?
  {
    if HasImages(images, propertyId) {
      var k :| 0 <= k < |images| && images[k].propertyId == propertyId;
    }
  }

  /** `SaveUploadedImages` with numbering starting one past the current
      maximum, or at 0 when the listing has no image yet. */
  function SaveUploadedImages(images: seq<Image>, propertyId: nat, photos: seq<Upload>): (r: seq<Image>)
    ensures |r| == |images| + |Accepted(photos)|
    ensures r[..|images|] == images
    ensures forall j :: |images| <= j < |r| ==> r[j].propertyId == propertyId
  {
    var start := match MaxOrder(images, propertyId) case None => 0 case Some(m) => m + 1;
    images + NewImages(propertyId, Accepted(photos), start, HasImages(images, propertyId))
  }

  /** The two numberings store the same rows, except that, on a listing
      that already had photos, each new row's order as written is one less
      than the corrected one. */
  lemma AsWrittenIsCorrectedShifted(images: seq<Image>, propertyId: nat, photos: seq<Upload>)
    ensures var w := SaveUploadedImagesAsWritten(images, propertyId, photos);
      var c := SaveUploadedImages(images, propertyId, photos);
      && |w| == |c| && w[..|images|] == c[..|images|]
      && forall j :: |images| <= j < |w| ==>
           w[j] == c[j].(displayOrder := if HasImages(images, propertyId) then c[j].displayOrder - 1 else c[j].displayOrder)
  {
    var w := SaveUploadedImagesAsWritten(images, propertyId, photos);
    var c := SaveUploadedImages(images, propertyId, photos);
    var acc := Accepted(photos);
    var had := HasImages(images, propertyId);
    if had {
      var k :| 0 <= k < |images| && images[k].propertyId == propertyId;
      assert MaxOrder(images, propertyId).Some?;
    }
    var ws := MaxOrder(images, propertyId).GetOr(0);
    var cs := match MaxOrder(images, propertyId) case None => 0 case Some(m) => m + 1;
    assert w == images + NewImages(propertyId, acc, ws, had);
    assert c == images + NewImages(propertyId, acc, cs, had);
    forall j | |images| <= j < |w|
      ensures w[j] == c[j].(displayOrder := if had then c[j].displayOrder - 1 else c[j].displayOrder)
    {
      assert w[j] == NewImages(propertyId, acc, ws, had)[j - |images|];
      assert c[j] == NewImages(propertyId, acc, cs, had)[j - |images|];
    }
  }

  /** Display orders of one listing's images are pairwise distinct. */
  predicate DistinctOrders(images: seq<Image>, propertyId: nat) {
    forall i, j :: 0 <= i < j < |images| && images[i].propertyId == propertyId && images[j].propertyId == propertyId
      ==> images[i].displayOrder != images[j].displayOrder
  }

  /** Every display order of the listing's images is non-negative. */
  predicate NonNegativeOrders(images: seq<Image>, propertyId: nat) {
    forall i :: 0 <= i < |images| && images[i].propertyId == propertyId ==> images[i].displayOrder >= 0
  }

  /** The first display order `SaveUploadedImages` hands out. */
  function StartOrder(images: seq<Image>, propertyId: nat): (s: int)
    requires NonNegativeOrders(images, propertyId)
    ensures s >= 0
    ensures forall i :: 0 <= i < |images| && images[i].propertyId == propertyId ==> images[i].displayOrder < s
  {
    match MaxOrder(images, propertyId) case None => 0 case Some(m) => m + 1
  }

  /** The `j`-th new row gets order `StartOrder + j`. */
  lemma NewRowOrder(images: seq<Image>, propertyId: nat, photos: seq<Upload>, j: int)
    requires NonNegativeOrders(images, propertyId)
    requires |images| <= j < |SaveUploadedImages(images, propertyId, photos)|
    ensures SaveUploadedImages(images, propertyId, photos)[j].displayOrder == StartOrder(images, propertyId) + (j - |images|)
  {
    var acc := Accepted(photos);
    var added := NewImages(propertyId, acc, StartOrder(images, propertyId), HasImages(images, propertyId));
    assert SaveUploadedImages(images, propertyId, photos) == images + added;
    assert (images + added)[j] == added[j - |images|];
  }

  /** Storing uploads keeps the listing's display orders distinct and
      non-negative, and the new photos take consecutive orders above every
      existing one. */
  lemma SaveUploadedImagesKeepsOrdersDistinct(images: seq<Image>, propertyId: nat, photos: seq<Upload>)
    requires DistinctOrders(images, propertyId) && NonNegativeOrders(images, propertyId)
    ensures DistinctOrders(SaveUploadedImages(images, propertyId, photos), propertyId)
    ensures NonNegativeOrders(SaveUploadedImages(images, propertyId, photos), propertyId)
    ensures var r := SaveUploadedImages(images, propertyId, photos);
      forall i, j :: 0 <= i < |images| <= j < |r| && images[i].propertyId == propertyId ==> images[i].displayOrder < r[j].displayOrder
  {
    var r := SaveUploadedImages(images, propertyId, photos);
    var n := |images|;
    var start := StartOrder(images, propertyId);
    forall j | n <= j < |r|
      ensures r[j].displayOrder == start + (j - n)
    {
      NewRowOrder(images, propertyId, photos, j);
    }
    assert forall i :: 0 <= i < n ==> r[i] == images[i];
  }

  /** The primary flag goes to the first stored photo of a listing that had
      none, and to no other new row. */
  lemma SaveUploadedImagesPrimary(images: seq<Image>, propertyId: nat, photos: seq<Upload>)
    ensures var r := SaveUploadedImages(images, propertyId, photos);
      forall j :: |images| <= j < |r| ==> (r[j].isPrimary <==> j == |images| && !HasImages(images, propertyId))
  {
    var r := SaveUploadedImages(images, propertyId, photos);
    if HasImages(images, propertyId) {
      var k :| 0 <= k < |images| && images[k].propertyId == propertyId;
      assert MaxOrder(images, propertyId).Some?;
    }
  }

  /** The action as written gives the first new photo the display order
      of an image the listing already has, whenever it had one and at least
      one upload is accepted. */
  lemma AsWrittenRepeatsAnOrder(images: seq<Image>, propertyId: nat, photos: seq<Upload>)
    requires HasImages(images, propertyId) && |Accepted(photos)| > 0
    ensures var r := SaveUploadedImagesAsWritten(images, propertyId, photos);
      exists i, j :: 0 <= i < j < |r| && r[i].propertyId == propertyId && r[j].propertyId == propertyId
        && r[i].displayOrder == r[j].displayOrder
  {
    var r := SaveUploadedImagesAsWritten(images, propertyId, photos);
    var k :| 0 <= k < |images| && images[k].propertyId == propertyId;
    var m := MaxOrder(images, propertyId).value;
    var i :| 0 <= i < |images| && images[i].propertyId == propertyId && images[i].displayOrder == m;
    assert r[i] == images[i];
    assert r[|images|].displayOrder == m;
  }

  lemma JpgExtension()
    ensures Extension("b.JPG") == ".JPG"
  {
    var p := "b.JPG";
    assert p[1] == '.' && p[2] == 'J' && p[3] == 'P' && p[4] == 'G';
    assert ExtensionScan(p, 2) == p[1..] == ".JPG";
    assert ExtensionScan(p, 3) == ExtensionScan(p, 2);
    assert ExtensionScan(p, 4) == ExtensionScan(p, 3);
    assert ExtensionScan(p, 5) == ExtensionScan(p, 4);
  }

  lemma LowerJpg()
    ensures ToLower(".JPG") == ".jpg"
  {
    var e := ToLower(".JPG");
    assert e[0] == '.' && e[1] == 'j' && e[2] == 'p' && e[3] == 'g';
  }

  /** An upper-case `.JPG` name passes the extension check. */
  lemma UpperCaseJpgAccepted(u: Upload)
    requires u == Upload("b.JPG", 10, "g")
    ensures IsAccepted(u)
  {
    JpgExtension();
    LowerJpg();
  }

  /** A concrete case: one stored photo at order 0 and one new JPEG give
      two rows at order 0. */
  lemma AsWrittenExample()
    ensures var r := SaveUploadedImagesAsWritten([Image(7, "/a.png", true, 0)], 7, [Upload("b.JPG", 10, "g")]);
      |r| == 2 && r[0].displayOrder == 0 && r[1].displayOrder == 0
  {
    var u := Upload("b.JPG", 10, "g");
    UpperCaseJpgAccepted(u);
    assert Filter([u], IsAccepted) == [u];
  }
}
