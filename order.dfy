/**
 * The order record as the form edits it: the initial order, the shallow
 * partial update every input goes through, the capped list of reference
 * photos, and the quantity buttons.
 */
module Order {
  import opened Wrappers
  import opened SizeTokens
  import opened Dates
  import opened Types
  import opened Constants

  const MaxImages: nat := 5
  const MinQuantity: int := 1
  const MaxQuantity: int := 10

  /** What holds of every order the form produces. */
  predicate WellFormed(o: CakeOrder) {
    |o.tierSizes| == o.tiers && |o.images| <= MaxImages && MinQuantity <= o.quantity <= MaxQuantity
  }

  /**
   * `INITIAL_ORDER`: one round tier of 24 cm, raspberry filling, vanilla
   * sponge, cream finish, one piece, no date, the first location, empty
   * texts, no photos and no optional attributes.
   */
  function InitialOrder(): (o: CakeOrder)
    ensures WellFormed(o)
    ensures o.tiers == 1 && o.tierSizes == [RoundSizes[1]] && o.shape == Round
    ensures o.surface == Cream && o.quantity == 1 && o.pickupDate.None? && o.images == []
    ensures o.pickupLocationId == Locations[0].id
    ensures o.customerName == "" && o.customerPhone == "" && o.customerEmail == ""
  {
    CakeOrder(
      images := [],
      tiers := 1,
      tierSizes := [Cm(24)],
      customSizeNote := None,
      shape := Round,
      filling := Raspberry,
      sponge := VanillaSponge,
      surface := Cream,
      surfaceOtherNote := None,
      marzipanColor := None,
      creamColor := None,
      dripType := None,
      shavingsType := None,
      ediblePrintImage := None,
      inscription := "",
      specifications := "",
      quantity := 1,
      pickupDate := None,
      pickupLocationId := Locations[0].id,
      customerName := "",
      customerPhone := "",
      customerEmail := "")
  }

  /**
   * `Partial<CakeOrder>`: each field is either absent (`None`) or given. An
   * optional field can be given the value `undefined`, hence the nested
   * `Option`s.
   */
  datatype OrderPatch = OrderPatch(
    images: Option<seq<CakeImage>>,
    tiers: Option<TierCount>,
    tierSizes: Option<seq<SizeToken>>,
    customSizeNote: Option<Option<string>>,
    shape: Option<CakeShape>,
    filling: Option<FillingType>,
    sponge: Option<SpongeType>,
    surface: Option<SurfaceType>,
    surfaceOtherNote: Option<Option<string>>,
    marzipanColor: Option<Option<string>>,
    creamColor: Option<Option<string>>,
    dripType: Option<Option<string>>,
    shavingsType: Option<Option<string>>,
    ediblePrintImage: Option<Option<CakeImage>>,
    inscription: Option<string>,
    specifications: Option<string>,
    quantity: Option<int>,
    pickupDate: Option<Option<DateTime>>,
    pickupLocationId: Option<string>,
    customerName: Option<string>,
    customerPhone: Option<string>,
    customerEmail: Option<string>)

  /** The patch that gives no field. */
  const NoChange: OrderPatch := OrderPatch(
    None, None, None, None, None, None, None, None, None, None, None,
    None, None, None, None, None, None, None, None, None, None, None)

  /** The patch giving only `tiers` and `tierSizes`, as the tier-count handler sends. */
  function TiersPatch(tiers: TierCount, tierSizes: seq<SizeToken>): OrderPatch {
    NoChange.(tiers := Some(tiers), tierSizes := Some(tierSizes))
  }

  /** `{ ...prev, ...updates }`: every field the patch gives replaces the order's, the rest stay. */
  function Merge(o: CakeOrder, p: OrderPatch): (r: CakeOrder) {
    CakeOrder(
      images := p.images.GetOr(o.images),
      tiers := p.tiers.GetOr(o.tiers),
      tierSizes := p.tierSizes.GetOr(o.tierSizes),
      customSizeNote := p.customSizeNote.GetOr(o.customSizeNote),
      shape := p.shape.GetOr(o.shape),
      filling := p.filling.GetOr(o.filling),
      sponge := p.sponge.GetOr(o.sponge),
      surface := p.surface.GetOr(o.surface),
      surfaceOtherNote := p.surfaceOtherNote.GetOr(o.surfaceOtherNote),
      marzipanColor := p.marzipanColor.GetOr(o.marzipanColor),
      creamColor := p.creamColor.GetOr(o.creamColor),
      dripType := p.dripType.GetOr(o.dripType),
      shavingsType := p.shavingsType.GetOr(o.shavingsType),
      ediblePrintImage := p.ediblePrintImage.GetOr(o.ediblePrintImage),
      inscription := p.inscription.GetOr(o.inscription),
      specifications := p.specifications.GetOr(o.specifications),
      quantity := p.quantity.GetOr(o.quantity),
      pickupDate := p.pickupDate.GetOr(o.pickupDate),
      pickupLocationId := p.pickupLocationId.GetOr(o.pickupLocationId),
      customerName := p.customerName.GetOr(o.customerName),
      customerPhone := p.customerPhone.GetOr(o.customerPhone),
      customerEmail := p.customerEmail.GetOr(o.customerEmail))
  }

  /** Spreading `q` after `p`: a field `q` gives wins, otherwise `p`'s. */
  function Then(p: OrderPatch, q: OrderPatch): OrderPatch {
    OrderPatch(
      if q.images.Some? then q.images else p.images,
      if q.tiers.Some? then q.tiers else p.tiers,
      if q.tierSizes.Some? then q.tierSizes else p.tierSizes,
      if q.customSizeNote.Some? then q.customSizeNote else p.customSizeNote,
      if q.shape.Some? then q.shape else p.shape,
      if q.filling.Some? then q.filling else p.filling,
      if q.sponge.Some? then q.sponge else p.sponge,
      if q.surface.Some? then q.surface else p.surface,
      if q.surfaceOtherNote.Some? then q.surfaceOtherNote else p.surfaceOtherNote,
      if q.marzipanColor.Some? then q.marzipanColor else p.marzipanColor,
      if q.creamColor.Some? then q.creamColor else p.creamColor,
      if q.dripType.Some? then q.dripType else p.dripType,
      if q.shavingsType.Some? then q.shavingsType else p.shavingsType,
      if q.ediblePrintImage.Some? then q.ediblePrintImage else p.ediblePrintImage,
      if q.inscription.Some? then q.inscription else p.inscription,
      if q.specifications.Some? then q.specifications else p.specifications,
      if q.quantity.Some? then q.quantity else p.quantity,
      if q.pickupDate.Some? then q.pickupDate else p.pickupDate,
      if q.pickupLocationId.Some? then q.pickupLocationId else p.pickupLocationId,
      if q.customerName.Some? then q.customerName else p.customerName,
      if q.customerPhone.Some? then q.customerPhone else p.customerPhone,
      if q.customerEmail.Some? then q.customerEmail else p.customerEmail)
  }

  /**
   * The merge laws: the empty patch changes nothing, applying a patch twice
   * is applying it once, and two updates in a row are one update with the
   * later patch spread over the earlier.
   */
  lemma MergeLaws(o: CakeOrder, p: OrderPatch, q: OrderPatch)
    ensures Merge(o, NoChange) == o
    ensures Merge(Merge(o, p), p) == Merge(o, p)
    ensures Merge(Merge(o, p), q) == Merge(o, Then(p, q))
  {
  }

  /** A tier-count patch sets the two tier fields and leaves every other field as it was. */
  lemma TiersPatchFrame(o: CakeOrder, tiers: TierCount, tierSizes: seq<SizeToken>)
    ensures Merge(o, TiersPatch(tiers, tierSizes))
      == o.(tiers := tiers, tierSizes := tierSizes)
  {
  }

  /** The order stays well formed under a patch that leaves the bounded fields within their bounds. */
  lemma MergeKeepsWellFormed(o: CakeOrder, p: OrderPatch)
    requires WellFormed(o)
    requires p.tiers.Some? || p.tierSizes.Some? ==> |p.tierSizes.GetOr(o.tierSizes)| == p.tiers.GetOr(o.tiers)
    requires p.images.Some? ==> |p.images.value| <= MaxImages
    requires p.quantity.Some? ==> MinQuantity <= p.quantity.value <= MaxQuantity
    ensures WellFormed(Merge(o, p))
  {
  }

  // ---------------------------------------------------------------- photos

  /**
   * The photo list after `handleFileChange`: the first `5 - count` of the
   * chosen files are appended; with no free slot nothing changes.
   */
  function AddImages(images: seq<CakeImage>, files: seq<CakeImage>): (r: seq<CakeImage>)
    ensures |images| >= MaxImages ==> r == images
    ensures |images| <= MaxImages ==> |r| == Min(MaxImages, |images| + |files|)
    ensures |r| >= |images| && r[..|images|] == images
    ensures r[|images|..] == files[..|r| - |images|]
  {
    var remainingSlots := MaxImages - |images|;
    if remainingSlots <= 0 then images
    else
      var filesToProcess := if |files| <= remainingSlots then files else files[..remainingSlots];
      images + filesToProcess
  }

  function Min(a: int, b: int): int {
    if a <= b then a else b
  }

  /** A well-formed photo list never grows past five however many files are chosen. */
  lemma AddImagesBounded(images: seq<CakeImage>, files: seq<CakeImage>)
    requires |images| <= MaxImages
    ensures |AddImages(images, files)| <= MaxImages
    ensures |images| < MaxImages && files != [] ==> |AddImages(images, files)| > |images|
  {
  }

  /** `images.filter(img => img.id !== id)`. */
  function RemoveImage(images: seq<CakeImage>, id: string): (r: seq<CakeImage>)
    ensures |r| <= |images|
    ensures forall x :: x in r <==> x in images && x.id != id
  {
    if images == [] then []
    else
      var rest := RemoveImage(images[1..], id);
      assert forall x :: x in images <==> x == images[0] || x in images[1..];
      if images[0].id != id then [images[0]] + rest else rest
  }

  predicate DistinctIds(images: seq<CakeImage>) {
    forall i, j :: 0 <= i < j < |images| ==> images[i].id != images[j].id
  }

  /**
   * With distinct ids, removing the photo at position `k` by its id yields
   * the list without exactly that entry, order kept.
   */
  lemma {:induction false} RemoveImageAt(images: seq<CakeImage>, k: nat)
    requires DistinctIds(images) && k < |images|
    ensures RemoveImage(images, images[k].id) == images[..k] + images[k + 1..]
  {
    var id, tail := images[k].id, images[1..];
    if k == 0 {
      forall i | 0 <= i < |tail| ensures tail[i].id != id {
        assert images[i + 1].id != images[0].id;
      }
      RemoveImageAbsent(tail, id);
    } else {
      assert DistinctIds(tail) by {
        forall i, j | 0 <= i < j < |tail| ensures tail[i].id != tail[j].id {
          assert images[i + 1].id != images[j + 1].id;
        }
      }
      assert tail[k - 1] == images[k];
      RemoveImageAt(tail, k - 1);
      assert images[0].id != id by {
        assert images[0].id != images[k].id;
      }
      calc {
        RemoveImage(images, id);
        [images[0]] + RemoveImage(tail, id);
        [images[0]] + (tail[..k - 1] + tail[k..]);
        { assert [images[0]] + tail[..k - 1] == images[..k]; assert tail[k..] == images[k + 1..]; }
        images[..k] + images[k + 1..];
      }
    }
  }

  /** Removing an id no photo has changes nothing. */
  lemma {:induction false} RemoveImageAbsent(images: seq<CakeImage>, id: string)
    requires forall i :: 0 <= i < |images| ==> images[i].id != id
    ensures RemoveImage(images, id) == images
  {
    if images != [] {
      RemoveImageAbsent(images[1..], id);
      assert images == [images[0]] + images[1..];
    }
  }

  // ---------------------------------------------------------------- quantity

  /** The "-" button: `Math.max(1, quantity - 1)`. */
  function DecrementQuantity(q: int): (r: int)
    ensures r >= MinQuantity
    ensures q <= MaxQuantity ==> r <= MaxQuantity
    ensures q > MinQuantity ==> r == q - 1
  {
    if q - 1 >= 1 then q - 1 else 1
  }

  /** The "+" button: `Math.min(10, quantity + 1)`. */
  function IncrementQuantity(q: int): (r: int)
    ensures r <= MaxQuantity
    ensures q >= MinQuantity ==> r >= MinQuantity
    ensures q < MaxQuantity ==> r == q + 1
  {
    if q + 1 <= 10 then q + 1 else 10
  }

  /**
   * Inside the range the two buttons undo each other; at the ends they
   * saturate.
   */
  lemma QuantityButtons(q: int)
    requires MinQuantity <= q <= MaxQuantity
    ensures q > MinQuantity ==> IncrementQuantity(DecrementQuantity(q)) == q
    ensures q < MaxQuantity ==> DecrementQuantity(IncrementQuantity(q)) == q
    ensures DecrementQuantity(MinQuantity) == MinQuantity && IncrementQuantity(MaxQuantity) == MaxQuantity
  {
  }
}
