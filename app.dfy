/**
 * The configurator's state: the wizard step and the order being edited,
 * with one method per event handler of the form. Each handler is a single
 * synchronous update of that state.
 */
module AppState {
  import opened Wrappers
  import opened SizeTokens
  import opened Types
  import opened Tiers
  import opened Surface
  import opened Order

  const FirstStep: int := 1
  const LastStep: int := 5

  class App {
    var step: int
    var order: CakeOrder

    /** The step is one of the five wizard pages and the order is well formed. */
    ghost predicate Valid()
      reads this
    {
      FirstStep <= step <= LastStep && WellFormed(order)
    }

    /** The form opens on step 1 with `INITIAL_ORDER`. */
    constructor()
      ensures step == FirstStep && order == InitialOrder()
      ensures Valid()
    {
      step := FirstStep;
      order := InitialOrder();
    }

    /** `updateOrder(updates)`: a shallow merge of the given fields into the order. */
    method UpdateOrder(p: OrderPatch)
      modifies this
      ensures order == Merge(old(order), p) && step == old(step)
    {
      order := Merge(order, p);
    }

    /**
     * `handleShapeChange(shape)`: sets the shape, resets the tier sizes to
     * the new vocabulary's defaults for the current tier count and clears
     * the custom size note.
     */
    method HandleShapeChange(shape: CakeShape)
      modifies this
      ensures order == old(order).(shape := shape, tierSizes := ShapeDefaults(shape, old(order).tiers), customSizeNote := Some(""))
      ensures step == old(step)
      ensures forall t :: t in order.tierSizes ==> t in SizesForShape(shape)
      ensures old(Valid()) ==> Valid()
    {
      var newTierSizes := NewTierSizes(shape, order.tiers);
      ShapeDefaultsSpec(shape, order.tiers);
      order := order.(shape := shape, tierSizes := newTierSizes, customSizeNote := Some(""));
    }

    /** `handleTierCountChange(count)`: stores the count and the grown or truncated size list. */
    method HandleTierCountChange(count: TierCount)
      modifies this
      ensures order == old(order).(tiers := count, tierSizes := TierCountResult(old(order).shape, old(order).tierSizes, count))
      ensures step == old(step)
      ensures |order.tierSizes| == count
      ensures old(Valid()) ==> Valid()
    {
      var currentSizes := ResizeTiers(order.shape, order.tierSizes, count);
      TierCountSpec(order.shape, order.tierSizes, count);
      TiersPatchFrame(order, count, currentSizes);
      UpdateOrder(TiersPatch(count, currentSizes));
    }

    /** `handleSizeChange(tierIndex, newVal)`: sets one tier and repairs the tiers above it. */
    method HandleSizeChange(tierIndex: nat, newVal: SizeToken)
      requires tierIndex < |order.tierSizes|
      modifies this
      ensures order == old(order).(tierSizes := SizeChangeResult(old(order).shape, old(order).tierSizes, tierIndex, newVal))
      ensures step == old(step)
      ensures old(Valid()) ==> Valid()
    {
      var newSizes := ChangeTierSize(order.shape, order.tierSizes, tierIndex, newVal);
      SizeChangeFrame(order.shape, order.tierSizes, tierIndex, newVal);
      order := order.(tierSizes := newSizes);
    }

    /** `handleFileChange` without the image analysis: appends the chosen photos up to the cap of five. */
    method HandleFileChange(files: seq<CakeImage>)
      modifies this
      ensures order == old(order).(images := AddImages(old(order).images, files))
      ensures step == old(step)
      ensures old(Valid()) ==> Valid()
    {
      if files != [] {
        var remainingSlots := MaxImages - |order.images|;
        if remainingSlots > 0 {
          order := order.(images := AddImages(order.images, files));
        }
      }
    }

    /** `removeImage(id)`: drops every photo with that id. */
    method RemoveImageById(id: string)
      modifies this
      ensures order == old(order).(images := RemoveImage(old(order).images, id))
      ensures step == old(step)
      ensures old(Valid()) ==> Valid()
    {
      order := order.(images := RemoveImage(order.images, id));
    }

    /** `handleEdiblePrintUpload`: the chosen file becomes the print image. */
    method HandleEdiblePrintUpload(image: CakeImage)
      modifies this
      ensures order == old(order).(ediblePrintImage := Some(image))
      ensures step == old(step)
      ensures old(Valid()) ==> Valid()
    {
      order := order.(ediblePrintImage := Some(image));
    }

    /** `removeEdiblePrint`: clears the print image when there is one. */
    method RemoveEdiblePrint()
      modifies this
      ensures order == old(order).(ediblePrintImage := None)
      ensures step == old(step)
      ensures old(Valid()) ==> Valid()
    {
      if order.ediblePrintImage.Some? {
        order := order.(ediblePrintImage := None);
      }
    }

    /** The "-" quantity button. */
    method DecreaseQuantity()
      modifies this
      ensures order == old(order).(quantity := DecrementQuantity(old(order).quantity))
      ensures step == old(step)
      ensures old(Valid()) ==> Valid()
    {
      UpdateOrder(NoChange.(quantity := Some(DecrementQuantity(order.quantity))));
    }

    /** The "+" quantity button. */
    method IncreaseQuantity()
      modifies this
      ensures order == old(order).(quantity := IncrementQuantity(old(order).quantity))
      ensures step == old(step)
      ensures old(Valid()) ==> Valid()
    {
      UpdateOrder(NoChange.(quantity := Some(IncrementQuantity(order.quantity))));
    }

    /**
     * `nextStep`: when the current step validates, moves on one step (never
     * past the last); otherwise stays and returns the alert text.
     * In particular the summary step is reached from step 4 only with a
     * pickup date chosen.
     */
    method NextStep() returns (alert: Option<string>)
      modifies this
      ensures order == old(order)
      ensures ValidateStep(old(order), old(step)).Pass? ==>
        alert.None? && step == (if old(step) + 1 <= LastStep then old(step) + 1 else LastStep)
      ensures ValidateStep(old(order), old(step)).Block? ==>
        step == old(step) && alert == Some(ValidateStep(old(order), old(step)).msg)
      ensures old(step) == 4 && step == LastStep ==> order.pickupDate.Some?
      ensures old(Valid()) ==> Valid()
    {
      var validation := ValidateStep(order, step);
      if validation.Pass? {
        step := if step + 1 <= LastStep then step + 1 else LastStep;
        alert := None;
      } else {
        alert := Some(validation.msg);
      }
    }

    /** `prevStep`: one step back, never before the first. */
    method PrevStep()
      modifies this
      ensures order == old(order)
      ensures step == (if old(step) - 1 >= FirstStep then old(step) - 1 else FirstStep)
      ensures old(Valid()) ==> Valid()
    {
      step := if step - 1 >= FirstStep then step - 1 else FirstStep;
    }

    /** `handleSubmitOrder`: the contact alert, or the e-mail to compose. */
    method HandleSubmitOrder() returns (r: Submission)
      ensures r == SubmitOrder(order)
      ensures r.Mail? <==> ContactComplete(order)
    {
      r := SubmitOrder(order);
    }
  }
}
