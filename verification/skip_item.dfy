/** One skip card (src/app/skip-select/SkipItem.tsx): its price including
    VAT, the gate deciding whether a click selects it, and its status labels. */
module SkipItem {
  import opened SkipTypes

  /** The card's `totalPrice`: the price before VAT plus `vat` percent of it.
      Exact rational arithmetic stands in for JavaScript's floating point. */
  function TotalPrice(priceBeforeVat: real, vat: real): (r: real)
    ensures r == priceBeforeVat * (1.0 + vat / 100.0)
    ensures vat == 0.0 ==> r == priceBeforeVat
    ensures priceBeforeVat >= 0.0 && vat >= 0.0 ==> r >= priceBeforeVat
    ensures priceBeforeVat >= 0.0 && vat >= 0.0 ==> r >= 0.0
  {
    priceBeforeVat + priceBeforeVat * (vat / 100.0)
  }

  /** Dividing the total by the VAT factor gives back the price before VAT,
      for every VAT rate above -100 percent. */
  lemma TotalPriceRecoversBase(priceBeforeVat: real, vat: real)
    requires vat > -100.0
    ensures TotalPrice(priceBeforeVat, vat) / (1.0 + vat / 100.0) == priceBeforeVat
  {
    var factor := 1.0 + vat / 100.0;
    assert factor > 0.0;
    assert TotalPrice(priceBeforeVat, vat) == priceBeforeVat * factor;
    CancelFactor(priceBeforeVat, factor);
  }

  /** Multiplying by a non-zero factor and dividing by it again is the identity. */
  lemma CancelFactor(x: real, factor: real)
    requires factor != 0.0
    ensures (x * factor) / factor == x
  {
    var scaled := x * factor;
    assert (scaled / factor) * factor == scaled;
  }

  /** At a fixed non-negative VAT rate a dearer skip never costs less in total. */
  lemma TotalPriceMonotone(p1: real, p2: real, vat: real)
    requires p1 <= p2 && vat >= 0.0
    ensures TotalPrice(p1, vat) <= TotalPrice(p2, vat)
  {
    var factor := 1.0 + vat / 100.0;
    assert factor >= 1.0;
    assert TotalPrice(p2, vat) - TotalPrice(p1, vat) == (p2 - p1) * factor;
    assert (p2 - p1) * factor >= 0.0;
  }

  /** Worked examples of the formula, before display rounding. */
  lemma TotalPriceExamples()
    ensures TotalPrice(100.0, 20.0) == 120.0
    ensures TotalPrice(0.0, 50.0) == 0.0
    ensures TotalPrice(149.99, 17.5) == 176.23825
  {
  }

  /** What a click on the card leads to: the card's `onSelect` is called
      with its own skip, or the click is refused, the service's veto taking
      precedence over unsuitability. */
  datatype ClickOutcome = CallOnSelect(chosen: Skip) | RefusedForbidden | RefusedUnsuitable

  /** The card's `handleSelectClick`. */
  function HandleSelectClick(skip: Skip, isSuitable: bool): (r: ClickOutcome)
    ensures r.CallOnSelect? <==> isSuitable && !skip.forbidden
    ensures r.CallOnSelect? ==> r.chosen == skip
    ensures skip.forbidden ==> r == RefusedForbidden
    ensures !skip.forbidden && !isSuitable ==> r == RefusedUnsuitable
  {
    if isSuitable && !skip.forbidden then CallOnSelect(skip)
    else if skip.forbidden then RefusedForbidden
    else RefusedUnsuitable
  }

  /** The card's `isSelectable` flag, which drives its clickable styling:
      it is set exactly when a click gets through the card's gate. */
  function IsSelectable(skip: Skip, isSuitable: bool): (r: bool)
    ensures r <==> HandleSelectClick(skip, isSuitable) == CallOnSelect(skip)
  {
    isSuitable && !skip.forbidden
  }

  /** The card shows "currently unavailable": exactly when even a card
      marked suitable refuses the click as forbidden. */
  function ShowsUnavailableLabel(skip: Skip): (r: bool)
    ensures r <==> HandleSelectClick(skip, true) == RefusedForbidden
    ensures r ==> HandleSelectClick(skip, false) == RefusedForbidden
  {
    skip.forbidden
  }

  /** The card shows "Not suitable for selected waste type": exactly when
      a click is refused as unsuitable. */
  function ShowsNotSuitableLabel(skip: Skip, isSuitable: bool): (r: bool)
    ensures r <==> HandleSelectClick(skip, isSuitable) == RefusedUnsuitable
  {
    !isSuitable && !skip.forbidden
  }

  /** The click gate, the clickable styling and the two labels tell one
      story: a click selects exactly when the card is styled selectable and
      shows no label; each refusal matches the one label on the card; and
      the two labels never show together. */
  lemma ClickGateMatchesCard(skip: Skip, isSuitable: bool)
    ensures HandleSelectClick(skip, isSuitable).CallOnSelect? <==> IsSelectable(skip, isSuitable)
    ensures IsSelectable(skip, isSuitable) <==>
              !ShowsUnavailableLabel(skip) && !ShowsNotSuitableLabel(skip, isSuitable)
    ensures HandleSelectClick(skip, isSuitable) == RefusedForbidden <==> ShowsUnavailableLabel(skip)
    ensures HandleSelectClick(skip, isSuitable) == RefusedUnsuitable <==> ShowsNotSuitableLabel(skip, isSuitable)
    ensures !(ShowsUnavailableLabel(skip) && ShowsNotSuitableLabel(skip, isSuitable))
  {
  }
}
