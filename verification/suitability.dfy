/** The page's suitability rule: whether a catalogue record may be chosen
    for the customer's waste profile (src/app/skip-select/page.tsx). */
module Suitability {
  import opened SkipTypes

  /** Heavy waste may only go into skips up to this many yards. */
  const HeavyWasteSizeLimit: int := 8

  /** The page's `isSkipSuitable`: a forbidden skip is never suitable; when
      the profile carries any heavy waste the skip must accept heavy waste
      and be no larger than the limit; otherwise the skip is suitable. The
      road-permit rule of the page is commented out, so neither
      `allowedOnRoad` nor `requiresRoadPermit` is consulted. */
  function IsSkipSuitable(skip: Skip, profile: WasteProfile): (r: bool)
    ensures skip.forbidden ==> !r
    ensures !skip.forbidden && profile.heavyPercentage > 0.0 ==>
              (r <==> skip.allowsHeavyWaste && skip.size <= HeavyWasteSizeLimit)
    ensures !skip.forbidden && profile.heavyPercentage <= 0.0 ==> r
  {
    if skip.forbidden then false
    else if profile.heavyPercentage > 0.0 && (!skip.allowsHeavyWaste || skip.size > HeavyWasteSizeLimit) then false
    else true
  }

  /** The three groups the page shows a record in. */
  datatype Classification = Suitable | Unsuitable | Forbidden

  /** Reference classification, first matching rule wins: the service's
      veto, then the heavy-waste restriction, then acceptance. */
  function Classify(skip: Skip, profile: WasteProfile): Classification
  {
    if skip.forbidden then Forbidden
    else if profile.heavyPercentage > 0.0 && !skip.allowsHeavyWaste then Unsuitable
    else if profile.heavyPercentage > 0.0 && skip.size > HeavyWasteSizeLimit then Unsuitable
    else Suitable
  }

  /** The page's boolean rule and the three-way classification agree, and
      the `Forbidden` class is exactly the service's veto. */
  lemma SuitableIffClassified(skip: Skip, profile: WasteProfile)
    ensures IsSkipSuitable(skip, profile) <==> Classify(skip, profile) == Suitable
    ensures Classify(skip, profile) == Forbidden <==> skip.forbidden
    ensures Classify(skip, profile) == Unsuitable <==> !IsSkipSuitable(skip, profile) && !skip.forbidden
  {
  }

  /** Suitability ignores the road fields: changing whether the skip may
      stand on the road, or whether the waste needs a road permit, never
      changes the verdict. */
  lemma SuitabilityIgnoresRoad(skip: Skip, profile: WasteProfile, onRoad: bool, permit: bool)
    ensures IsSkipSuitable(skip.(allowedOnRoad := onRoad), profile.(requiresRoadPermit := permit))
            == IsSkipSuitable(skip, profile)
  {
  }

  /** Only the sign of the heavy-waste share matters: two profiles that both
      carry heavy waste, or both carry none, judge every skip alike. */
  lemma OnlyHeavinessMatters(skip: Skip, p1: WasteProfile, p2: WasteProfile)
    requires (p1.heavyPercentage > 0.0) == (p2.heavyPercentage > 0.0)
    ensures IsSkipSuitable(skip, p1) == IsSkipSuitable(skip, p2)
  {
  }

  /** The size limit is inclusive: with heavy waste an 8-yard skip that
      accepts heavy waste passes and the same skip at 9 yards fails. */
  lemma HeavyWasteBoundary(skip: Skip, profile: WasteProfile)
    requires !skip.forbidden && skip.allowsHeavyWaste
    requires profile.heavyPercentage > 0.0
    ensures IsSkipSuitable(skip.(size := 8), profile)
    ensures !IsSkipSuitable(skip.(size := 9), profile)
  {
  }
}
