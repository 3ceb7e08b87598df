/** The records the skip-selection page works on: the catalogue entry
    delivered by the skip-hire service and the waste profile of the job. */
module SkipTypes {
  import opened Wrappers

  /** One skip offering, exactly as received from the catalogue service.
      JavaScript numbers are modelled as `int` for the whole-number fields
      and as exact `real` for money and percentages. Nothing ever mutates a
      record: every derived value is recomputed from it. */
  datatype Skip = Skip(
    id: int,
    size: int,                  // nominal size in yards
    hirePeriodDays: int,
    transportCost: Option<real>,
    perTonneCost: Option<real>,
    priceBeforeVat: real,
    vat: real,                  // a percentage
    postcode: string,
    area: string,
    forbidden: bool,            // the service's veto on this offering
    createdAt: string,
    updatedAt: string,
    allowedOnRoad: bool,
    allowsHeavyWaste: bool
  )

  /** What the customer is throwing away. The page holds one such profile;
      here it is a parameter of every operation that consults it. */
  datatype WasteProfile = WasteProfile(
    wasteType: string,
    heavyPercentage: real,      // share of heavy waste, 0 when there is none
    requiresRoadPermit: bool
  )

  /** No two records of the catalogue share an `id`. Nothing guarantees
      this; the page assumes it when it keys its cards by id and when it
      marks the selected card by comparing ids. */
  predicate UniqueIds(skips: seq<Skip>)
  {
    forall i, j :: 0 <= i < |skips| && 0 <= j < |skips| && skips[i].id == skips[j].id ==> i == j
  }
}
