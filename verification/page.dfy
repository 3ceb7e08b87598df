/** The skip-selection page (src/app/skip-select/page.tsx) once its catalogue
    has loaded: the three groups it shows, the cards it renders for them,
    the one-slot selection those cards drive, and the notices around them. */
module SkipSelectPage {
  import opened Wrappers
  import opened SkipTypes
  import opened Seqs
  import opened Suitability
  import SkipItem

  // ---------------------------------------------------------------- groups

  /** `suitableSkips`: the catalogue entries the profile may use. */
  function SuitableSkips(skips: seq<Skip>, profile: WasteProfile): (r: seq<Skip>)
    ensures forall i :: 0 <= i < |r| ==> r[i] in skips && IsSkipSuitable(r[i], profile)
    ensures forall i :: 0 <= i < |skips| && IsSkipSuitable(skips[i], profile) ==> skips[i] in r
    ensures IsSubsequence(r, skips)
  {
    var keep := s => IsSkipSuitable(s, profile);
    FilterIsSubsequence(skips, keep);
    Filter(skips, keep)
  }

  /** `unsuitableSkips`: entries that are not suitable, leaving out the
      forbidden ones, which get a group of their own. */
  function UnsuitableSkips(skips: seq<Skip>, profile: WasteProfile): (r: seq<Skip>)
    ensures forall i :: 0 <= i < |r| ==> r[i] in skips && !IsSkipSuitable(r[i], profile) && !r[i].forbidden
    ensures forall i :: 0 <= i < |skips| && !IsSkipSuitable(skips[i], profile) && !skips[i].forbidden ==> skips[i] in r
    ensures IsSubsequence(r, skips)
  {
    var keep := s => !IsSkipSuitable(s, profile) && !s.forbidden;
    FilterIsSubsequence(skips, keep);
    Filter(skips, keep)
  }

  /** The "Unavailable Skips" group: entries the service has vetoed. */
  function ForbiddenSkips(skips: seq<Skip>): (r: seq<Skip>)
    ensures forall i :: 0 <= i < |r| ==> r[i] in skips && r[i].forbidden
    ensures forall i :: 0 <= i < |skips| && skips[i].forbidden ==> skips[i] in r
    ensures IsSubsequence(r, skips)
  {
    var keep := (s: Skip) => s.forbidden;
    FilterIsSubsequence(skips, keep);
    Filter(skips, keep)
  }

  /** Each group holds exactly the catalogue entries of its classification. */
  lemma GroupMembership(skips: seq<Skip>, profile: WasteProfile, x: Skip)
    ensures x in SuitableSkips(skips, profile) <==> x in skips && Classify(x, profile) == Suitable
    ensures x in UnsuitableSkips(skips, profile) <==> x in skips && Classify(x, profile) == Unsuitable
    ensures x in ForbiddenSkips(skips) <==> x in skips && Classify(x, profile) == Forbidden
  {
    SuitableIffClassified(x, profile);
    FilterMembership(skips, s => IsSkipSuitable(s, profile), x);
    FilterMembership(skips, s => !IsSkipSuitable(s, profile) && !s.forbidden, x);
    FilterMembership(skips, (s: Skip) => s.forbidden, x);
  }

  /** The groups are pairwise disjoint and together cover the catalogue:
      every entry lies in exactly one of them. */
  lemma GroupsDisjointAndExhaustive(skips: seq<Skip>, profile: WasteProfile, x: Skip)
    ensures x in skips <==>
              x in SuitableSkips(skips, profile) || x in UnsuitableSkips(skips, profile) || x in ForbiddenSkips(skips)
    ensures !(x in SuitableSkips(skips, profile) && x in UnsuitableSkips(skips, profile))
    ensures !(x in SuitableSkips(skips, profile) && x in ForbiddenSkips(skips))
    ensures !(x in UnsuitableSkips(skips, profile) && x in ForbiddenSkips(skips))
  {
    GroupMembership(skips, profile, x);
  }

  /** Counting multiplicities, the three groups are a partition of the
      catalogue: an entry listed twice is shown twice, in one group. */
  lemma GroupsPartitionCatalogue(skips: seq<Skip>, profile: WasteProfile)
    ensures multiset(SuitableSkips(skips, profile)) + multiset(UnsuitableSkips(skips, profile))
            + multiset(ForbiddenSkips(skips)) == multiset(skips)
  {
    FilterPartition(skips, s => IsSkipSuitable(s, profile),
                    s => !IsSkipSuitable(s, profile) && !s.forbidden, (s: Skip) => s.forbidden);
  }

  /** The three groups together are exactly as long as the catalogue. */
  lemma GroupSizesAddUp(skips: seq<Skip>, profile: WasteProfile)
    ensures |SuitableSkips(skips, profile)| + |UnsuitableSkips(skips, profile)| + |ForbiddenSkips(skips)| == |skips|
  {
    GroupsPartitionCatalogue(skips, profile);
    assert |multiset(SuitableSkips(skips, profile)) + multiset(UnsuitableSkips(skips, profile))
            + multiset(ForbiddenSkips(skips))| == |multiset(skips)|;
  }

  /** Each group keeps the catalogue's order. */
  lemma GroupsPreserveOrder(skips: seq<Skip>, profile: WasteProfile)
    ensures IsSubsequence(SuitableSkips(skips, profile), skips)
    ensures IsSubsequence(UnsuitableSkips(skips, profile), skips)
    ensures IsSubsequence(ForbiddenSkips(skips), skips)
  {
  }

  /** Without heavy waste nothing is merely unsuitable: every entry the
      service allows is in the suitable group, in catalogue order. */
  lemma {:induction false} LightWasteAllAllowedSuitable(skips: seq<Skip>, profile: WasteProfile)
    requires profile.heavyPercentage <= 0.0
    ensures UnsuitableSkips(skips, profile) == []
    ensures SuitableSkips(skips, profile) == Filter(skips, (s: Skip) => !s.forbidden)
  {
    if |skips| > 0 {
      LightWasteAllAllowedSuitable(skips[1..], profile);
    }
  }

  // ------------------------------------------------------------ page state

  /** The page's state once loading has finished: the catalogue and the
      `selectedSkip` slot. */
  datatype PageState = PageState(skips: seq<Skip>, selected: Option<Skip>)

  /** The state right after a successful fetch: nothing selected yet. */
  function Loaded(skips: seq<Skip>): PageState
  {
    PageState(skips, None)
  }

  /** `handleSkipSelect`: overwrite the selection slot with the given skip. */
  function HandleSkipSelect(st: PageState, skip: Skip): (r: PageState)
    ensures r.selected == Some(skip)
    ensures r.skips == st.skips
  {
    st.(selected := Some(skip))
  }

  // ----------------------------------------------------------------- cards

  /** What a card's `onSelect` prop does: select the skip (suitable group)
      or raise one of two alerts (the other two groups). */
  datatype Handler = SelectHandler | AlertUnsuitable | AlertUnavailable

  /** The props the page passes to one card. */
  datatype Card = Card(skip: Skip, onSelect: Handler, isSelected: bool, isSuitable: bool)

  /** The `isSelected` prop of the suitable and unsuitable groups: the card's
      skip has the same id as the selected one. */
  function MarkedSelected(selected: Option<Skip>, skip: Skip): (r: bool)
    ensures r ==> selected.Some? && selected.value.id == skip.id
    ensures selected == Some(skip) ==> r
  {
    selected.Some? && selected.value.id == skip.id
  }

  /** The cards of the suitable group, wired to `handleSkipSelect`. */
  function SuitableCards(st: PageState, profile: WasteProfile): (cards: seq<Card>)
    ensures |cards| == |SuitableSkips(st.skips, profile)|
    ensures forall i :: 0 <= i < |cards| ==> cards[i].skip == SuitableSkips(st.skips, profile)[i]
    ensures forall c :: c in cards ==>
              && c.skip in st.skips && IsSkipSuitable(c.skip, profile)
              && c.onSelect == SelectHandler && c.isSuitable
              && c.isSelected == MarkedSelected(st.selected, c.skip)
  {
    var group := SuitableSkips(st.skips, profile);
    seq(|group|, i requires 0 <= i < |group| =>
      Card(group[i], SelectHandler, MarkedSelected(st.selected, group[i]), true))
  }

  /** The cards of the unsuitable group, wired to an alert. */
  function UnsuitableCards(st: PageState, profile: WasteProfile): (cards: seq<Card>)
    ensures |cards| == |UnsuitableSkips(st.skips, profile)|
    ensures forall i :: 0 <= i < |cards| ==> cards[i].skip == UnsuitableSkips(st.skips, profile)[i]
    ensures forall c :: c in cards ==>
              && c.skip in st.skips && !IsSkipSuitable(c.skip, profile) && !c.skip.forbidden
              && c.onSelect == AlertUnsuitable && !c.isSuitable
              && c.isSelected == MarkedSelected(st.selected, c.skip)
  {
    var group := UnsuitableSkips(st.skips, profile);
    seq(|group|, i requires 0 <= i < |group| =>
      Card(group[i], AlertUnsuitable, MarkedSelected(st.selected, group[i]), false))
  }

  /** The cards of the "Unavailable Skips" group, wired to an alert and
      never marked as selected. */
  function ForbiddenCards(st: PageState): (cards: seq<Card>)
    ensures |cards| == |ForbiddenSkips(st.skips)|
    ensures forall i :: 0 <= i < |cards| ==> cards[i].skip == ForbiddenSkips(st.skips)[i]
    ensures forall c :: c in cards ==>
              && c.skip in st.skips && c.skip.forbidden
              && c.onSelect == AlertUnavailable && !c.isSuitable && !c.isSelected
  {
    var group := ForbiddenSkips(st.skips);
    seq(|group|, i requires 0 <= i < |group| => Card(group[i], AlertUnavailable, false, false))
  }

  // ------------------------------------------------------------------ view

  /** The "You have selected" banner: the skip's size and its price with VAT. */
  datatype Banner = Banner(size: int, total: real)

  /** Everything the loaded page renders that carries meaning. */
  datatype View = View(
    heavyNotice: bool,
    banner: Option<Banner>,
    suitable: seq<Card>,
    noSkipsMessage: bool,
    otherHeading: bool,
    unsuitable: seq<Card>,
    unavailableHeading: bool,
    unavailable: seq<Card>,
    continueSize: Option<int>
  )

  /** The page's render once loading has finished without error. */
  function Render(st: PageState, profile: WasteProfile): (v: View)
    ensures v.heavyNotice <==> profile.heavyPercentage > 0.0
    ensures v.noSkipsMessage <==> |st.skips| == 0
    ensures v.banner.Some? <==> st.selected.Some?
    ensures v.continueSize.Some? <==> st.selected.Some?
    ensures st.selected.Some? ==>
              v.banner.value.total == SkipItem.TotalPrice(st.selected.value.priceBeforeVat, st.selected.value.vat)
              && v.banner.value.size == st.selected.value.size
              && v.continueSize.value == st.selected.value.size
    ensures v.otherHeading <==> |v.suitable| > 0 && |v.unsuitable| > 0
    ensures v.unavailableHeading <==> |v.unavailable| > 0
    ensures v.suitable == SuitableCards(st, profile)
    ensures v.unsuitable == UnsuitableCards(st, profile)
    ensures v.unavailable == ForbiddenCards(st)
    ensures |v.suitable| + |v.unsuitable| + |v.unavailable| == |st.skips|
  {
    var suitable := SuitableSkips(st.skips, profile);
    var unsuitable := UnsuitableSkips(st.skips, profile);
    var forbidden := ForbiddenSkips(st.skips);
    GroupSizesAddUp(st.skips, profile);
    View(
      heavyNotice := profile.heavyPercentage > 0.0,
      banner := match st.selected
                case None => None
                case Some(s) => Some(Banner(s.size, SkipItem.TotalPrice(s.priceBeforeVat, s.vat))),
      suitable := SuitableCards(st, profile),
      noSkipsMessage := |suitable| == 0 && |st.skips| == 0,
      otherHeading := |unsuitable| > 0 && |suitable| > 0,
      unsuitable := UnsuitableCards(st, profile),
      unavailableHeading := |forbidden| > 0,
      unavailable := ForbiddenCards(st),
      continueSize := match st.selected
                      case None => None
                      case Some(s) => Some(s.size)
    )
  }

  /** The heavy-waste notice tells the truth about the groups: when it is
      shown every selectable card is a heavy-waste skip of at most the size
      limit, and when it is not shown no skip is merely unsuitable. */
  lemma HeavyNoticeMatchesGroups(st: PageState, profile: WasteProfile)
    ensures Render(st, profile).heavyNotice ==>
              forall c :: c in Render(st, profile).suitable ==>
                c.skip.allowsHeavyWaste && c.skip.size <= HeavyWasteSizeLimit
    ensures !Render(st, profile).heavyNotice ==> Render(st, profile).unsuitable == []
  {
    if profile.heavyPercentage <= 0.0 {
      LightWasteAllAllowedSuitable(st.skips, profile);
    }
  }

  /** All cards on the page, in the order they are drawn. */
  function AllCards(v: View): seq<Card>
  {
    v.suitable + v.unsuitable + v.unavailable
  }

  // ---------------------------------------------------------------- clicks

  /** A click on a card: the card's own gate decides whether `onSelect`
      runs, and the handler the page wired in decides what that does.
      Alerts and log lines leave the state as it was. */
  function ClickCard(st: PageState, card: Card): (r: PageState)
    ensures r.skips == st.skips
    ensures r != st ==> card.onSelect == SelectHandler && card.isSuitable && !card.skip.forbidden
    ensures card.onSelect == SelectHandler && card.isSuitable && !card.skip.forbidden ==>
              r.selected == Some(card.skip)
  {
    match SkipItem.HandleSelectClick(card.skip, card.isSuitable)
    case CallOnSelect(s) =>
      (match card.onSelect
       case SelectHandler => HandleSkipSelect(st, s)
       case AlertUnsuitable => st
       case AlertUnavailable => st)
    case RefusedForbidden => st
    case RefusedUnsuitable => st
  }

  /** Cards of the suitable group select their skip on a click; cards of
      the other two groups never get past the card's own gate, so the
      page's alerts for them are never raised. */
  lemma ClicksByGroup(st: PageState, profile: WasteProfile)
    ensures forall c :: c in Render(st, profile).suitable ==>
              SkipItem.HandleSelectClick(c.skip, c.isSuitable) == SkipItem.CallOnSelect(c.skip)
              && ClickCard(st, c).selected == Some(c.skip)
    ensures forall c :: c in Render(st, profile).unsuitable ==>
              SkipItem.HandleSelectClick(c.skip, c.isSuitable) == SkipItem.RefusedUnsuitable
              && ClickCard(st, c) == st
    ensures forall c :: c in Render(st, profile).unavailable ==>
              SkipItem.HandleSelectClick(c.skip, c.isSuitable) == SkipItem.RefusedForbidden
              && ClickCard(st, c) == st
  {
  }

  /** The page's invariant: the selection slot is empty or holds a
      catalogue entry that is suitable for the profile. */
  predicate SelectionValid(st: PageState, profile: WasteProfile)
  {
    st.selected.None? || (st.selected.value in st.skips && IsSkipSuitable(st.selected.value, profile))
  }

  /** A click on any card the page renders keeps the selection valid. */
  lemma ClickKeepsSelectionValid(st: PageState, profile: WasteProfile, card: Card)
    requires SelectionValid(st, profile)
    requires card in AllCards(Render(st, profile))
    ensures SelectionValid(ClickCard(st, card), profile)
  {
  }

  /** One click, given as a position in the list of cards the page shows at
      that moment; a click that hits no card does nothing. */
  function Step(st: PageState, profile: WasteProfile, click: nat): (r: PageState)
    requires SelectionValid(st, profile)
    ensures SelectionValid(r, profile)
    ensures r.skips == st.skips
  {
    var cards := AllCards(Render(st, profile));
    if click < |cards| then
      ClickKeepsSelectionValid(st, profile, cards[click]);
      ClickCard(st, cards[click])
    else st
  }

  /** Replays a sequence of clicks. */
  function Run(st: PageState, profile: WasteProfile, clicks: seq<nat>): (r: PageState)
    requires SelectionValid(st, profile)
    ensures SelectionValid(r, profile)
    ensures r.skips == st.skips
    decreases |clicks|
  {
    if |clicks| == 0 then st
    else Run(Step(st, profile, clicks[0]), profile, clicks[1..])
  }

  /** From a freshly loaded catalogue, whatever the user clicks, the
      selection is empty or a suitable catalogue entry. */
  lemma SelectionAlwaysSuitable(skips: seq<Skip>, profile: WasteProfile, clicks: seq<nat>)
    ensures var r := Run(Loaded(skips), profile, clicks);
            r.skips == skips && (r.selected.None? || (r.selected.value in skips && IsSkipSuitable(r.selected.value, profile)))
  {
  }

  /** With unique ids and a valid selection, the green "selected" mark can
      only be on a card of the suitable group. */
  lemma SelectedMarkOnlyOnSuitable(st: PageState, profile: WasteProfile)
    requires UniqueIds(st.skips)
    requires SelectionValid(st, profile)
    ensures forall c :: c in Render(st, profile).unsuitable ==> !c.isSelected
    ensures forall c :: c in Render(st, profile).unavailable ==> !c.isSelected
  {
  }
}
