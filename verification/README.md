# Skip selection: suitability, grouping, selection and VAT price

A Dafny model of the business rules of the skip-hire "Select Your Skip" page
(`src/app/skip-select/page.tsx` and its card component
`src/app/skip-select/SkipItem.tsx`). The page receives a catalogue of skip
offerings, judges each against the customer's waste profile, shows them in
three groups (suitable, "Other Skip Sizes", "Unavailable Skips"), lets a click
on a card fill a single `selectedSkip` slot, and shows prices including VAT.

Files and modules:

- `wrappers.dfy`, module `Wrappers`: `Option`, standing for JavaScript's `null`.
- `skip_types.dfy`, module `SkipTypes`: the `Skip` record of
  `src/types/index.ts` as an immutable datatype, and the `WasteProfile`. The
  page hard-codes its profile; here the profile is a parameter everywhere.
- `seqs.dfy`, module `Seqs`: an order-preserving `Filter` (the model of
  `Array.prototype.filter`), a subsequence predicate, and the lemmas that
  filtering keeps order, keeps exactly the matching elements, and that three
  classifying filters partition a sequence, with multiplicity.
- `suitability.dfy`, module `Suitability`: `isSkipSuitable` with its 8-yard
  heavy-waste limit, and a three-way `Classify` reference rule with the lemma
  that the two agree.
- `skip_item.dfy`, module `SkipItem`: the card's `totalPrice`, its click gate
  `handleSelectClick` with the two refusal reasons, `isSelectable`, and the two
  status labels.
- `page.dfy`, module `SkipSelectPage`: the three groups, the cards the page
  wires to them, the rendered conditions (heavy-waste notice, "No skips
  available" message, headings, selected banner and its price, continue
  button), `handleSkipSelect`, and clicks replayed over the rendered cards.

Notable consequences proved about the code as written:

- The selection slot only ever holds a suitable catalogue entry, whatever
  sequence of cards the user clicks (`SelectionAlwaysSuitable`).
- The alerts the page wires into the unsuitable and forbidden cards
  (page.tsx lines 169 and 185) can never be raised: those cards are created
  with `isSuitable = false`, so the card's own gate refuses the click before
  it calls `onSelect` (`ClicksByGroup`). The user only gets the card's log
  line and its label.
- The road-permit rule is commented out, so suitability does not depend on
  `allowedOnRoad` or `requiresRoadPermit` (`SuitabilityIgnoresRoad`).
- `TotalPrice(149.99, 17.5)` is exactly `176.23825` before display rounding.

## Model

| member | source | states |
|---|---|---|
| `Suitability.IsSkipSuitable` | src/app/skip-select/page.tsx:74-101 | a forbidden skip is never suitable; with heavy waste a non-forbidden skip is suitable iff it allows heavy waste and its size is at most 8; without heavy waste every non-forbidden skip is suitable |
| `Suitability.SuitableIffClassified` | src/app/skip-select/page.tsx:74-106 | the boolean rule agrees with the first-match three-way classification: suitable iff `Suitable`, `Forbidden` iff the veto flag, `Unsuitable` iff neither suitable nor forbidden |
| `Suitability.SuitabilityIgnoresRoad` | src/app/skip-select/page.tsx:92-96 | changing `allowedOnRoad` or `requiresRoadPermit` never changes the verdict |
| `Suitability.OnlyHeavinessMatters` | src/app/skip-select/page.tsx:86 | two profiles that agree on whether heavy waste is present judge every skip alike |
| `Suitability.HeavyWasteBoundary` | src/app/skip-select/page.tsx:80-89 | the size limit is inclusive: 8 yards passes and 9 yards fails for a heavy-waste skip |
| `SkipItem.TotalPrice` | src/app/skip-select/SkipItem.tsx:26 | the total equals the price times `1 + vat/100`; with VAT 0 it is the price; with non-negative price and VAT it is at least the price and non-negative |
| `SkipItem.TotalPriceRecoversBase` | src/app/skip-select/SkipItem.tsx:26 | dividing the total by the VAT factor gives back the price before VAT, for any VAT above -100 percent |
| `SkipItem.TotalPriceMonotone` | src/app/skip-select/SkipItem.tsx:26 | at a fixed non-negative VAT a higher base price never gives a lower total |
| `SkipItem.TotalPriceExamples` | src/app/skip-select/SkipItem.tsx:26 | worked values: (100, 20) gives 120, (0, 50) gives 0, (149.99, 17.5) gives 176.23825 |
| `SkipItem.HandleSelectClick` | src/app/skip-select/SkipItem.tsx:28-37 | `onSelect` is called exactly when the card is suitable and not forbidden, and with the card's own skip; a forbidden skip is refused as forbidden even when marked suitable; otherwise the refusal is "unsuitable" |
| `SkipItem.ClickGateMatchesCard` | src/app/skip-select/SkipItem.tsx:28-76 | the click gate equals `isSelectable`; a card is selectable iff it shows no status label; each refusal reason matches the one label shown; the "unavailable" and "not suitable" labels never show together |
| `SkipItem.IsSelectable` | src/app/skip-select/SkipItem.tsx:40 | `isSelectable` holds exactly when a click passes the card's gate and calls `onSelect` with the card's skip (see also `ClickGateMatchesCard`) |
| `SkipItem.ShowsUnavailableLabel` | src/app/skip-select/SkipItem.tsx:71-73 | the "currently unavailable" label shows exactly when a click is refused as forbidden even on a card marked suitable, and then a click is refused as forbidden whatever `isSuitable` is |
| `SkipItem.ShowsNotSuitableLabel` | src/app/skip-select/SkipItem.tsx:74-76 | the "Not suitable" label shows exactly when a click is refused as unsuitable |
| `Seqs.Filter` | src/app/skip-select/page.tsx:105-106 | the filter result is no longer than its input, every element of it is an input element that satisfies the predicate, and every input element that satisfies the predicate is in it |
| `Seqs.FilterMembership` | src/app/skip-select/page.tsx:105-106 | a value is in the filter result iff it occurs in the input and satisfies the predicate |
| `Seqs.FilterIsSubsequence` | src/app/skip-select/page.tsx:105-106 | the filter result is a subsequence of the input, so filtering never reorders |
| `SkipSelectPage.SuitableSkips` | src/app/skip-select/page.tsx:105 | `suitableSkips` holds exactly the catalogue entries that pass the suitability rule, in catalogue order (see also `GroupMembership`) |
| `SkipSelectPage.UnsuitableSkips` | src/app/skip-select/page.tsx:106 | `unsuitableSkips` holds exactly the catalogue entries that are neither suitable nor forbidden, in catalogue order |
| `SkipSelectPage.ForbiddenSkips` | src/app/skip-select/page.tsx:178-181 | the "Unavailable Skips" filter holds exactly the forbidden catalogue entries, in catalogue order |
| `SkipSelectPage.GroupMembership` | src/app/skip-select/page.tsx:104-106 | each group (suitable, unsuitable, and the forbidden filter of line 181) holds exactly the catalogue entries of its classification |
| `SkipSelectPage.GroupsDisjointAndExhaustive` | src/app/skip-select/page.tsx:104-106 | every catalogue entry lies in some group, no entry lies in two groups, and nothing outside the catalogue lies in any group |
| `SkipSelectPage.GroupsPartitionCatalogue` | src/app/skip-select/page.tsx:104-106 | counted with multiplicity, the suitable, unsuitable and forbidden groups together are exactly the catalogue |
| `SkipSelectPage.GroupSizesAddUp` | src/app/skip-select/page.tsx:104-106 | the three group lengths add up to the catalogue length |
| `SkipSelectPage.GroupsPreserveOrder` | src/app/skip-select/page.tsx:104-106 | each group is a subsequence of the catalogue, so catalogue order is kept within a group |
| `SkipSelectPage.LightWasteAllAllowedSuitable` | src/app/skip-select/page.tsx:86-100 | without heavy waste the unsuitable group is empty and the suitable group is the catalogue minus its forbidden entries, in order |
| `SkipSelectPage.HandleSkipSelect` | src/app/skip-select/page.tsx:66-67 | the slot then holds exactly the given skip and the catalogue is unchanged |
| `SkipSelectPage.MarkedSelected` | src/app/skip-select/page.tsx:148 | a card is marked selected only while something is selected and only when its id equals the selected skip's id, and the selected skip's own card is always marked (see `SelectedMarkOnlyOnSuitable` for where the mark can land) |
| `SkipSelectPage.SuitableCards` | src/app/skip-select/page.tsx:143-150 | one card per suitable skip, in order, each suitable, marked `isSuitable`, wired to `handleSkipSelect`, marked selected iff its id is the selected id |
| `SkipSelectPage.UnsuitableCards` | src/app/skip-select/page.tsx:165-172 | one card per unsuitable skip, in order, each neither suitable nor forbidden, wired to the "not suitable" alert, marked selected iff its id is the selected id |
| `SkipSelectPage.ForbiddenCards` | src/app/skip-select/page.tsx:181-188 | one card per forbidden skip, in order, wired to the "unavailable" alert and never marked selected |
| `SkipSelectPage.Render` | src/app/skip-select/page.tsx:116-205 | the heavy-waste notice shows iff the profile has heavy waste; "No skips available" shows iff the catalogue is empty; banner and continue button show iff a skip is selected, with its size and its VAT-inclusive total; the "Other Skip Sizes" heading shows iff both other groups are non-empty; the "Unavailable Skips" heading iff that group is non-empty; the three card lists are exactly the suitable, unsuitable and forbidden cards, and together they number as many as the catalogue entries |
| `SkipSelectPage.HeavyNoticeMatchesGroups` | src/app/skip-select/page.tsx:122-127 | when the heavy-waste notice shows, every selectable card is a heavy-waste skip of at most 8 yards; when it does not, no skip is merely unsuitable |
| `SkipSelectPage.ClickCard` | src/app/skip-select/page.tsx:143-189 | a click never changes the catalogue; it changes the state only on a suitable, non-forbidden card wired to `handleSkipSelect`, and then selects that card's skip |
| `SkipSelectPage.ClicksByGroup` | src/app/skip-select/page.tsx:143-189 | a click on a suitable card selects its skip; clicks on unsuitable and forbidden cards are refused by the card with the matching reason, so the page's alerts never run, and the state is unchanged |
| `SkipSelectPage.ClickKeepsSelectionValid` | src/app/skip-select/page.tsx:143-149 | a click on any rendered card keeps the selection empty or a suitable catalogue entry |
| `SkipSelectPage.Step` | src/app/skip-select/page.tsx:143-189 | one click, hit or miss, keeps the catalogue and the selection invariant |
| `SkipSelectPage.Run` | src/app/skip-select/page.tsx:17 | any sequence of clicks keeps the catalogue and the selection invariant |
| `SkipSelectPage.SelectionAlwaysSuitable` | src/app/skip-select/page.tsx:66-67 | from a freshly loaded catalogue, after any clicks the selection is empty or a suitable catalogue entry |
| `SkipSelectPage.SelectedMarkOnlyOnSuitable` | src/app/skip-select/page.tsx:148-186 | with unique ids and a valid selection, no unsuitable or forbidden card carries the selected mark |

## Left out

- Loading the catalogue: the `useEffect` fetch, the HTTP status check, the
  loading and error flags and their screens (page.tsx lines 40-63, 108-114)
  are network I/O and framework lifecycle. The model starts from a loaded
  catalogue (`Loaded`) with nothing selected. A refetch, which would replace
  the catalogue but keep the selection, cannot happen in the source after the
  first load because postcode and area are constants.
- The hard-coded postcode and area (page.tsx lines 23-24); no stale-response
  guard exists in the source, so none is modelled.
- JSX markup, Tailwind class strings, `console.log` and `alert` calls. An alert
  or a log line is modelled as a click that leaves the state unchanged; the
  refusal reason is kept as the `ClickOutcome`.
- `SkipItem.TotalPrice`: works over exact rationals; JavaScript's
  floating-point arithmetic and the `toFixed(2)` display rounding
  (SkipItem.tsx line 61, page.tsx line 135) are not modelled.
- Numbers: `size`, `id` and `hire_period_days` are modelled as integers, prices,
  costs, VAT and the heavy-waste share as reals; non-integral sizes are not
  considered.
- The timestamp, postcode and area fields of a skip are carried in the
  datatype but nothing reads them; the waste profile's `type` likewise.
