# Aptifum: a model of the web client and core logic

This project models the algorithmic parts of the Aptifum web client and of its shared core package, and
proves what they promise. It is self-contained; `dafny verify dfyconfig.toml` checks all of it.

- `RefreshProtocol.dfy`, `ApiClient.dfy`: the token refresh protocol. Many API calls, downloads, sign-ins and
  sign-outs interleave at each `await` and share one refresh through the module variable `refreshPromise` and two
  storage keys. A step is the code between two `await`s, the server and the network choose what arrives next, and
  the theorems are about every run from a freshly loaded page. The class `Client` has the page's variables and its
  methods make exactly the steps of the machine. A promise is named by its position in `flights`, so a promise that
  stays in the slot after it settled is expressible; that is what the return without a stored token leaves behind.
  The one assumption on the server is that a refresh token it hands out was never held by the page before.
- `Requests.dfy`: what goes out on the wire along a run and what comes of it: the header of every request, the outcome
  of every refresh, the storage at the end of a boot check and a sign-out.
- `SignIn.dfy`: what becomes of a sign-in in that machine, with the pairs refreshed from it as its session.
- `Csv.dfy`: the CSV printer and a reader for RFC 4180, section 2, with `;` as the separator.
- `Money.dfy`, `PosTicket.dfy`: half-up rounding, document totals, the point-of-sale ticket and its own totals.
- `PostedSale.dfy`: the sale a ticket is posted as: what the server refuses, the prices and the tax rate it fills in,
  and how its totals relate to the ones at the till.
- `SalesTax.dfy`, `SettingsForm.dfy`: the US sales tax rate, the server's normalisation of a configuration, and the
  settings form that loads and saves one.
- `Rfc.dfy`, `Texts.dfy`: the validator of Mexican tax identifiers and the string operations behind it.
- `DataTable.dfy`, `StableSort.dfy`: the table comparator with the blanks-last rule and stable sorting in general.
- `CommandPalette.dfy`: the grouped view of a flat list and the cursor that moves in it.
- `Pagination.dfy`, `Debounce.dfy`, `Workspace.dfy`: page ranges, the search debounce, the ancestor search.

Behaviour a reader of the code may not expect, each stated as a theorem:

- A 401 on an authenticated call while signed out and with no refresh under way leaves a settled `false` in
  `refreshPromise` for the life of the page: no refresh is ever sent again, even after a new sign-in
  (`StuckForever`, `StuckIffTaken`, `StuckAfterSignIn`).
- A refresh that outlives a sign-out can store tokens again; storage stays empty exactly when none is unfinished
  (`LogoutIsFinalIff`, with a run from a loaded page in `SignOutUndone`).
- A completed sign-in can be undone by something older: an old refresh empties the storage or puts the old session's
  tokens over the new ones, and an old sign-out or boot check empties it. The new session lasts exactly when none of
  these was unfinished when it was stored (`SignInLastsIff`, with a run from a loaded page in `SignInUndone`).
- A discount on a half cent makes a document miss its balance by exactly one cent (`RoundedConservation`).
- The till taxes a line without a rate at zero and the server at the customer's sales tax rate, so one tap of a 10.00
  product can be a sale of 10.73 (`OneTapDiffers`); `TwoTotalsAgreeIff` and `PricedTotalsAgreeIff` say exactly when
  the amounts agree. The till's clamp on a negative discount never shows: the server refuses such a discount.
- The comparator is not an order on a column in which both `null` and `undefined` occur (`ComparatorLawfulIff`).
- The export of a table without columns cannot be read back (`ExportRoundTripIff`).

## Model

| member | source | states |
|---|---|---|
| RefreshProtocol.NoReplay | apps/web/src/api/client.ts:53-79 | in every run, no refresh token value is posted to /auth/refresh twice |
| RefreshProtocol.SingleFlight | apps/web/src/api/client.ts:53-79 | in every reachable state at most one refresh is unfinished, and the slot is set exactly while one is or the no-token return was taken, never both |
| RefreshProtocol.SharedOutcome | apps/web/src/api/client.ts:54-78 | calls that awaited the same refresh got the same outcome |
| RefreshProtocol.StoredPair | apps/web/src/api/client.ts:18-26 | from a paired or empty storage, every reachable storage is empty or holds both tokens of one server result |
| RefreshProtocol.HeadersLegitimate | apps/web/src/api/client.ts:96-103 | calls without `auth` never carry a token, every token sent is the access token of a server result, and only a download's retry can send a null token |
| Requests.FirstRequest | apps/web/src/api/client.ts:96-105 | in every run the first request of an authenticated call carries exactly the non-empty access token stored when it starts, or none when none is stored; other calls carry none, a boot check without both tokens and a sign-out without a refresh token send nothing |
| Requests.SecondRequest | apps/web/src/api/client.ts:105-132 | a second request goes out exactly when the awaited refresh succeeded, with exactly the access token stored at that moment; a download sends what is stored even if it is nothing |
| Requests.RetryCarriesNewToken | apps/web/src/api/client.ts:68-111 | when nothing else wrote the storage since the awaited refresh landed, the retry carries the access token of the pair that refresh received |
| Requests.RefusedCallRetries | apps/web/src/api/client.ts:105-111 | a concrete run from a loaded page: refused with the old token, refreshed, sent again with the new one |
| Requests.RefreshOutcomeIff | apps/web/src/api/client.ts:59-77 | a refresh counts as successful for those who await it exactly when it received tokens |
| Requests.RefusedCallJoins | apps/web/src/api/client.ts:105-126 | a call refused on its first request awaits a refresh exactly when it is authenticated, a download only with a refresh token stored; it joins the refresh under way or posts the stored token |
| Requests.BootCheckStorage | apps/web/src/auth/auth-context.tsx:20-35 | in every run a boot check whose last response was a success with a readable body leaves the storage as it was, and any other empties it |
| Requests.BootKeepsSession | apps/web/src/auth/auth-context.tsx:20-35 | a concrete run from a loaded page: the check succeeds and the user stays signed in |
| Requests.SignOutEmpties | apps/web/src/auth/auth-context.tsx:52-66 | the step that ends a sign-out leaves the storage empty, whatever the server said |
| Requests.PostsBounded | apps/web/src/api/client.ts:105-107 | no more refreshes go out in a run than 401 responses came in |
| RefreshProtocol.StuckIffTaken | apps/web/src/api/client.ts:55-57 | a settled promise is left in the slot after a run exactly when some step of it returned without a stored token |
| RefreshProtocol.StuckForever | apps/web/src/api/client.ts:54-57 | from then on no step sends a refresh and no later call is retried |
| RefreshProtocol.SignedOutCallSticks | apps/web/src/api/client.ts:55-57 | a concrete run: one refused call of a signed-out page leaves a settled promise in the slot |
| RefreshProtocol.StuckAfterSignIn | apps/web/src/api/client.ts:105-111 | and its continuation: the user signs in, and the next refused call fails without a refresh although a token is stored |
| RefreshProtocol.LogoutIsFinalIff | apps/web/src/auth/auth-context.tsx:52-68 | an empty storage stays empty until the next sign-in exactly when no refresh is unfinished |
| RefreshProtocol.RefreshOutlivesSignOut | apps/web/src/auth/auth-context.tsx:52-68 | a concrete run from a loaded page: the sign-out is over, the storage is empty and a refresh is still under way |
| RefreshProtocol.SignOutUndone | apps/web/src/api/client.ts:68-69 | and its continuation: the refresh stores tokens with nobody signed in since |
| SignIn.SignInLastsIff | apps/web/src/auth/auth-context.tsx:41-68 | from a stored sign-in to the next sign-in or sign-out, the storage holds that sign-in's pair or pairs refreshed from it and only its own refresh or a later, failed boot check empties it, in every run exactly when no refresh, sign-out or boot check was unfinished at that step |
| SignIn.SignInUndone | apps/web/src/api/client.ts:64-75 | a concrete run from a loaded page: a refresh of the session before signs the new user out, or puts the old session's tokens over the new ones |
| RefreshProtocol.BoundedRequests | apps/web/src/api/client.ts:105-111 | every call sends its request at most twice, the second time exactly after a refresh that succeeded, and refreshes never outnumber refused calls |
| RefreshProtocol.WorkDecreases | apps/web/src/api/client.ts:93-135 | every step except a new call strictly decreases a measure over calls and refreshes |
| RefreshProtocol.RunsAreShort | apps/web/src/api/client.ts:93-135 | a run takes at most seven steps for each call it starts |
| RefreshProtocol.NoCallIsStranded | apps/web/src/api/client.ts:105-111 | while a call or a refresh is unfinished some step other than a new call is possible |
| ApiClient.Client.constructor | apps/web/src/api/client.ts:8-16 | a fresh page is an initial state of the machine |
| ApiClient.Client.StoreTokens | apps/web/src/api/client.ts:18-21 | both keys are overwritten together |
| ApiClient.Client.ClearTokens | apps/web/src/api/client.ts:23-26 | both keys are removed together |
| ApiClient.Client.RefreshTokens | apps/web/src/api/client.ts:53-63 | joins the promise in the slot, or posts the stored token, or leaves a settled false |
| ApiClient.Client.StartCall | apps/web/src/api/client.ts:93-105 | the first request of each kind of call, with the boot check and the sign-out that send none |
| ApiClient.Client.AnswerCall | apps/web/src/api/client.ts:105-127 | a refused first request of an authenticated call awaits a refresh; a download only with a refresh token stored |
| ApiClient.Client.ResumeCall | apps/web/src/api/client.ts:107-132 | the second request is sent exactly when the awaited refresh succeeded |
| ApiClient.Client.FinishCall | apps/web/src/auth/auth-context.tsx:27-66 | sign-in stores, sign-out clears, a failed boot check clears |
| ApiClient.Client.AnswerFlight | apps/web/src/api/client.ts:59-75 | a refused or lost refresh clears the tokens and empties the slot |
| ApiClient.Client.ReadFlight | apps/web/src/api/client.ts:68-75 | a readable result is stored, an unreadable one clears; either empties the slot |
| Csv.ExportRoundTripIff | apps/web/src/lib/csv.ts:40-42 | the exported text read back by RFC 4180 gives the headers and all cells, for arbitrary cells, exactly when there is a column |
| Csv.ReadBackCell | apps/web/src/lib/csv.ts:3-27 | each cell reads back as the text of the formatter's value when it gives one, else of the renderer's text or number, else of the row's own value, flags as true or false and anything else empty |
| Csv.ExportInjective | apps/web/src/lib/csv.ts:40-42 | equal texts come from equal headers and cells |
| Csv.ReadDoubled | apps/web/src/lib/csv.ts:29-31 | an escaped cell is read back character by character up to its closing quote |
| Money.Round2Near | packages/core/src/index.ts:482 | rounding moves an amount by less than half a cent, or by exactly half a cent upwards |
| Money.RoundedConservation | packages/core/src/index.ts:493-502 | total plus discount minus subtotal and tax is 0, or 0.01 precisely when the discount is on a half cent |
| Money.SplitDrift | packages/core/src/index.ts:493-502 | splitting an order into n documents moves subtotal and tax by at most 0.005(n+1) |
| Money.TotalDrift | packages/core/src/index.ts:493-502 | the total is within 0.015 of the exact amount |
| Money.TotalsPermute | packages/core/src/index.ts:493-502 | the totals do not depend on the order of the items |
| Money.TaxIgnoresDiscounts | packages/core/src/index.ts:494-495 | line and document discounts leave the tax as it was |
| PosTicket.KeysStayDistinct | apps/web/src/pages/pos-page.tsx:102-133 | under any taps, edits and removals no two lines share product and variant |
| PosTicket.TicketCountsTaps | apps/web/src/pages/pos-page.tsx:102-125 | with taps only, there is one line for each product and variant tapped, in first-tap order, with the product's own fields and price, its tap count as quantity and no tax rate |
| PosTicket.TappedIsApplied | apps/web/src/pages/pos-page.tsx:102-125 | the ticket spoken of there is the one the taps produce one after the other |
| PosTicket.TapsSubtotal | apps/web/src/pages/pos-page.tsx:135-147 | with constant prices the subtotal is the rounded sum of the prices tapped |
| PosTicket.NetAfterChange | apps/web/src/pages/pos-page.tsx:127-136 | editing the quantity moves the sum by the change times the price, editing the price by the quantity times the change, editing the rate not at all |
| PosTicket.TaxAfterRate | apps/web/src/pages/pos-page.tsx:137-144 | editing the rate moves the tax by the line's amount times the change of the rate in percent |
| PosTicket.NetAfterRemoval | apps/web/src/pages/pos-page.tsx:131-136 | a removal takes exactly the line's amount, its quantity times its price, off the sum |
| PosTicket.EmptyInputsCountNothing | apps/web/src/pages/pos-page.tsx:135-136 | a line with an empty quantity or price adds nothing to the sum |
| PosTicket.PosPage.TapProduct | apps/web/src/pages/pos-page.tsx:102-125 | a tap adds one to the quantity of the line of its product and variant, or a new last line with the product's fields; other lines and the discount stay, and the sum grows by the price when the line carries it |
| PosTicket.PosPage.EditLine | apps/web/src/pages/pos-page.tsx:127-129 | the value goes into the named field of the indexed line; its other fields, every other line and the discount stay, and the sum moves by that line's change |
| PosTicket.PosPage.RemoveLineAt | apps/web/src/pages/pos-page.tsx:131-133 | a removal drops the indexed line, keeps the others in their order and takes exactly its amount off the sum; outside the ticket it changes nothing |
| PostedSale.AcceptedIff | apps/api/src/modules/sales/dto/create-invoice.dto.ts:15-82 | a sale is accepted exactly when it has an item, each with a quantity of at least 0.0001, no negative price or rate, a known product and no variant or one of that product, and no negative discount |
| PostedSale.RefusedAs | apps/api/src/modules/sales/invoices.service.ts:411-422 | otherwise it is a bad request when out of bounds; the first item that cannot be sold is not found, or a bad request for a variant of another product |
| PostedSale.SaleIsCharged | apps/api/src/modules/sales/invoices.service.ts:411-439 | an accepted sale has the totals of its lines, each at its own price or the price of its variant, or of its product without one, and at its own rate or the customer's |
| PostedSale.TwoTotalsAgreeIff | apps/api/src/modules/sales/invoices.service.ts:409-439 | for every accepted ticket the discounts agree, and subtotal, tax and total each agree exactly when the prices and rates the server fills in do not move its cents |
| PostedSale.PricedTotalsAgreeIff | apps/api/src/modules/sales/invoices.service.ts:423-439 | with prices filled in subtotal and discount always agree, tax and total exactly when the default rate on the lines without one does not move the cents; no such line or no default rate is enough, a whole cent is too much |
| PostedSale.SaleRate | apps/api/src/modules/tax/us-sales-tax.service.ts:43-56 | no tax outside the US, for exempt customers and for customers without a state; a stored configuration never resolves to a negative rate |
| PostedSale.TillNeverShowsMore | apps/api/src/modules/sales/invoices.service.ts:423-439 | when no catalogue price and no default rate is negative, no amount at the till is more than the sale's |
| PostedSale.TapsSale | apps/api/src/modules/sales/invoices.service.ts:411-439 | a ticket of taps on offered products is accepted; the till shows no tax on it and the sale charges the default rate on the sum of the prices tapped |
| PostedSale.OneTapDiffers | apps/api/src/modules/sales/invoices.service.ts:425 | a concrete sale: one tap at 10.00, a customer in a nexus state at 7.25 percent, 10.00 at the till and 10.73 sold |
| SalesTax.UntouchedSaveIff | apps/web/src/pages/settings-page.tsx:73-86 | saving an untouched form succeeds exactly when the rates of its nexus are in [0, 0.5] |
| SalesTax.FormKeepsMeaningIff | packages/core/src/index.ts:351-372 | load and save keeps the rate of every customer exactly when overrides in nexus are on the 1/10000 grid and overrides selected only by a differently written code equal the default |
| SalesTax.RateSurvivesIff | apps/web/src/pages/settings-page.tsx:84 | a rate shown as a percentage and saved comes back exactly when it is on the grid, and moves to the nearest on it otherwise |
| SalesTax.CustomerPays | packages/core/src/index.ts:351-372 | a customer's state, in any case and with blanks around it, pays the override of a nexus state, its default without one, and nothing outside the nexus, in an unknown state or when exempt |
| SalesTax.LowerCaseState | packages/core/src/index.ts:359 | a state code written small reads as its capitals |
| SalesTax.SavesIff | apps/web/src/pages/settings-page.tsx:73-86 | a form is saved exactly when each override in its nexus is empty or from 0 to 50 percent |
| SalesTax.SavedRates | apps/web/src/pages/settings-page.tsx:76-85 | it posts its nexus and a rate for exactly the codes in it with a percentage, to the nearest hundredth of a percent; a cleared override is dropped |
| SalesTax.StoresKeepsStored | apps/api/src/modules/tax/us-sales-tax.service.ts:29-37 | an update keeps the stored form: known distinct codes, rates on the grid in [0, 0.5] |
| SalesTax.NexusOnlyUpdate | apps/api/src/modules/tax/us-sales-tax.service.ts:29-37 | an update that posts no rates leaves what customers pay in every state that stays in the nexus |
| SalesTax.HistoryStored | apps/api/src/modules/tax/us-sales-tax.service.ts:29-37 | every configuration reached by updates from one in stored form, the seeded one included, is in stored form |
| SalesTax.UntouchedSaveAccepted | apps/api/src/modules/tax/us-sales-tax.service.ts:77-110 | a stored configuration loaded and saved untouched is accepted by form and server |
| SalesTax.UntouchedSaveKeepsMeaning | apps/web/src/pages/settings-page.tsx:45-86 | it keeps the rate of every customer state and exemption, though overrides outside the nexus are dropped |
| SettingsForm.SettingsPage.Load | apps/web/src/pages/settings-page.tsx:45-53 | fills the form from the configuration |
| SettingsForm.SettingsPage.ToggleNexus | apps/web/src/pages/settings-page.tsx:57-67 | flips one code and no other |
| SettingsForm.SettingsPage.SetOverride | apps/web/src/pages/settings-page.tsx:69-71 | replaces one override |
| SettingsForm.SettingsPage.Save | apps/web/src/pages/settings-page.tsx:73-86 | posts the sorted nexus with its rounded rates, or reports the first code with an invalid override |
| SettingsForm.BeforeIff | apps/web/src/pages/settings-page.tsx:74 | the order of the codes is the dictionary's |
| SettingsForm.SortedCodes | apps/web/src/pages/settings-page.tsx:74 | the codes of the set in increasing order, each once |
| Rfc.GrammarIff | packages/core/src/index.ts:237-269 | accepted exactly when the normalised string is 3 or 4 initials, a real yymmdd date and 3 alphanumerics |
| Rfc.AcceptedIffSpelling | packages/core/src/index.ts:225-269 | accepted exactly when the string is made out of a well-formed identifier by inserting white space, dots and hyphens and changing case alone |
| Rfc.NormalIsFixed | packages/core/src/index.ts:225-230 | a string of characters that are no separators and their own upper case is left as it is |
| Rfc.GenericHasParts | packages/core/src/index.ts:222-241 | the two generic identifiers satisfy the same grammar |
| Rfc.RenderInjective | packages/core/src/index.ts:245-264 | an identifier has one decomposition |
| Rfc.LeapRule | packages/core/src/index.ts:260 | the calendar's leap rule is yy mod 4 = 0 on the years in question |
| Rfc.SpellingDoesNotMatter | packages/core/src/index.ts:225-230 | inserting spaces, dots or hyphens and changing case, in any number and order, never changes the verdict |
| DataTable.ComparatorLawfulIff | apps/web/src/components/ui.tsx:238-248 | on a column of numbers, or of any values without numbers, the comparator is a total preorder exactly when null and undefined do not both occur |
| DataTable.SortedRowsUnique | apps/web/src/components/ui.tsx:233-249 | with the first column of the sort's key, every stable sort by that column gives the same rows, a permutation |
| DataTable.UnsortedRows | apps/web/src/components/ui.tsx:234-236 | without a sort, or with a key that no column has, the rows come as they were |
| DataTable.EqualValuesKeepOrder | apps/web/src/components/ui.tsx:238-241 | rows with the same value in that column keep their order, in both directions |
| DataTable.SortedByValue | apps/web/src/components/ui.tsx:237-247 | in the first column of the sort's key, with the value its `sortValue` gives or else the row's own cell, ascending orders numbers by value and other values by the host's order of their text, descending the other way round, blanks last in both |
| DataTable.DescendingMirrorsAscending | apps/web/src/components/ui.tsx:237-248 | descending is ascending with its blocks of equal values reversed and the blanks still last |
| DataTable.PressesCycle | apps/web/src/components/ui.tsx:254-261 | after k presses of a header the sort depends only on k mod 3: none, ascending, descending |
| DataTable.ThreePressesRestore | apps/web/src/components/ui.tsx:230-261 | every third press shows the rows as they came |
| DataTable.SortState.ToggleSort | apps/web/src/components/ui.tsx:251-267 | a press is one more press of the cycle, kept here or sent to the owner and then kept nowhere; a column that cannot be sorted changes nothing |
| StableSort.StableSortUnique | apps/web/src/components/ui.tsx:238 | two ordered lists with the same blocks of ties are equal |
| StableSort.SortIsStable | apps/web/src/components/ui.tsx:238 | a stable sort exists for every total preorder |
| CommandPalette.AgreementIff | apps/web/src/components/command-palette.tsx:183-233 | every displayed item is the one at its index in the flat list exactly when equal group labels are contiguous |
| CommandPalette.RenderedIndexOnto | apps/web/src/components/command-palette.tsx:226-233 | every list position is the index of a displayed item |
| CommandPalette.RenderedIndexInjective | apps/web/src/components/command-palette.tsx:226-233 | no two displayed items have the same index |
| CommandPalette.PaletteItemsAgree | apps/web/src/components/command-palette.tsx:108-152 | the list built from the four labelled blocks, empty ones included, agrees everywhere |
| CommandPalette.PaletteShowsBlocks | apps/web/src/components/command-palette.tsx:108-189 | each of its blocks that is not empty is shown as one group under its label, all of it in order, and nothing else is listed |
| CommandPalette.NewItemsStartOver | apps/web/src/components/command-palette.tsx:154-176 | whatever happened before, new items put Enter on the first, and k presses down on the one k places on or the last |
| CommandPalette.CursorStaysInRange | apps/web/src/components/command-palette.tsx:154-181 | after any inputs the cursor is on an item, or at -1 or 0 of an empty list |
| CommandPalette.HoldingAnArrow | apps/web/src/components/command-palette.tsx:170-176 | k presses of an arrow move k items and stop at the ends |
| CommandPalette.EnterRunsTheHighlighted | apps/web/src/components/command-palette.tsx:163-181 | exactly one displayed item is highlighted and Enter runs it |
| CommandPalette.BuildGroups | apps/web/src/components/command-palette.tsx:183-189 | the loop collects the labels in first-occurrence order and groups the items by them |
| CommandPalette.Palette.PressArrow | apps/web/src/components/command-palette.tsx:170-176 | an arrow leaves the items alone, moves the cursor by at most one and keeps it in the list |
| CommandPalette.Palette.SelectIndex | apps/web/src/components/command-palette.tsx:163-168 | an item of the list is run exactly when the index is in it |
| CommandPalette.Palette.HoverItem | apps/web/src/components/command-palette.tsx:241 | the item under the mouse is the highlighted one, and Enter would run it when equal labels are contiguous |
| Pagination.PagesTile | apps/web/src/components/ui.tsx:382-384 | page ranges are non-empty, consecutive and run from 1 to the total; an empty list has one page, 0 to 0 |
| Pagination.EveryRowOnOnePage | apps/web/src/components/ui.tsx:382-384 | every row is on exactly one of the pages |
| Pagination.ClicksStayInRange | apps/web/src/components/ui.tsx:387-401 | any run of previous and next clicks stays within the pages |
| Pagination.ClicksReach | apps/web/src/components/ui.tsx:387-401 | k clicks move k pages and stop at the last or the first |
| Debounce.DebounceConverges | apps/web/src/hooks/use-paged-query.ts:40-56 | at most one timer is pending, with none pending the debounced query is the latest, and 300 ms of quiet gets there |
| Debounce.DebouncedIsLastFired | apps/web/src/hooks/use-paged-query.ts:40-50 | at every moment the debounced query is the latest one as of the last timer that fired, the first one before any has |
| Debounce.FiresOnlyWhenQuiet | apps/web/src/hooks/use-paged-query.ts:47-50 | a timer fires only after 300 ms without a change, and with the latest query |
| Debounce.Hook.Effect | apps/web/src/hooks/use-paged-query.ts:43-50 | exactly one timer is pending afterwards, due in 300 ms with the new query; the debounced query is as it was |
| Debounce.Hook.OnTimer | apps/web/src/hooks/use-paged-query.ts:47-50 | no timer is left and the debounced query is the latest one |
| Debounce.Hook.OnUnmount | apps/web/src/hooks/use-paged-query.ts:51-55 | no timer is left, and both queries are as they were |
| Workspace.ResolveWorkspaceRoot | packages/config/src/workspace.ts:4-16 | terminates with the deepest ancestor-or-self holding the marker, and fails exactly when none does |

## Left out

- React rendering, styling, routing, translations, dialogs and charts: there is no algorithm behind them.
- The user and initializing fields of the auth context: the model follows the tokens, not the profile shown.
- The server's refresh sessions and their families: the model only assumes that handed-out refresh tokens are new.
- Page reloads and other tabs: a run is the life of one page, and `refreshPromise` belongs to the page.
- Storage and stringification failures, and a result without its two token fields: a readable result carries both.
- The bodies of ordinary responses, file names and the download itself: only what decides the next step is kept.
- Floating point: amounts, rates and percentages are exact reals, and number and string conversions are exact.
- Numeric inputs that hold text which is no number: they are `type="number"`, where such text reads as empty.
- The rest of a posted sale: its warehouse, customer lookup, currency, number, stock and ledger entries, and the
  format of the identifiers in it.
- The invoice the server makes from a sales order: the till never asks for one.
- Overrides under codes that normalise to the same state: either may win, as the order of posted entries decides.
- Sorting a column that mixes numbers with other values: nothing is claimed there beyond what the comparator computes.
- `localeCompare`: any string order that is a total preorder; the host's sort: any stable sort.
- Upper-casing of letters outside A to Z and Ñ: they stand for themselves, and the validator refuses them either way.
- The server's own CSV import, which separates by commas and normalises headers: it is a different format.
- Relative paths and the path syntax of the operating system: a path is the list of its segments.
- The values in the tables of states and catalogues: the state table is an arbitrary map of canonical codes.
