# PokéAPI roster page — a Dafny model

The application is one React page. On mount it loads the first thirty
Pokémon from PokéAPI, shows them as a horizontal roster of buttons, and
shows a detail panel for the selected one: sprites, abilities, stats and its
evolution chain. The evolution chain is looked up with two sequential
requests (species record, then evolution-chain record). The chain's tree is
then flattened in pre-order into a list of species names.

The model has four modules:

- `Outcome` (outcome.dfy): `Option`, standing for `null`/`undefined`, for a
  missing JSON field, and for a rejected request.
- `Evolution` (evolution.dfy): the evolution-chain tree `Chain`, its pre-order
  flattening `Flatten`, and `ExtractEvolutionNames`, the page's loop-based
  walk, proved equal to `Flatten`. Lemmas cover pre-order block structure,
  length equal to node count, membership, and the Bulbasaur chain.
- `Text` (text.dfy): the display helpers. `CapitalizeFirst` is over ASCII.
  `ReplaceFirst` is `replace('-', ' ')`, which replaces only the first
  occurrence. `IdLabel` is `id.toString().padStart(3, '0')`, built from
  `NatToString` and `PadStart`, and it reads back as the id.
- `Page` (page.dfy): the entity records, roster loading (`Promise.all` as
  `GatherAll`), the evolution lookup pipeline, the page state
  `PageState(pokemonList, selected, evolutions, loading)`, and its transitions
  on the three events: roster settled, evolutions settled, click. A
  `Session` pairs the page with the evolution lookups still in flight, so
  that a lookup can settle only after it was started. It also
  holds the invariant those transitions keep and the rendered view: roster
  buttons, detail panel, and the evolution panel with its "No evoluciona"
  case and its arrows.

Network requests are not performed. A request's outcome is a function
parameter (`fetchDetail`, `fetchSpecies`, `fetchChain`) or an event payload,
with `None` for a rejection. A transition that starts an evolution lookup
returns it as an `Effect`, and the lookup's outcome arrives later as an
`EvolutionsSettled` event naming the entity it was started for. The page's
handler ignores that name, as the code does.

Two behaviours of the code worth noting:

- Roster failure: the catch block of `fetchPokemonList` clears the loading
  flag (app/page.tsx:66). So a failed roster load shows an empty page rather
  than a loading screen forever.
- Empty roster: `results[0]` of an empty array is `undefined`. The model then
  selects nothing. `fetchEvolutions(undefined)` throws inside its own `try`
  before any request, so the evolution list becomes empty
  (`OnRosterSettled`). With thirty requests this cannot happen, but the
  transition covers it.

## Model

| member | source | states |
|---|---|---|
| Evolution.Flatten | app/page.tsx:85-93 | the list of names is never empty and starts with the root's species name; a node that evolves into nothing gives exactly its own name |
| Evolution.ExtractEvolutionNames | app/page.tsx:85-93 | the page's walk (root name first, then each child's names appended in `evolves_to` order) computes exactly the pre-order flattening |
| Evolution.FlattenAllAppend | app/page.tsx:88-90 | flattening a list of sibling chains distributes over concatenation of that list |
| Evolution.PreOrder | app/page.tsx:85-93 | for any child, its names form one contiguous block after the root and all earlier siblings' names and before all later siblings' names |
| Evolution.TwoChildren | app/page.tsx:85-93 | a root with two children flattens to its name, then the first child's names, then the second's |
| Evolution.FlattenLength | app/page.tsx:85-93 | the list has one entry per node: it is exactly as long as the tree has nodes |
| Evolution.FlattenMembers | app/page.tsx:85-93 | a name is in the list if and only if it names some node of the tree |
| Evolution.FlattenListsAll | app/page.tsx:85-93 | the same membership for all names at once: the list holds exactly the names of the tree's nodes |
| Evolution.BulbasaurChain | app/page.tsx:85-93 | bulbasaur → ivysaur → venusaur flattens to those three names in that order |
| Text.UpperAscii | app/page.tsx:101 | lower-case ASCII letters map to their upper-case letter, every other character is unchanged |
| Text.CapitalizeFirst | app/page.tsx:100-102 | length is preserved, the first character is upper-cased and everything after it is unchanged; the empty string stays empty |
| Text.CapitalizeIdempotent | app/page.tsx:100-102 | capitalising an already capitalised string changes nothing |
| Text.CapitalizeFixedPoint | app/page.tsx:100-102 | a string is left unchanged exactly when it is empty or does not start with a lower-case letter |
| Text.IndexOf | app/page.tsx:205 | the position found is the first occurrence of the pattern, and -1 exactly when it does not occur |
| Text.ReplaceFirst | app/page.tsx:205 | length is preserved; without a hyphen the string is unchanged; otherwise exactly the first hyphen's position becomes a space |
| Text.ReplaceFirstSplit | app/page.tsx:205 | for a string split at its first hyphen, the prefix and the whole suffix (later hyphens included) are kept and only that hyphen is replaced |
| Text.ReplaceFirstChangesAtMostOne | app/page.tsx:205 | of any two positions, at least one is unchanged |
| Text.ReplaceFirstCounts | app/page.tsx:225 | when a hyphen occurs, the result has one hyphen fewer and one space more |
| Text.ReplaceOnlyFirstHyphen | app/page.tsx:225 | `x-y-z` becomes `x y-z`: the second hyphen stays |
| Text.NatToString | app/page.tsx:141 | `toString` of a non-negative integer is a non-empty string of decimal digits without a leading zero (except `0`) |
| Text.NatToStringValue | app/page.tsx:141 | the digits of `toString` denote the number itself |
| Text.NatToStringLength | app/page.tsx:141 | `toString` uses at most k digits if and only if the number is below 10^k |
| Text.PadStart | app/page.tsx:141 | the result is `max(width, length)` long, ends with the original string and is filled with the fill character in front |
| Text.ValueLeadingZeros | app/page.tsx:141 | zeros put in front of a digit string do not change the number it denotes |
| Text.IdLabel | app/page.tsx:141 | the id label is `max(3, digits of id)` long, all digits, and denotes the id |
| Text.IdLabelThreeWide | app/page.tsx:158 | ids below 1000 (the roster's 1..30 among them) get exactly three characters; from 100 on no padding is added |
| Text.IdLabelInjective | app/page.tsx:158 | different ids get different labels |
| Text.IdLabelExamples | app/page.tsx:141 | ids 1, 25 and 151 are labelled `001`, `025` and `151` |
| Page.GatherAll | app/page.tsx:59 | `Promise.all` yields every value in input order when all requests resolved, and fails if and only if one of them failed |
| Page.LoadRoster | app/page.tsx:53-59 | the roster load succeeds exactly when all thirty detail requests for ids 1..30 succeed, and then lists their records in id order |
| Page.RosterInIdOrder | app/page.tsx:54-60 | when each request answers with the record of its own id, a loaded roster holds ids 1..30 in ascending order |
| Page.ResolveChain | app/page.tsx:72-75 | the lookup yields a chain exactly when the species record names a chain URL whose record holds that chain; any failed request or missing field yields none |
| Page.EvolutionNames | app/page.tsx:77-81 | the stored names are empty exactly when the lookup failed; otherwise they start with the root's name, have one entry per node, and a name is listed exactly when it names a node of the chain |
| Page.Initial | app/page.tsx:42-45 | on mount the list is empty, nothing is selected, there are no evolutions and the page is loading |
| Page.OnRosterSettled | app/page.tsx:51-68 | on success the list is the results, the first is selected, its lookup starts and loading ends; on failure only loading ends |
| Page.OnEvolutionsSettled | app/page.tsx:70-83 | a settled lookup changes only the evolutions: its flattened chain, or empty on failure |
| Page.OnClick | app/page.tsx:95-98 | a click selects exactly the clicked entity and starts its lookup; list, evolutions and loading flag are unchanged |
| Page.Deliver | app/page.tsx:42-98 | an event moves the page by its transition; a settled lookup leaves the in-flight lookups, and a click or a non-empty roster adds the lookup it starts |
| Page.Enabled | app/page.tsx:47-121 | the roster settles only while loading (it is requested once, on mount); a lookup settles only while it is in flight; a click only reaches a listed entity after loading |
| Page.DeliverKeepsInv | app/page.tsx:118-121 | every possible event keeps the selection and every in-flight lookup on listed entities, and keeps the page empty with nothing in flight while loading |
| Page.LookupsSettleAfterLoad | app/page.tsx:62-63 | a lookup settles only after loading is over (the first starts just before `setLoading(false)`) and only for a listed entity |
| Page.ListStableAfterLoad | app/page.tsx:47-49 | once loading is over, no event changes the list or brings loading back: the roster is loaded once |
| Page.RunKeepsInv | app/page.tsx:42-98 | any sequence of possible events keeps the invariant |
| Page.ReachableInv | app/page.tsx:42-98 | every state reachable from mount satisfies the invariant |
| Page.FailedLoadShowsNothing | app/page.tsx:64-67 | if any one detail request fails, the page leaves loading with nothing listed, nothing selected and no evolutions |
| Page.FailedLoadIsFinal | app/page.tsx:64-67 | after a failed roster load no lookup is in flight and no button exists, so no further event can happen and the page stays empty |
| Page.SuccessfulLoadSelectsFirst | app/page.tsx:60-63 | if all detail requests succeed, thirty entities are listed, the record of id 1 is selected and its lookup starts |
| Page.StaleLookupWins | app/page.tsx:70-83 | clicking `a` then a different `b`, and letting `a`'s lookup settle with `a`'s own chain, is a possible run that shows `a`'s chain while `b` is selected and `b`'s lookup is still in flight |
| Page.DisplayName | app/page.tsx:205 | an ability or stat name keeps its length and every non-hyphen character after the first; its first character is capitalised |
| Page.DisplayNameSplit | app/page.tsx:225 | a name `a-b` with no hyphen in `a` shows as capitalised `a`, a space, then `b` unchanged |
| Page.RenderEvolutions | app/page.tsx:246-261 | "No evoluciona" exactly when the list is empty; otherwise one row `"<n>. <Name>"` per name in order, with an arrow on every row but the last |
| Page.ArrowsBetween | app/page.tsx:254-256 | rows with an arrow on all but the last carry one fewer arrow than rows |
| Page.ArrowsBetweenStages | app/page.tsx:254-256 | a non-empty evolution list is rendered with one fewer arrow than stages |
| Page.SingleStageIsNotNoEvolution | app/page.tsx:246-260 | a resolved chain without evolutions shows one stage and no arrow, not "No evoluciona" |
| Page.RosterButtons | app/page.tsx:118-142 | one button per listed entity, in list order, with its capitalised name and `#` id label, highlighted exactly when its id is the selected id |
| Page.ClickHighlightsOnlyClicked | app/page.tsx:123-126 | with distinct ids, after a click exactly the clicked button is highlighted |
| Page.RenderDetail | app/page.tsx:150-237 | the detail panel shows the capitalised name, the id label, the normal and shiny sprites, one display name per ability and per stat with its base value, and the evolution panel of the stored list ("No evoluciona" exactly for an empty list) |
| Page.Render | app/page.tsx:104-268 | the loading screen shows exactly while loading; otherwise the roster buttons of the list and, exactly when something is selected, the detail panel of the selected entity with the stored evolutions |
| Page.ShownArrows | app/page.tsx:150-260 | the page shows the selected entity's name over an evolution panel with one fewer arrow than stored names |
| Page.NoEvolutionOnlyOnFailure | app/page.tsx:246-260 | after a lookup settles, the panel shows "No evoluciona" exactly when that lookup failed |

## Left out

- The requests themselves (`fetch`, `res.json()`, `Promise.all`'s scheduling). They are network I/O, so their outcomes are parameters or event payloads. The top-level fields the evolution lookup reads and may miss are modelled (`SpeciesRecord.evolutionChainUrl`, `ChainRecord.chain`, either `None`); every other body is taken to have the fields the page reads, as the next lines detail.
- Page.LoadRoster: a detail request that resolves with an incomplete body (an error body, say) is stored by the code, and the model has no such record, because the PokéAPI answers ids 1..30 with full records. What the code then does depends on the missing field: without `sprites`, `name` or `id` every render throws at its roster button (app/page.tsx:129, 136, 141); without `abilities` or `stats` the render throws only while that record is selected (app/page.tsx:199, 221); without `species` the lookup throws at app/page.tsx:72 inside its own `try`, so the evolutions become `[]` and "No evoluciona" shows.
- Page.EvolutionNames: a resolved chain always yields a non-empty list in the model. In JavaScript `extractEvolutionNames` can still throw on a resolved chain: a chain deep enough to exhaust the engine's call stack (the recursion at app/page.tsx:89), one wide enough to exceed the engine's argument limit of the `push(...)` spread, or a nested node without `species` or `evolves_to` (app/page.tsx:86-87). The catch at app/page.tsx:79-81 then stores `[]`. `Chain` is a finite tree with every field present, and engine limits are not modelled.
- Page.StaleLookupWins: it exhibits one interleaving in which a stale lookup wins; the order in which in-flight requests settle is event-loop scheduling, so any order is allowed and none is predicted.
- The stat bar width `(base_stat / 255) * 100`, because it is floating point. `StatRow` keeps the base value only.
- Text.UpperAscii: only ASCII letters are upper-cased and every other character is kept. Unicode case mapping, including mappings that change length such as `ß` → `SS`, is not modelled.
- Text.NatToString: ids are non-negative integers. JavaScript's `toString` of negative, fractional or non-finite numbers, its exponent notation from 10^21 on, and the rounding of integers above 2^53 in a double are not modelled, because the API's ids are small positive integers.
- Text.ReplaceFirst: the pattern and the replacement are single characters, the only use in the page. Multi-character patterns and `$` replacement patterns are not modelled.
- JSX markup, CSS classes, the roster button's sprite image (app/page.tsx:129), the images' `alt` texts, React keys, `console.error` logging and React's batching of state updates. These are presentation, so one event is one atomic transition.
- app/layout.tsx, which holds only page metadata and the HTML shell and has no logic.
