# Accordion state machine and number-guessing game, modelled in Dafny

This project models two browser scripts. Each is modelled as a class whose fields are updated in place.

- **The `Accordion` widget** (`kruhlikov/accordion/js/accordion.js`). It keeps one record per panel: a title and a content element inside an `[data-accordion-item]` node. All changes to a panel's open state go through the toggle step `_toggleItem`. The public operations `open`, `close`, `openAll`, `closeAll`, `isOpen`, `init` and `destroy` wrap it.
  - The page is replaced by plain fields: each record stores its open state, its `is-active` class, its ARIA attributes, its content's inline height, padding and box-sizing, and flags for its two listeners.
  - What the browser measures (`scrollHeight`, the computed padding and box-sizing) and the generated id are inputs, given to `Init` as one `ItemNode` per node.
- **The guessing game** (`uf1842/015_adivina_numero/js/app.js`). It has a fixed target in 0..99 and a counter of remaining attempts that starts at 10. The handler `adivinar` either ignores a guess, announces a win, or gives a "less" or "greater" hint.

Files:

- `accordion_records.dfy` (module `AccordionRecords`): the options, the panel record and the steps that act on one record.
- `accordion_items.dfy` (module `AccordionItems`): the panel collection as a sequence, the specification functions for each public operation, and the lemmas that state the accordion's rules.
- `accordion.dfy` (module `AccordionWidget`): the `Accordion` class. Each method is proved against the functions of `AccordionItems`.
- `guess_game.dfy` (module `GuessGame`): the step function, runs of guesses, and the `Game` class.

Points where the code does something its comments and the usual reading of an accordion do not say; the model follows the code:

- `init` sets `initialized` to true whenever at least one item node exists, even if every node was skipped for lacking a title or content. So an initialized accordion with no records is reachable (`SetupNoneComplete` together with `Accordion.Init`).
- `destroy` removes only the click listener. The keydown listener is never stored, so it stays attached (`keydownAttached` remains true in what `Destroy` releases).
- `destroy` writes the saved padding back inline. The saved value is the computed padding, or the custom padding when one was given, not the inline value from before `init`. `destroy` also leaves the ARIA attributes, the `is-active` class, and the inline left and right padding in place.
- "At most one panel open" is not an invariant of the accordion. `init` may find several panels already marked `is-active`, and `openAll` opens every panel. What holds is that opening under `onlyOneOpen` leaves only the target open, and that `open`/`close` calls keep the "at most one open" property once it holds.
- The option `startActive` is merged but nothing reads it.

## Model

| member | source | states |
|---|---|---|
| AccordionRecords.MergeOptions | kruhlikov/accordion/js/accordion.js:44-47 | each option the caller gives wins; every other option keeps its default (300 ms, "ease-in-out", onlyOneOpen true, startActive true); an empty options object gives exactly the defaults |
| AccordionRecords.SetupAriaAttributes | kruhlikov/accordion/js/accordion.js:142-160 | the title and content name each other through `${id}-title` / `${id}-content`; roles are button and region; `aria-expanded` equals the open state and `aria-hidden` its negation; tabindex is added exactly when the title is not a BUTTON |
| AccordionRecords.SaveOriginalDimensions | kruhlikov/accordion/js/accordion.js:185-206 | a custom padding replaces the computed padding on all four sides and selects the clone's height, otherwise the computed style and the content's height are kept; box-sizing always comes from the computed style; padding is animated iff a custom padding exists or both computed vertical paddings are non-empty |
| AccordionRecords.SetInitialHeight | kruhlikov/accordion/js/accordion.js:220-244 | the initial height is the saved height when open and 0 when closed; vertical padding is the saved value when open and "0" when closed; horizontal padding and box-sizing are the saved values; transition and overflow are set |
| AccordionRecords.SetupRecord | kruhlikov/accordion/js/accordion.js:83-100 | the new record is consistent (ARIA, class, height and padding follow the open state; ids linked; both listeners attached); its open state is the node's `is-active` class; its saved height and styles are the measured ones |
| AccordionRecords.OpenItem | kruhlikov/accordion/js/accordion.js:347-360 | the height target becomes the saved height; vertical padding becomes the saved padding only when both saved values are non-empty, otherwise it is untouched; nothing but height and vertical padding changes |
| AccordionRecords.CloseItem | kruhlikov/accordion/js/accordion.js:367-380 | the height target becomes 0; vertical padding becomes "0" only when both saved values are non-empty, otherwise it is untouched; nothing but height and vertical padding changes |
| AccordionRecords.UpdateAriaAttributes | kruhlikov/accordion/js/accordion.js:387-397 | afterwards `aria-expanded` equals the open state and `aria-hidden` its negation; only those two attributes change |
| AccordionRecords.UpdateItemClasses | kruhlikov/accordion/js/accordion.js:404-415 | afterwards `is-active` is present exactly when the panel is open; nothing else changes |
| AccordionRecords.ToggleRecord | kruhlikov/accordion/js/accordion.js:301-315 | the target's open state flips; afterwards its ARIA flags, class, height target and animated padding agree with the new state; only those fields change, so a consistent record stays consistent |
| AccordionRecords.CloseOther | kruhlikov/accordion/js/accordion.js:332-338 | a sibling closed by exclusivity ends closed, at height 0, with ARIA and class in line; for an open sibling this equals toggling it |
| AccordionRecords.Teardown | kruhlikov/accordion/js/accordion.js:531-545 | the click listener is removed and the keydown listener is not; height, transition and overflow are cleared; the saved vertical padding and box-sizing are written back (horizontal padding is still the saved value); open state, class and ARIA are left as they were |
| AccordionRecords.ToggleRoundTrip | kruhlikov/accordion/js/accordion.js:293-318 | toggling a consistent record twice gives it back unchanged |
| AccordionItems.Setup | kruhlikov/accordion/js/accordion.js:134-136 | `init`'s loop produces exactly one record per node that has both a title and a content (never more records than nodes), and every record it produces is consistent |
| AccordionItems.SetupConcat | kruhlikov/accordion/js/accordion.js:134-136 | the records of two runs of nodes are the records of the first run followed by those of the second: each node is set up independently, in document order |
| AccordionItems.SetupSkipsIncomplete | kruhlikov/accordion/js/accordion.js:76-79 | a node lacking a title or a content adds no record and leaves the records of all nodes before and after it unchanged |
| AccordionItems.SetupKeepsComplete | kruhlikov/accordion/js/accordion.js:83-102 | a complete node contributes exactly its own record, between the records of the nodes before it and those after it |
| AccordionItems.SetupAllComplete | kruhlikov/accordion/js/accordion.js:70-105 | when every node has a title and a content, there is exactly one record per node, in document order, built from that node |
| AccordionItems.SetupNoneComplete | kruhlikov/accordion/js/accordion.js:126-138 | when every node lacks a title or a content, no record is built |
| AccordionItems.CloseOthers | kruhlikov/accordion/js/accordion.js:325-340 | every record other than the target ends closed; already closed records and the target are untouched; closed siblings are at height 0 and in line; ids, saved heights and listeners are kept |
| AccordionItems.Toggled | kruhlikov/accordion/js/accordion.js:293-318 | the target's open state flips and it ends consistent; when opening under onlyOneOpen every other record ends closed; when closing, or with onlyOneOpen off, no other record changes; consistency of all records is preserved |
| AccordionItems.OpenIsExclusive | kruhlikov/accordion/js/accordion.js:296-299 | with onlyOneOpen, opening a closed panel leaves it the only open panel, every other panel closed at height 0 and consistent |
| AccordionItems.OpenedAll | kruhlikov/accordion/js/accordion.js:478-482 | every record ends open; already open records are untouched; consistency is preserved |
| AccordionItems.ClosedAll | kruhlikov/accordion/js/accordion.js:500-504 | every record ends closed; already closed records are untouched; consistency is preserved |
| AccordionItems.AfterOp | kruhlikov/accordion/js/accordion.js:420-505 | before `init` every call is a no-op; an out-of-range index is a no-op; open(i) leaves i open and close(i) leaves i closed; opening an open panel or closing a closed one changes nothing; close never touches another panel; openAll opens all and closeAll closes all |
| AccordionItems.RunKeepsSetup | kruhlikov/accordion/js/accordion.js:347-380 | no sequence of calls changes any record's id, saved height, saved styles or listeners, so the open target stays the height measured at setup |
| AccordionItems.RunKeepsWellFormed | kruhlikov/accordion/js/accordion.js:387-415 | after any sequence of calls, every record's ARIA flags, class, height target and animated padding agree with its open state |
| AccordionItems.ToggleStaysExclusive | kruhlikov/accordion/js/accordion.js:262-282 | a click or Enter/Space on any title (a toggle of that record) under onlyOneOpen keeps "at most one panel open" |
| AccordionItems.StepStaysExclusive | kruhlikov/accordion/js/accordion.js:297-299 | under onlyOneOpen, one open or close call keeps "at most one panel open" |
| AccordionItems.RunStaysExclusive | kruhlikov/accordion/js/accordion.js:420-460 | under onlyOneOpen, any sequence of open/close calls keeps "at most one panel open" once it holds |
| AccordionItems.OpenCloseRoundTrip | kruhlikov/accordion/js/accordion.js:420-460 | open(i) then close(i) on a closed panel gives that panel back unchanged with height target 0; with onlyOneOpen off the whole collection is unchanged |
| AccordionWidget.Accordion.constructor | kruhlikov/accordion/js/accordion.js:36-54 | a new accordion has no records and is not initialized; when the container was found its options are the merged options |
| AccordionWidget.Accordion.SetupItem | kruhlikov/accordion/js/accordion.js:70-105 | appends the record of a node that has both a title and a content; skips any other node |
| AccordionWidget.Accordion.Init | kruhlikov/accordion/js/accordion.js:110-140 | a no-op when already initialized or without a container; with no nodes it stays uninitialized; otherwise the records are `Setup(nodes)` and the accordion is initialized, even if every node was skipped |
| AccordionWidget.Accordion.CloseOtherItems | kruhlikov/accordion/js/accordion.js:325-340 | the loop leaves the records equal to `CloseOthers` of the old records |
| AccordionWidget.Accordion.ToggleItem | kruhlikov/accordion/js/accordion.js:293-318 | the records become `Toggled` of the old records under the current onlyOneOpen, and the accordion stays consistent |
| AccordionWidget.Accordion.Open | kruhlikov/accordion/js/accordion.js:420-437 | with a valid index on an initialized accordion the panel ends open; uninitialized, out of range or already open changes nothing |
| AccordionWidget.Accordion.Close | kruhlikov/accordion/js/accordion.js:443-460 | with a valid index on an initialized accordion the panel ends closed; uninitialized, out of range or already closed changes nothing |
| AccordionWidget.Accordion.OpenAll | kruhlikov/accordion/js/accordion.js:465-486 | every panel ends open; the options, onlyOneOpen included, equal their value before the call; a no-op before `init` |
| AccordionWidget.Accordion.CloseAll | kruhlikov/accordion/js/accordion.js:491-505 | every panel ends closed; a no-op before `init` |
| AccordionWidget.Accordion.IsOpen | kruhlikov/accordion/js/accordion.js:512-518 | false before `init` or for an index outside the collection, otherwise the panel's open state; a true answer means its `aria-expanded` is true and `aria-hidden` false; changes nothing |
| AccordionWidget.Accordion.Destroy | kruhlikov/accordion/js/accordion.js:523-552 | a no-op before `init`; otherwise every record is torn down and handed back, the collection is emptied and the accordion is uninitialized, so a second call changes nothing; released records have no click listener but still have their keydown listener |
| GuessGame.Step | uf1842/015_adivina_numero/js/app.js:17-45 | with no attempts left the guess is ignored; otherwise the counter drops by one; the guess wins iff it equals the target, and a win zeroes the counter; "less" is shown iff the guess is a number below the target, "greater" otherwise |
| GuessGame.NaNIsHigher | uf1842/015_adivina_numero/js/app.js:22-44 | NaN (what `value * 1` gives for non-blank text that is not a numeric literal) never wins and always draws the "greater" hint |
| GuessGame.Play | uf1842/015_adivina_numero/js/app.js:14-54 | a run of guesses yields one outcome per guess, the first being the outcome `Step` gives for the first guess on the starting counter |
| GuessGame.ProcessedBound | uf1842/015_adivina_numero/js/app.js:12-25 | no run of guesses processes more guesses than the counter allowed, so at most 10 in a game |
| GuessGame.IgnoredAfterAttempts | uf1842/015_adivina_numero/js/app.js:17-20 | every guess from the `remaining`-th on is ignored |
| GuessGame.NothingAfterWin | uf1842/015_adivina_numero/js/app.js:29-37 | after a winning guess every later guess is ignored |
| GuessGame.Game.constructor | uf1842/015_adivina_numero/js/app.js:1-12 | a new game has 10 attempts left, the input enabled and no restart button |
| GuessGame.Game.Guess | uf1842/015_adivina_numero/js/app.js:14-54 | the new counter and the outcome are `Step` of the old counter; the input is disabled exactly from a win on; the restart button appears on a win or an ignored guess; the counter never goes negative and at most 10 guesses are processed |

## Left out

- Finding the container (`_getElement`, `querySelector`, accordion.js:60-65): the constructor takes whether the container was found.
- DOM measurement (`getComputedStyle`, `scrollHeight`, the off-screen clone, accordion.js:167-213): the measured values are fields of `ItemNode`. The clone's invalid `boxSizing` value (line 183) therefore has no effect in the model.
- The random id (accordion.js:83): each node carries its id; ids are not assumed distinct.
- Event listeners, `preventDefault` and the Enter/Space key filter (accordion.js:255-286): both handlers call the toggle step, which is `Accordion.ToggleItem`. Listeners appear only as two flags per record.
- Records are values in a sequence, not shared objects. So the model does not follow the leaked keydown handler after `destroy`. In the source that handler still toggles its detached record, and after a re-`init`, when `onlyOneOpen` is on and that detached record is closed, it would close the new panels through `_closeOtherItems` (the guard at accordion.js:297).
- The transition strings, duration and easing (accordion.js:224-228): the transition is a flag. The animation itself is asynchronous rendering.
- The title and content element handles and the item element: only their attributes, class and inline style are modelled.
- Indices are integers. A fractional index in the source passes the range check and then fails on the undefined record.
- All `console.log` / `console.warn` output, and the `createAccordion` factory (accordion.js:555-559).
- In app.js: drawing the target with `Math.random` (taken as a constructor parameter in 0..99), creating and appending the hint element, the remaining-attempts display, `form.reset`, `console.log(objetivo)` and the `location.reload` restart.
- GuessGame.Step: the guess is a real number or NaN; JavaScript's infinities and `-0` are not modelled.
- GuessGame.Step: the text-to-number conversion `value * 1` (app.js:22) is not modelled; the model takes its result, and blank or whitespace-only text gives 0, not NaN, while texts such as "0x1F" or "1e1" give numbers.
- uf1842/js/reloj.js (a clock built from `Date` and `setInterval`) and kruhlikov/accordion/script.js (a single page-load style toggle) are not part of this model.
