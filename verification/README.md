# Swipe-card stack, modelled in Dafny

The `NewsCards` component shows a stack of news cards. The user dismisses the
front card by dragging it sideways past a threshold, brings the most recently
dismissed card back with a Back button, and opens or closes an "AI Insights"
panel on a card. The component keeps three pieces of state: the visible queue
`cards` (front card first), the undo stack `removedCards` (most recently
removed card first) and the expanded-card marker `expandedCard` (an id or
null). Its four handlers are `removeCard`, `handleDragEnd`, `toggleExpand`
and `restoreLastCard`. The render code adds a few integer rules: which cards
are mounted, which card accepts a drag, where a dismissed card flies off to,
and the stacking order.

The model has four modules:

- `Cards` (`cards.dfy`): the `CardData` record, `Option`, the swipe
  `Direction`, and id uniqueness over sequences of cards.
- `CardStack` (`stack.dfy`): the state machine as pure transitions on a
  `Stack` value (`Remove`, `Restore`, `Toggle`, `DragDecision`, `DragEnd`),
  runs of dismissals and restorations (`Swipes`, `Undos`), and the lemmas
  relating them.
- `Render` (`render.dfy`): the render-time rules (`Mounted`, `ExitX`,
  `ZIndex`, the drag condition, the Back controls, the empty-state message)
  and what they imply for the stack.
- `Component` (`component.dfy`): the component itself as a class
  `NewsCards` whose fields are the three state variables. Its methods update
  the fields step by step, as the handlers' setters do, and each method's
  contract ties the new state to the matching `CardStack` transition of the
  old one.

Points where the code's behaviour may surprise a reader:

- Toggling the same id twice restores the marker only when the marker was
  null or already held that id. Two identical toggles from a marker on
  another card end with the marker cleared (`CardStack.ToggleTwice`).
- The direction argument of `removeCard` is never used. The exit animation's
  side comes from the parity of the card's id, so a card can fly off opposite
  to the swipe (`Render.ExitCanOpposeSwipe`). The model keeps this as written.
- The Back button is rendered inside each mounted card. Once every card is
  dismissed there is no Back control, although the undo stack is non-empty
  (`Render.SwipingAllHidesBack`). The model keeps this as written.
- A card id is a JavaScript number; the model uses integers. The parity test
  `id % 2 === 0` uses JavaScript's truncating remainder, modelled as
  `Render.JsRem`; for the test against 0 it agrees with evenness on all
  integers (`Render.JsEvenIsEven`).
- The drag offset is a JavaScript number, modelled as a `real`.

## Model

| member | source | states |
|---|---|---|
| `Cards.UniqueIdsDisjoint` | src/components/SwipeCard.tsx:103-106 | ids unique across queue and undo stack means unique within each and no id in both (cards are keyed by id) |
| `CardStack.Initial` | src/components/SwipeCard.tsx:24-87 | the starting state holds the given queue and no marker, has nothing to restore, and keeps ids unique when the given cards have unique ids |
| `CardStack.Abs` | src/components/SwipeCard.tsx:75 | `Math.abs` of the offset is non-negative and equals the offset or its negation |
| `CardStack.Remove` | src/components/SwipeCard.tsx:62-67 | dismissing puts the old front card on top of the undo stack, the rest of the queue in order, the undo stack below it unchanged, the marker cleared, total count and multiset of cards kept |
| `CardStack.Restore` | src/components/SwipeCard.tsx:90-96 | with an empty undo stack nothing changes; otherwise the top of the undo stack becomes the front card, the queue behind it is unchanged, the marker is cleared, count and multiset of cards kept |
| `CardStack.Toggle` | src/components/SwipeCard.tsx:83-85 | queue and undo stack untouched; the marker ends on `id` exactly when it was not on `id`, and otherwise is cleared |
| `CardStack.DragDecision` | src/components/SwipeCard.tsx:70-81 | a release dismisses exactly when the offset is strictly beyond 100 either way; the direction is right exactly when the offset is above 100 and left exactly when below -100 |
| `CardStack.DragEnd` | src/components/SwipeCard.tsx:70-81 | offsets in [-100, 100] change nothing; beyond them the front card is dismissed |
| `CardStack.RemoveIgnoresDirection` | src/components/SwipeCard.tsx:62-67 | the direction argument does not affect the new state |
| `CardStack.RestoreAfterRemove` | src/components/SwipeCard.tsx:62-96 | a restore right after a dismissal gives back the queue and undo stack exactly, with the marker cleared |
| `CardStack.SecondRestoreIsNoop` | src/components/SwipeCard.tsx:90-96 | after one dismissal from the initial state, the first restore returns to it and a second restore changes nothing |
| `CardStack.ToggleTwice` | src/components/SwipeCard.tsx:83-85 | two toggles with the same id leave the marker on `id` if it was there and cleared otherwise, so they restore the state exactly when the marker was null or on `id` |
| `CardStack.RemoveKeepsIdsUnique` | src/components/SwipeCard.tsx:62-67 | dismissing keeps ids unique across queue and undo stack |
| `CardStack.RestoreKeepsIdsUnique` | src/components/SwipeCard.tsx:90-96 | restoring keeps ids unique across queue and undo stack |
| `CardStack.Swipes` | src/components/SwipeCard.tsx:62-67 | after n dismissals the queue is the old queue without its first n cards, and the undo stack holds those n cards in reverse order on top of the old one |
| `CardStack.Undos` | src/components/SwipeCard.tsx:90-96 | after n restorations the top n undo entries, reversed, stand in front of the old queue and the undo stack has lost them |
| `CardStack.UndosAfterSwipes` | src/components/SwipeCard.tsx:62-96 | n dismissals followed by n restorations give back the queue and undo stack exactly, marker cleared |
| `CardStack.ThreeCardWalkthrough` | src/components/SwipeCard.tsx:62-96 | from [A,B,C]: dismiss gives [B,C]/[A], dismiss gives [C]/[B,A], restore gives [B,C]/[A], restore gives [A,B,C]/[] |
| `Render.Mounted` | src/components/SwipeCard.tsx:103-104 | the mounted cards are the queue's prefix of the indices below 4, at most four cards |
| `Render.JsRem` | src/components/SwipeCard.tsx:122 | JavaScript's `%`: the remainder of truncating division, between 0 and the divisor's size with the dividend's sign, and dividend = divisor × truncated quotient + remainder |
| `Render.JsEvenIsEven` | src/components/SwipeCard.tsx:122 | the parity test with JavaScript's truncating remainder is true exactly for even ids, negative ones included |
| `Render.ExitX` | src/components/SwipeCard.tsx:121-124 | the exit offset is +200 exactly for even ids and -200 exactly for odd ids |
| `Render.ExitCanOpposeSwipe` | src/components/SwipeCard.tsx:75-79 | for every card some dismissing swipe goes to one side while the card exits to the other |
| `Render.ZIndex` | src/components/SwipeCard.tsx:127 | the stacking order is at least 1, and at most the queue length for a card that is not expanded |
| `Render.FrontDrawnAbove` | src/components/SwipeCard.tsx:127 | of two cards that are not expanded, the one nearer the front is drawn above |
| `Render.ExpandedDrawnAbove` | src/components/SwipeCard.tsx:119-127 | the expanded card is above another card exactly when fewer than 50 cards lie from that card to the back |
| `Render.DraggableAsWritten` | src/components/SwipeCard.tsx:129 | the drag rule as written: only index 0, always when no card is expanded, and with a card expanded only when its id is 0, because JavaScript's `!` treats 0 as no marker |
| `Render.Draggable` | src/components/SwipeCard.tsx:129 | the intended drag rule: only index 0 and only with no card expanded, which implies the rule as written |
| `Render.ExpandingIdZeroKeepsDrag` | src/components/SwipeCard.tsx:129 | under the condition as written, expanding the card with id 0 leaves the front card draggable |
| `Render.DragAfterToggle` | src/components/SwipeCard.tsx:129 | under the intended condition, after a toggle a card accepts a drag exactly when it is the front card and the toggle cleared the marker |
| `Render.DragConditionsAgree` | src/components/SwipeCard.tsx:129 | the written and intended drag conditions agree whenever the marker does not hold id 0 |
| `Render.BackControls` | src/components/SwipeCard.tsx:194-201 | there is one Back control per mounted card, so none exactly when the queue is empty |
| `Render.BackEnabled` | src/components/SwipeCard.tsx:195-197 | the Back button is enabled exactly when a restore would change the state |
| `Render.ShowsEmptyState` | src/components/SwipeCard.tsx:221-225 | the empty-state message shows exactly when no card is mounted, which is exactly when no Back control exists |
| `Render.SwipingAllHidesBack` | src/components/SwipeCard.tsx:221-225 | dismissing every card shows the empty-state message and no Back control, while the undo stack is non-empty and a restore would change the state |
| `Render.MarkerStaysOnMounted` | src/components/SwipeCard.tsx:83-96 | every operation keeps the marker either cleared or on a mounted card, given the toggle is called with a mounted card's id |
| `Component.NewsCards.constructor` | src/components/SwipeCard.tsx:24-87 | the component starts with the given queue, an empty undo stack and no expanded card |
| `Component.NewsCards.RemoveCard` | src/components/SwipeCard.tsx:62-67 | the fields after removeCard are `Remove` of the old state, and id uniqueness is kept |
| `Component.NewsCards.HandleDragEnd` | src/components/SwipeCard.tsx:70-81 | the fields after handleDragEnd are `DragEnd` of the old state: unchanged within the threshold, one dismissal beyond it |
| `Component.NewsCards.ToggleExpand` | src/components/SwipeCard.tsx:83-85 | only the marker changes, to `Toggle` of the old state |
| `Component.NewsCards.RestoreLastCard` | src/components/SwipeCard.tsx:90-96 | the fields after restoreLastCard are `Restore` of the old state; unchanged when the undo stack is empty |

## Findings

| source | as written | input that shows it | evidently intended | confidence | as-written member | corrected member |
|---|---|---|---|---|---|---|
| src/components/SwipeCard.tsx:129 | `index === 0 && !expandedCard` tests the marker by JavaScript truthiness, and `!0` is true | a card with id 0 is expanded: the front card still accepts a drag | the front card is draggable only while no card is expanded | medium, not executed (the hard-coded cards have ids 1 to 3) | `Render.ExpandingIdZeroKeepsDrag` (on `Render.DraggableAsWritten`) | `Render.DragAfterToggle` (on `Render.Draggable`) |

## Left out

- JSX markup, the styling class strings, the image/placeholder choice and the insight panel's markup are presentation only; only the empty-state condition and the Back controls are modelled.
- The animation library (`motion.div`, `AnimatePresence`, drag elasticity, transitions) is foreign code; only the released horizontal offset enters the model.
- The floating-point scale, opacity and `CARD_OFFSET` translation of stacked cards are presentation numerics and are not modelled.
- React's state batching and handler closures are not modelled: each handler is one sequential update of the three fields.
- `console.log(cards)` is output and is not modelled.
- The hard-coded card contents and image paths are data; the constructor takes any initial queue.
- src/components/Card.tsx and src/app/page.tsx carry no logic and are not part of this model.
- Component.NewsCards.RemoveCard: requires a non-empty queue; on an empty queue the code would push `undefined` onto the undo stack, which cannot happen because only a mounted front card can be dragged.
- Component.NewsCards.HandleDragEnd: requires a non-empty queue only when the offset is past the threshold, for the same reason; NaN and infinite offsets are not modelled.
- Render.ExitX: card ids are assumed to be integers; a JavaScript number id such as 1.5 (where `1.5 % 2 === 0` is false, so the card exits at -200) or NaN is not modelled.
- Render.DraggableAsWritten: card ids are assumed to be integers; a NaN marker, for which `!NaN` is true, is not modelled.
- CardStack.DragDecision: offsets are reals, so JavaScript's NaN (for which `Math.abs(NaN) > 100` is false) is not covered.
