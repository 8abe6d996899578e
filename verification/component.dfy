/**
 * The NewsCards component: its three state variables as fields of an object
 * and its event handlers as methods that update them in sequence.
 */
module Component {
  import opened Cards
  import opened CardStack

  class NewsCards {
    /** The visible queue; the front card is the interactive one. */
    var cards: seq<CardData>
    /** The undo stack; the most recently removed card is first. */
    var removedCards: seq<CardData>
    /** The id of the expanded card, if any. */
    var expandedCard: Option<int>

    /** The fields as a state of the card-stack state machine. */
    function State(): Stack
      reads this
    {
      Stack(cards, removedCards, expandedCard)
    }

    /** No id occurs twice across the queue and the undo stack. */
    predicate Valid()
      reads this
    {
      UniqueIds(cards + removedCards)
    }

    constructor (initial: seq<CardData>)
      ensures State() == Initial(initial)
      ensures cards == initial && removedCards == [] && expandedCard == None
      ensures Valid() <==> UniqueIds(initial)
    {
      cards := initial;
      removedCards := [];
      expandedCard := None;
      assert initial + [] == initial;
    }

    /** removeCard: `direction` is accepted and not used. */
    method RemoveCard(direction: Direction)
      requires |cards| > 0
      modifies this
      ensures cards == old(cards)[1..]
      ensures removedCards == [old(cards)[0]] + old(removedCards)
      ensures expandedCard == None
      ensures State() == Remove(old(State()), direction)
      ensures old(Valid()) ==> Valid()
    {
      var cardToRemove := cards[0];
      cards := cards[1..];
      removedCards := [cardToRemove] + removedCards;
      expandedCard := None;
      if old(Valid()) {
        RemoveKeepsIdsUnique(old(State()), direction);
      }
    }

    /** handleDragEnd: dismisses the front card only past the threshold, naming the side of the offset. */
    method HandleDragEnd(offset: real)
      requires DragDecision(offset).Some? ==> |cards| > 0
      modifies this
      ensures State() == DragEnd(old(State()), offset)
      ensures -SWIPE_THRESHOLD <= offset <= SWIPE_THRESHOLD ==>
        cards == old(cards) && removedCards == old(removedCards) && expandedCard == old(expandedCard)
      ensures old(Valid()) ==> Valid()
    {
      if Abs(offset) > SWIPE_THRESHOLD {
        RemoveCard(if offset > 0.0 then Right else Left);
      }
    }

    /** toggleExpand. */
    method ToggleExpand(cardId: int)
      modifies this
      ensures cards == old(cards) && removedCards == old(removedCards)
      ensures expandedCard == if old(expandedCard) == Some(cardId) then None else Some(cardId)
      ensures State() == Toggle(old(State()), cardId)
      ensures old(Valid()) ==> Valid()
    {
      expandedCard := if expandedCard == Some(cardId) then None else Some(cardId);
    }

    /** restoreLastCard: a no-op when the undo stack is empty. */
    method RestoreLastCard()
      modifies this
      ensures old(removedCards) == [] ==>
        cards == old(cards) && removedCards == old(removedCards) && expandedCard == old(expandedCard)
      ensures old(removedCards) != [] ==>
        cards == [old(removedCards)[0]] + old(cards) && removedCards == old(removedCards)[1..] && expandedCard == None
      ensures State() == Restore(old(State()))
      ensures old(Valid()) ==> Valid()
    {
      if |removedCards| > 0 {
        cards := [removedCards[0]] + cards;
        removedCards := removedCards[1..];
        expandedCard := None;
        if old(Valid()) {
          RestoreKeepsIdsUnique(old(State()));
        }
      }
    }
  }
}
