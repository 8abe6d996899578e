/**
 * The card-stack state machine of the NewsCards component as pure
 * transitions on an explicit state value: the visible queue, the undo stack
 * (most recently removed card first) and the expanded-card marker.
 */
module CardStack {
  import opened Cards

  /** Horizontal drag distance a release must exceed to dismiss the front card. */
  const SWIPE_THRESHOLD: real := 100.0

  /** The component's three state variables. */
  datatype Stack = Stack(cards: seq<CardData>, removed: seq<CardData>, expanded: Option<int>)

  /** The state the component starts in: the given cards, nothing removed, nothing expanded. */
  function Initial(cards: seq<CardData>): (r: Stack)
    ensures r.cards == cards && r.expanded == None
    ensures Restore(r) == r
    ensures UniqueIds(cards) ==> UniqueIds(r.cards + r.removed)
  {
    assert cards + [] == cards;
    Stack(cards, [], None)
  }

  /** `Math.abs` on the offset. */
  function Abs(x: real): (r: real)
    ensures r >= 0.0 && (r == x || r == -x)
  {
    if x < 0.0 then -x else x
  }

  /**
   * removeCard: the front card moves to the top of the undo stack and the
   * marker is cleared. The direction argument takes no part in the update.
   */
  function Remove(s: Stack, direction: Direction): (r: Stack)
    requires |s.cards| > 0
    ensures |r.cards| + 1 == |s.cards|
    ensures |r.removed| > 0 && [r.removed[0]] + r.cards == s.cards
    ensures r.removed[1..] == s.removed
    ensures r.expanded == None
    ensures |r.cards| + |r.removed| == |s.cards| + |s.removed|
    ensures multiset(r.cards + r.removed) == multiset(s.cards + s.removed)
  {
    var r := Stack(s.cards[1..], [s.cards[0]] + s.removed, None);
    assert [r.removed[0]] + r.cards == s.cards;
    assert r.cards + r.removed == s.cards[1..] + [s.cards[0]] + s.removed;
    r
  }

  /**
   * restoreLastCard: with a non-empty undo stack its top card goes back to
   * the front of the queue and the marker is cleared; otherwise nothing
   * changes at all.
   */
  function Restore(s: Stack): (r: Stack)
    ensures s.removed == [] ==> r == s
    ensures s.removed != [] ==>
      |r.cards| > 0 && [r.cards[0]] + r.removed == s.removed && r.cards[1..] == s.cards && r.expanded == None
    ensures |r.cards| + |r.removed| == |s.cards| + |s.removed|
    ensures multiset(r.cards + r.removed) == multiset(s.cards + s.removed)
  {
    if |s.removed| > 0 then
      var r := Stack([s.removed[0]] + s.cards, s.removed[1..], None);
      assert [r.cards[0]] + r.removed == s.removed;
      assert r.cards + r.removed == [s.removed[0]] + (s.cards + s.removed[1..]);
      assert multiset(s.cards + s.removed) == multiset(s.cards) + multiset([s.removed[0]] + s.removed[1..]);
      r
    else
      s
  }

  /** toggleExpand: the marker becomes `id` unless it already is `id`, in which case it is cleared. */
  function Toggle(s: Stack, id: int): (r: Stack)
    ensures r.cards == s.cards && r.removed == s.removed
    ensures r.expanded == Some(id) <==> s.expanded != Some(id)
    ensures r.expanded == None || r.expanded == Some(id)
  {
    s.(expanded := if s.expanded == Some(id) then None else Some(id))
  }

  /**
   * The classification handleDragEnd makes of a release at horizontal offset
   * `offset`: no dismissal unless the distance is strictly past the
   * threshold, and then the direction given is the sign of the offset.
   */
  function DragDecision(offset: real): (r: Option<Direction>)
    ensures r.Some? <==> offset > SWIPE_THRESHOLD || offset < -SWIPE_THRESHOLD
    ensures r == Some(Right) <==> offset > SWIPE_THRESHOLD
    ensures r == Some(Left) <==> offset < -SWIPE_THRESHOLD
  {
    if Abs(offset) > SWIPE_THRESHOLD then
      Some(if offset > 0.0 then Right else Left)
    else
      None
  }

  /** handleDragEnd: dismiss the front card exactly when the release is past the threshold. */
  function DragEnd(s: Stack, offset: real): (r: Stack)
    requires DragDecision(offset).Some? ==> |s.cards| > 0
    ensures -SWIPE_THRESHOLD <= offset <= SWIPE_THRESHOLD ==> r == s
    ensures (offset > SWIPE_THRESHOLD || offset < -SWIPE_THRESHOLD) ==>
      |s.cards| > 0 && r.cards == s.cards[1..] && r.removed == [s.cards[0]] + s.removed && r.expanded == None
  {
    match DragDecision(offset)
    case Some(direction) => Remove(s, direction)
    case None => s
  }

  /** The direction passed to the dismiss operation has no effect on the new state. */
  lemma RemoveIgnoresDirection(s: Stack)
    requires |s.cards| > 0
    ensures Remove(s, Left) == Remove(s, Right)
  {
  }

  /** Restoring right after a dismissal gives back both sequences as they were, with the marker cleared. */
  lemma RestoreAfterRemove(s: Stack, direction: Direction)
    requires |s.cards| > 0
    ensures Restore(Remove(s, direction)) == s.(expanded := None)
  {
  }

  /** A single dismissal followed by two restores: the second restore changes nothing. */
  lemma SecondRestoreIsNoop(cards: seq<CardData>, direction: Direction)
    requires |cards| > 0
    ensures Restore(Remove(Initial(cards), direction)) == Initial(cards)
    ensures Restore(Restore(Remove(Initial(cards), direction))) == Initial(cards)
  {
    RestoreAfterRemove(Initial(cards), direction);
  }

  /**
   * Toggling the same id twice ends with the marker on `id` if it was on `id`
   * and cleared otherwise, so the pair restores the marker exactly when it
   * was cleared or already on `id`.
   */
  lemma ToggleTwice(s: Stack, id: int)
    ensures Toggle(Toggle(s, id), id).expanded == if s.expanded == Some(id) then Some(id) else None
    ensures Toggle(Toggle(s, id), id) == s <==> s.expanded == None || s.expanded == Some(id)
  {
  }

  /** Dismissals and restorations only move cards: id uniqueness across both sequences is kept. */
  lemma RemoveKeepsIdsUnique(s: Stack, direction: Direction)
    requires |s.cards| > 0
    requires UniqueIds(s.cards + s.removed)
    ensures UniqueIds(Remove(s, direction).cards + Remove(s, direction).removed)
  {
    var c, x := s.cards[0], s.cards[1..];
    assert s.cards + s.removed == [c] + x + s.removed;
    UniqueIdsMoveFront(c, x, s.removed);
  }

  lemma RestoreKeepsIdsUnique(s: Stack)
    requires UniqueIds(s.cards + s.removed)
    ensures UniqueIds(Restore(s).cards + Restore(s).removed)
  {
    if s.removed != [] {
      var c, r := s.removed[0], s.removed[1..];
      assert s.cards + s.removed == s.cards + ([c] + r);
      assert Restore(s).cards + Restore(s).removed == [c] + s.cards + r;
      UniqueIdsMoveFront(c, s.cards, r);
    }
  }

  /** The reverse of a sequence of cards. */
  function Reversed(cs: seq<CardData>): (r: seq<CardData>)
    ensures |r| == |cs|
  {
    if cs == [] then [] else Reversed(cs[1..]) + [cs[0]]
  }

  lemma {:induction false} ReversedAt(cs: seq<CardData>, k: nat)
    requires k < |cs|
    ensures Reversed(cs)[k] == cs[|cs| - 1 - k]
  {
    if k < |cs| - 1 {
      ReversedAt(cs[1..], k);
    }
  }

  lemma {:induction false} ReversedTwice(cs: seq<CardData>)
    ensures Reversed(Reversed(cs)) == cs
  {
    var n := |cs|;
    var rr := Reversed(Reversed(cs));
    forall i | 0 <= i < n ensures rr[i] == cs[i] {
      ReversedAt(Reversed(cs), i);
      ReversedAt(cs, n - 1 - i);
    }
  }

  /**
   * A run of dismissals, one per entry of `directions`: the first
   * `|directions|` cards leave the queue and sit on the undo stack in reverse
   * order, the last one dismissed on top.
   */
  function Swipes(s: Stack, directions: seq<Direction>): (r: Stack)
    requires |directions| <= |s.cards|
    ensures r.cards == s.cards[|directions|..]
    ensures r.removed == Reversed(s.cards[..|directions|]) + s.removed
    ensures r.expanded == if directions == [] then s.expanded else None
    decreases |directions|
  {
    if directions == [] then s
    else
      var n := |directions|;
      var next := Remove(s, directions[0]);
      var r := Swipes(next, directions[1..]);
      SwipeStep(s.cards, s.removed, n, next.cards, next.removed);
      r
  }

  /** One dismissal followed by n - 1 more is n dismissals, stated on the two sequences. */
  lemma {:induction false} SwipeStep(cards: seq<CardData>, removed: seq<CardData>, n: nat,
                                     nextCards: seq<CardData>, nextRemoved: seq<CardData>)
    requires 0 < n <= |cards|
    requires |nextRemoved| > 0 && [nextRemoved[0]] + nextCards == cards && nextRemoved[1..] == removed
    ensures nextCards[n - 1..] == cards[n..]
    ensures Reversed(nextCards[..n - 1]) + nextRemoved == Reversed(cards[..n]) + removed
  {
    assert nextCards == cards[1..];
    assert nextRemoved == [cards[0]] + removed;
    var p := cards[..n];
    assert nextCards[..n - 1] == p[1..];
    ReversedCons(p, removed);
  }

  /** Reversing a non-empty prefix puts its head last. */
  lemma {:induction false} ReversedCons(p: seq<CardData>, tail: seq<CardData>)
    requires |p| > 0
    ensures Reversed(p[1..]) + ([p[0]] + tail) == Reversed(p) + tail
  {
    var rest := Reversed(p[1..]);
    assert Reversed(p) == rest + [p[0]];
    assert (rest + [p[0]]) + tail == rest + ([p[0]] + tail);
  }

  /** A run of `n` restorations. */
  function Undos(s: Stack, n: nat): (r: Stack)
    requires n <= |s.removed|
    ensures r.cards == Reversed(s.removed[..n]) + s.cards
    ensures r.removed == s.removed[n..]
    ensures r.expanded == if n == 0 then s.expanded else None
    decreases n
  {
    if n == 0 then s
    else
      var next := Restore(s);
      var r := Undos(next, n - 1);
      UndoStep(s.cards, s.removed, n, next.cards, next.removed);
      r
  }

  /** One restoration followed by n - 1 more is n restorations, stated on the two sequences. */
  lemma {:induction false} UndoStep(cards: seq<CardData>, removed: seq<CardData>, n: nat,
                                    nextCards: seq<CardData>, nextRemoved: seq<CardData>)
    requires 0 < n <= |removed|
    requires |nextCards| > 0 && [nextCards[0]] + nextRemoved == removed && nextCards[1..] == cards
    ensures nextRemoved[n - 1..] == removed[n..]
    ensures Reversed(nextRemoved[..n - 1]) + nextCards == Reversed(removed[..n]) + cards
  {
    assert nextRemoved == removed[1..];
    assert nextCards == [removed[0]] + cards;
    var p := removed[..n];
    assert nextRemoved[..n - 1] == p[1..];
    ReversedCons(p, cards);
  }

  /** However many cards are dismissed, as many restorations bring the whole state back, marker cleared. */
  lemma {:induction false} UndosAfterSwipes(s: Stack, directions: seq<Direction>)
    requires 0 < |directions| <= |s.cards|
    ensures Undos(Swipes(s, directions), |directions|) == s.(expanded := None)
  {
    var n := |directions|;
    var t := Swipes(s, directions);
    assert t.removed[..n] == Reversed(s.cards[..n]);
    assert t.removed[n..] == s.removed;
    ReversedTwice(s.cards[..n]);
    assert s.cards[..n] + s.cards[n..] == s.cards;
  }

  /** The three-card walk-through: dismiss, dismiss, restore, restore. */
  lemma ThreeCardWalkthrough(a: CardData, b: CardData, c: CardData, d1: Direction, d2: Direction)
    ensures Remove(Initial([a, b, c]), d1) == Stack([b, c], [a], None)
    ensures Remove(Stack([b, c], [a], None), d2) == Stack([c], [b, a], None)
    ensures Restore(Stack([c], [b, a], None)) == Stack([b, c], [a], None)
    ensures Restore(Stack([b, c], [a], None)) == Stack([a, b, c], [], None)
  {
    assert [a, b, c][1..] == [b, c];
    assert [b, c][1..] == [c];
    assert [b, a][1..] == [a];
    assert [a][1..] == [];
  }
}
