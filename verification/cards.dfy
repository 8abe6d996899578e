/** The card record of the swipe-card widget and the value types around it. */
module Cards {

  /** A value that may be absent: `null` for the expanded marker, an omitted optional field of a card. */
  datatype Option<+T> = None | Some(value: T)

  /**
   * One news card. `id` is the key the widget uses for the card; the card is
   * never changed after it is created, only moved between the queue and the
   * undo stack. `picture` is the image path (an optional field of the record).
   */
  datatype CardData = CardData(
    id: int,
    title: string,
    content: string,
    source: Option<string>,
    date: Option<string>,
    aiInsight: Option<string>,
    picture: Option<string>)

  /** The direction argument of the dismiss operation. */
  datatype Direction = Left | Right

  /** No two positions of `cs` hold cards with the same id. */
  predicate UniqueIds(cs: seq<CardData>) {
    forall i, j :: 0 <= i < |cs| && 0 <= j < |cs| && cs[i].id == cs[j].id ==> i == j
  }

  /** Some card of `cs` carries `id`. */
  predicate HasId(cs: seq<CardData>, id: int) {
    exists i :: 0 <= i < |cs| && cs[i].id == id
  }

  /** Ids unique across a concatenation means no id is on both sides. */
  lemma UniqueIdsDisjoint(a: seq<CardData>, b: seq<CardData>)
    requires UniqueIds(a + b)
    ensures UniqueIds(a) && UniqueIds(b)
    ensures forall id :: HasId(a, id) ==> !HasId(b, id)
  {
    forall i, j | 0 <= i < |a| && 0 <= j < |b| ensures a[i].id != b[j].id {
      assert (a + b)[i] == a[i] && (a + b)[|a| + j] == b[j];
    }
    forall i, j | 0 <= i < |b| && 0 <= j < |b| && b[i].id == b[j].id ensures i == j {
      assert (a + b)[|a| + i].id == (a + b)[|a| + j].id;
    }
    forall i, j | 0 <= i < |a| && 0 <= j < |a| && a[i].id == a[j].id ensures i == j {
      assert (a + b)[i].id == (a + b)[j].id;
    }
  }

  /**
   * Moving the first card of `[c] + x` past `x` (to the head of `r`) keeps the
   * ids unique, and so does the move back: the two sequences hold the same
   * cards at positions related by a bijection.
   */
  lemma UniqueIdsMoveFront(c: CardData, x: seq<CardData>, r: seq<CardData>)
    ensures UniqueIds([c] + x + r) <==> UniqueIds(x + ([c] + r))
  {
    var before := [c] + x + r;
    var after := x + ([c] + r);
    var n := |x|;
    assert |before| == |after|;
    // position k of `after` holds the card at position Src(k) of `before`
    forall k | 0 <= k < |after| ensures after[k] == before[if k < n then k + 1 else if k == n then 0 else k] {
    }
    if UniqueIds(before) {
      forall i, j | 0 <= i < |after| && 0 <= j < |after| && after[i].id == after[j].id ensures i == j {
        var si := if i < n then i + 1 else if i == n then 0 else i;
        var sj := if j < n then j + 1 else if j == n then 0 else j;
        assert before[si].id == before[sj].id;
      }
    }
    if UniqueIds(after) {
      forall i, j | 0 <= i < |before| && 0 <= j < |before| && before[i].id == before[j].id ensures i == j {
        var ti := if 0 < i <= n then i - 1 else if i == 0 then n else i;
        var tj := if 0 < j <= n then j - 1 else if j == 0 then n else j;
        assert after[ti] == before[i] && after[tj] == before[j];
      }
    }
  }
}
