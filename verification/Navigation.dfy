/** Cyclic navigation in the gallery and the presentation (app2.py:190-241
    and app2.py:304-336). Python's `%` with a positive right operand yields a
    result in `[0, n)`, as Dafny's Euclidean `%` does, so `x % n` below is
    the source's `x % n` also for the negative `page - 1` and
    `current - step`. */
module Navigation {

  /** Cards per gallery page in the "3 per page" view. */
  const PerPage: nat := 3

  /** `max(1, math.ceil(total / 3))`: the fewest pages of three that hold
      `total` cards, and one page when there are none. */
  function Pages(total: nat): (pages: nat)
    ensures pages >= 1
    ensures total == 0 ==> pages == 1
    ensures total > 0 ==> PerPage * (pages - 1) < total <= PerPage * pages
  {
    if total == 0 then 1 else (total + PerPage - 1) / PerPage
  }

  /** `cards[start:end]` with `start = page * 3`, `end = start + 3`: Python
      slices clamp both bounds to the length. */
  function PageSlice<T>(cards: seq<T>, page: nat): (shown: seq<T>)
    ensures |shown| <= PerPage
    ensures forall k :: 0 <= k < |shown| ==> PerPage * page + k < |cards| && shown[k] == cards[PerPage * page + k]
  {
    var start := if PerPage * page <= |cards| then PerPage * page else |cards|;
    var end := if start + PerPage <= |cards| then start + PerPage else |cards|;
    cards[start..end]
  }

  /** Every card is on exactly the page its position says, and that page is
      one the pager can reach. */
  lemma PageOfCard<T>(cards: seq<T>, k: nat)
    requires k < |cards|
    ensures k / PerPage < Pages(|cards|)
    ensures k % PerPage < |PageSlice(cards, k / PerPage)|
    ensures PageSlice(cards, k / PerPage)[k % PerPage] == cards[k]
  {
  }

  /** A page the pager can reach shows at least one card of a non-empty
      gallery. */
  lemma ReachablePageNotEmpty<T>(cards: seq<T>, page: nat)
    requires cards != [] && page < Pages(|cards|)
    ensures PageSlice(cards, page) != []
  {
  }

  /** "Next Page": `(page + 1) % pages`. */
  function NextPage(page: nat, pages: nat): (next: nat)
    requires pages >= 1
    ensures next < pages
    ensures page < pages ==> next == if page + 1 == pages then 0 else page + 1
  {
    (page + 1) % pages
  }

  /** "Prev Page": `(page - 1) % pages`. */
  function PrevPage(page: nat, pages: nat): (prev: nat)
    requires pages >= 1
    ensures prev < pages
    ensures page < pages ==> prev == if page == 0 then pages - 1 else page - 1
  {
    (page - 1) % pages
  }

  /** Prev undoes Next and Next undoes Prev. */
  lemma PageStepsInverse(page: nat, pages: nat)
    requires page < pages
    ensures PrevPage(NextPage(page, pages), pages) == page
    ensures NextPage(PrevPage(page, pages), pages) == page
  {
  }

  /** The presentation moves three cards at a time in the three-up view and
      one otherwise. */
  function Step(triplet: bool): (step: nat)
    ensures 1 <= step <= PerPage
    ensures step == PerPage <==> triplet
    ensures !triplet ==> step == 1
  {
    if triplet then 3 else 1
  }

  lemma {:induction false} MulAtLeast(d: int, n: int)
    requires d >= 1 && n > 0
    ensures d * n >= n
  {
    if d > 1 {
      MulAtLeast(d - 1, n);
      assert d * n == (d - 1) * n + n;
    }
  }

  /** Euclidean division is unique: a remainder in `[0, n)` is `x % n`. */
  lemma ModUnique(x: int, n: int, q: int, r: int)
    requires n > 0 && 0 <= r < n && x == q * n + r
    ensures x % n == r
  {
    var q0 := x / n;
    assert x == q0 * n + x % n;
    if q0 < q {
      MulAtLeast(q - q0, n);
    } else if q < q0 {
      MulAtLeast(q0 - q, n);
    }
  }

  /** Adding whole rounds does not change a position modulo `n`. */
  lemma ModAddRounds(x: int, q: int, n: int)
    requires n > 0
    ensures (x + q * n) % n == x % n
  {
    var q0 := x / n;
    assert x == q0 * n + x % n;
    assert x + q * n == (q0 + q) * n + x % n;
    ModUnique(x + q * n, n, q0 + q, x % n);
  }

  /** Reducing a summand modulo `n` first does not change the sum modulo `n`. */
  lemma ModAddReduced(x: int, y: int, n: int)
    requires n > 0
    ensures (x % n + y) % n == (x + y) % n
  {
    var q := x / n;
    assert x == q * n + x % n;
    ModAddRounds(x % n + y, q, n);
    assert x % n + y + q * n == x + y;
  }

  /** "Next": `(current + step) % len(cards)`. */
  function Advance(current: nat, step: nat, len: nat): (next: nat)
    requires len > 0
    ensures next < len
    ensures current < len && current + step < len ==> next == current + step
  {
    (current + step) % len
  }

  /** "Prev": `(current - step) % len(cards)`. */
  function Retreat(current: nat, step: nat, len: nat): (prev: nat)
    requires len > 0
    ensures prev < len
    ensures step <= current ==> current < len ==> prev == current - step
  {
    (current - step) % len
  }

  /** Prev after Next, and Next after Prev, with the same step, return to the
      card shown before. */
  lemma {:induction false} StepsInverse(current: nat, step: nat, len: nat)
    requires len > 0 && current < len
    ensures Retreat(Advance(current, step, len), step, len) == current
    ensures Advance(Retreat(current, step, len), step, len) == current
  {
    ModAddReduced(current + step, -(step as int), len);
    ModAddReduced(current - step, step, len);
    ModUnique(current, len, 0, current);
  }

  /** The cursor after pressing "Next" `presses` times. */
  function AdvanceTimes(current: nat, step: nat, len: nat, presses: nat): (r: nat)
    requires len > 0
    ensures r < len || (presses == 0 && r == current)
  {
    if presses == 0 then current else Advance(AdvanceTimes(current, step, len, presses - 1), step, len)
  }

  /** `step` added `presses` times. */
  function Moved(step: nat, presses: nat): nat
  {
    if presses == 0 then 0 else Moved(step, presses - 1) + step
  }

  lemma {:induction false} MovedIsProduct(step: nat, presses: nat)
    ensures Moved(step, presses) == presses * step
  {
    if presses > 0 {
      MovedIsProduct(step, presses - 1);
      assert (presses - 1) * step + step == presses * step;
    }
  }

  /** Next from a position reduced modulo `len` lands where the unreduced
      position would. */
  lemma AdvanceOfReduced(x: nat, step: nat, len: nat)
    requires len > 0
    ensures Advance(x % len, step, len) == (x + step) % len
  {
    ModAddReduced(x, step, len);
  }

  /** Each Next press adds one more step to the offset. */
  lemma {:induction false} AdvanceTimesMoved(current: nat, step: nat, len: nat, presses: nat)
    requires len > 0 && current < len
    ensures AdvanceTimes(current, step, len, presses) == (current + Moved(step, presses)) % len
  {
    if presses > 0 {
      var before := current + Moved(step, presses - 1);
      AdvanceTimesMoved(current, step, len, presses - 1);
      assert AdvanceTimes(current, step, len, presses) == Advance(before % len, step, len);
      AdvanceOfReduced(before, step, len);
    } else {
      ModUnique(current, len, 0, current);
    }
  }

  /** `presses` Next presses move the cursor by `presses * step` around the
      cycle of cards. */
  lemma AdvanceTimesOffset(current: nat, step: nat, len: nat, presses: nat)
    requires len > 0 && current < len
    ensures AdvanceTimes(current, step, len, presses) == (current + presses * step) % len
  {
    AdvanceTimesMoved(current, step, len, presses);
    MovedIsProduct(step, presses);
  }

  /** `len(cards)` Next presses bring the presentation back to the card it
      started from, in the single and in the three-up view. */
  lemma FullRoundReturns(current: nat, step: nat, len: nat)
    requires len > 0 && current < len
    ensures AdvanceTimes(current, step, len, len) == current
  {
    AdvanceTimesOffset(current, step, len, len);
    assert len * step == step * len;
    ModAddRounds(current, step, len);
    ModUnique(current, len, 0, current);
  }

  /** `[cards[idx % n], cards[(idx+1) % n], cards[(idx+2) % n]]`: the three-up
      view, wrapping past the last card. */
  function TripletView<T>(cards: seq<T>, current: nat): (view: seq<T>)
    requires |cards| > 0
    ensures |view| == 3
  {
    var n := |cards|;
    [cards[current % n], cards[(current + 1) % n], cards[(current + 2) % n]]
  }

  /** The three-up view is the next three cards of the cycle that starts at
      the cursor: the first three of the cards from the cursor on, followed
      by the whole list again (twice, for lists shorter than three). */
  lemma TripletViewIsCycle<T>(cards: seq<T>, current: nat)
    requires current < |cards|
    ensures TripletView(cards, current) == (cards[current..] + cards + cards)[..3]
  {
    var n := |cards|;
    var cycle := cards[current..] + cards + cards;
    forall i | 0 <= i < 3
      ensures TripletView(cards, current)[i] == cycle[i]
    {
      if current + i < n {
        ModUnique(current + i, n, 0, current + i);
      } else if current + i < 2 * n {
        ModUnique(current + i, n, 1, current + i - n);
      } else {
        ModUnique(current + i, n, 2, current + i - 2 * n);
      }
    }
  }

  /** What the presentation shows: nothing without cards, the three-up view,
      or the single card under the cursor (`cards[current]`, unguarded in the
      source, hence the requirement that the cursor is in range). */
  function Showing<T>(cards: seq<T>, current: nat, triplet: bool): (shown: seq<T>)
    requires triplet || cards == [] || current < |cards|
    ensures cards == [] ==> shown == []
    ensures cards != [] && !triplet ==> shown == [cards[current]]
    ensures cards != [] && triplet ==> |shown| == 3 && forall c :: c in shown ==> c in cards
  {
    if cards == [] then []
    else if triplet then TripletView(cards, current)
    else [cards[current]]
  }
}
