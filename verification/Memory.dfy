/** The memory game (app2.py:260-275 and app2.py:344-382): a deck in which
    every sampled card occurs twice, face down; two cards are turned per
    try, and a pair showing the same card stays face up. */
module Memory {
  import opened Seqs

  /** The per-game state besides the deck: `memory_flipped` (the positions
      turned in the current try), `memory_matched` (the positions of found
      pairs, two by two) and `tries`. */
  datatype Turn = Turn(flipped: seq<nat>, matched: seq<nat>, tries: nat)

  /** The state `Start Memory Game` and `Reshuffle` begin with. */
  const Fresh: Turn := Turn([], [], 0)

  /** The slot holding the other half of the pair at slot `k` of `matched`:
      pairs occupy slots `2p` and `2p + 1`. */
  function Partner(k: nat): nat
  {
    if k % 2 == 0 then k + 1 else k - 1
  }

  /** `matched` lists distinct deck positions two by two, and the two
      positions of each pair show the same card. */
  predicate PairedMatches<T(==)>(deck: seq<T>, matched: seq<nat>)
  {
    && |matched| % 2 == 0
    && NoDups(matched)
    && (forall k :: 0 <= k < |matched| ==> matched[k] < |deck|)
    && (forall k :: 0 <= k < |matched| ==> Partner(k) < |matched| && deck[matched[k]] == deck[matched[Partner(k)]])
  }

  /** What holds between two clicks: at most one card is turned, it is not
      part of a found pair, the found pairs are genuine, and every pair took
      at least one try. */
  predicate Consistent<T(==)>(deck: seq<T>, t: Turn)
  {
    && |t.flipped| <= 1
    && (forall k :: 0 <= k < |t.flipped| ==> t.flipped[k] < |deck| && t.flipped[k] !in t.matched)
    && PairedMatches(deck, t.matched)
    && |t.matched| / 2 <= t.tries
  }

  lemma FreshIsConsistent<T>(deck: seq<T>)
    ensures Consistent(deck, Fresh)
  {
  }

  /** Clicking the face-down card at position `i` (a button is only offered
      for positions neither matched nor turned in this try). The first card
      of a try stays turned; the second ends the try, counts it, and keeps
      both cards face up when they show the same card. */
  function Flip<T(==)>(deck: seq<T>, t: Turn, i: nat): (r: Turn)
    requires Consistent(deck, t)
    requires i < |deck| && i !in t.matched && i !in t.flipped
    ensures Consistent(deck, r)
    ensures |t.flipped| == 0 ==> r == Turn([i], t.matched, t.tries)
    ensures |t.flipped| == 1 ==> r.flipped == [] && r.tries == t.tries + 1
    ensures |t.flipped| == 1 ==> (|r.matched| == |t.matched| + 2 <==> deck[t.flipped[0]] == deck[i])
    ensures |t.flipped| == 1 ==>
      r.matched == t.matched + (if deck[t.flipped[0]] == deck[i] then [t.flipped[0], i] else [])
    ensures |r.matched| >= |t.matched| && r.matched[..|t.matched|] == t.matched
  {
    var flipped := t.flipped + [i];
    if |flipped| == 2 then
      var i1, i2 := flipped[0], flipped[1];
      if deck[i1] == deck[i2] then
        var m := t.matched + [i1, i2];
        assert m[..|t.matched|] == t.matched;
        FoundPairExtends(deck, t.matched, i1, i2);
        Turn([], m, t.tries + 1)
      else
        assert t.matched[..|t.matched|] == t.matched;
        Turn([], t.matched, t.tries + 1)
    else
      assert t.matched[..|t.matched|] == t.matched;
      Turn(flipped, t.matched, t.tries)
  }

  /** Appending a new pair of distinct positions showing the same card keeps
      `matched` a list of genuine pairs. */
  lemma FoundPairExtends<T>(deck: seq<T>, matched: seq<nat>, a: nat, b: nat)
    requires PairedMatches(deck, matched)
    requires a < |deck| && b < |deck| && a != b && a !in matched && b !in matched
    requires deck[a] == deck[b]
    ensures PairedMatches(deck, matched + [a, b])
  {
    var m := matched + [a, b];
    forall k | 0 <= k < |m| ensures Partner(k) < |m| && deck[m[k]] == deck[m[Partner(k)]] {
      if k < |matched| {
        assert m[k] == matched[k] && m[Partner(k)] == matched[Partner(k)];
      }
    }
  }

  /** `matched_pairs == total_pairs and total_pairs > 0`, with
      `matched_pairs = len(memory_matched) // 2` and
      `total_pairs = len(memory_deck) // 2`. */
  function Won(deckSize: nat, matchedCount: nat): (won: bool)
    ensures won ==> deckSize >= 2 && matchedCount >= deckSize - 1
    ensures matchedCount == deckSize ==> (won <==> deckSize >= 2)
  {
    matchedCount / 2 == deckSize / 2 && deckSize / 2 > 0
  }

  /** The positions `0 .. n - 1`. */
  function Positions(n: nat): (ps: set<nat>)
    ensures forall k: nat :: k in ps <==> k < n
    ensures |ps| == n
  {
    if n == 0 then {} else Positions(n - 1) + {n - 1}
  }

  /** A subset of a finite set with as many elements is the whole set. */
  lemma SubsetOfSameSize<T>(a: set<T>, b: set<T>)
    requires a <= b && |a| == |b|
    ensures a == b
  {
    assert |b - a| == |b| - |a|;
  }

  /** For a deck of pairs, the win message shows exactly when the deck is
      not empty and every position of it is part of a found pair. */
  lemma WonIffAllMatched<T>(deck: seq<T>, t: Turn)
    requires Consistent(deck, t) && |deck| % 2 == 0
    ensures Won(|deck|, |t.matched|) <==> deck != [] && forall k :: 0 <= k < |deck| ==> k in t.matched
  {
    var found := set k | k in t.matched;
    DistinctCardinality(t.matched);
    assert found <= Positions(|deck|);
    if Won(|deck|, |t.matched|) {
      assert |t.matched| == |deck|;
      SubsetOfSameSize(found, Positions(|deck|));
      forall k | 0 <= k < |deck| ensures k in t.matched {
        assert k in Positions(|deck|);
      }
    }
    if deck != [] && forall k :: 0 <= k < |deck| ==> k in t.matched {
      assert found == Positions(|deck|);
    }
  }

  /** `deck = sample * 2`, then shuffled: every card occurs an even number of
      times, twice as often as in the sample; when the sample has no repeats
      each of its cards occurs exactly twice. */
  lemma DoubledDeck<T>(sample: seq<T>, deck: seq<T>)
    requires multiset(deck) == multiset(sample + sample)
    ensures |deck| == 2 * |sample|
    ensures forall c :: multiset(deck)[c] == 2 * multiset(sample)[c]
    ensures NoDups(sample) ==> forall c :: c in deck ==> multiset(deck)[c] == 2
  {
    assert |deck| == |multiset(deck)|;
    if NoDups(sample) {
      NoDupsCounts(sample);
    }
  }
}
