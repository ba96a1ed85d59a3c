/** The flashcard session of app2.py: the state kept across reruns
    (app2.py:78-99) and one method per button or widget handler of the four
    screens (home, gallery, presentation, memory game). A method requires
    the mode whose screen shows its button. */
module Flashcards {
  import opened Seqs
  import opened Matcher
  import Navigation
  import Randomness
  import Memory

  /** `to_thumb(file_id)`: the thumbnail of one Drive file. Only the file id
      matters; the URL format is not modelled. */
  datatype Card = Thumb(fileId: string)

  /** `st.session_state.mode`. */
  datatype Mode = Home | Gallery | Present | MemoryGame

  /** The gallery's "View" select box: "All" or "3 per page". */
  datatype ViewMode = All | ThreePerPage

  /** How the Search button ended: empty input box (nothing happens), no
      matching file (a warning), or cards found (the gallery opens). */
  datatype SearchOutcome = NoInput | NoMatches | Found

  /** `[to_thumb(id_by_norm[n]) for n in ordered_norms]`. */
  function CardsFor(ids: Dict<string>, names: seq<string>): (cards: seq<Card>)
    requires forall k :: 0 <= k < |names| ==> names[k] in ids.values
    ensures |cards| == |names|
    ensures forall k :: 0 <= k < |names| ==> cards[k] == Thumb(ids.values[names[k]])
  {
    seq(|names|, k requires 0 <= k < |names| => Thumb(ids.values[names[k]]))
  }

  /** The cards the Search handler builds for the typed `words` from the
      Drive listing `files`: one per resolved name, in resolved order, each
      the thumbnail of the id `build_maps` keeps for that name. */
  function SearchCards(words: string, files: seq<DriveFile>): (cards: seq<Card>)
    ensures |cards| == |Resolved(words, BuildMaps(Entries(files)).0.keys)|
  {
    var ids := BuildMaps(Entries(files)).0;
    CardsFor(ids, Resolved(words, ids.keys))
  }

  /** Search finds no card exactly when no token's pattern finds any file
      name. */
  lemma SearchCardsEmpty(words: string, files: seq<DriveFile>)
    ensures SearchCards(words, files) == [] <==>
      forall n, t :: n in Norms(Entries(files)) && t in Tokens(words) ==> !RegexSearch(n, t)
  {
    var ids := BuildMaps(Entries(files)).0;
    var names := Resolved(words, ids.keys);
    ResolvedMeaning(words, ids.keys);
    if names != [] {
      assert names[0] in names;
    }
  }

  /** The file of the listing the `k`-th card of Search comes from: the
      card is that file's thumbnail, and some token's pattern finds the
      file's normalised name. */
  function CardSource(words: string, files: seq<DriveFile>, k: nat): (i: nat)
    requires k < |SearchCards(words, files)|
    ensures i < |files| && SearchCards(words, files)[k] == Thumb(files[i].id)
    ensures exists t :: t in Tokens(words) && RegexSearch(Normalize(files[i].name), t)
  {
    var entries := Entries(files);
    var ids := BuildMaps(entries).0;
    var names := Resolved(words, ids.keys);
    var n := names[k];
    assert n in names;
    assert exists t :: t in Tokens(words) && RegexSearch(n, t) by {
      ResolvedMeaning(words, ids.keys);
    }
    var i := IdSource(entries, n);
    assert SearchCards(words, files)[k] == Thumb(ids.values[n]);
    assert entries[i].norm == Normalize(files[i].name) && entries[i].id == files[i].id;
    i
  }

  /** When Drive file ids are unique, Search never yields the same card
      twice. */
  lemma SearchCardsDistinct(words: string, files: seq<DriveFile>)
    requires forall i, j :: 0 <= i < j < |files| ==> files[i].id != files[j].id
    ensures NoDups(SearchCards(words, files))
  {
    var entries := Entries(files);
    var ids := BuildMaps(entries).0;
    var names := Resolved(words, ids.keys);
    ResolvedMeaning(words, ids.keys);
    var cards := SearchCards(words, files);
    assert DistinctIds(entries) by {
      forall i, j | 0 <= i < j < |entries| ensures entries[i].id != entries[j].id {
        assert entries[i].id == files[i].id && entries[j].id == files[j].id;
      }
    }
    forall i, j | 0 <= i < j < |cards| ensures cards[i] != cards[j] {
      assert names[i] != names[j];
      DistinctIdsPerName(entries, names[i], names[j]);
    }
  }

  /** `[c for c in cards if c in set(selected)]`: the selected cards in the
      order of `cards`, each as often as it occurs there. */
  function Reordered(cards: seq<Card>, selected: seq<Card>): (r: seq<Card>)
    ensures IsSubsequence(r, cards)
    ensures forall c :: c in r <==> c in cards && c in selected
    ensures multiset(r) <= multiset(cards)
  {
    Filter(cards, c => c in selected)
  }

  /** The deck of the memory game (app2.py:262-269): `k = min(pairs,
      len(base))` cards sampled from distinct positions of `base`, each put
      in twice, then shuffled. Each sampled card occurs in the deck twice as
      often as in the sample, so exactly twice when the base has no
      repeats. */
  method BuildDeck(base: seq<Card>, pairs: nat, sampleDraws: seq<nat>, shuffleDraws: seq<nat>)
    returns (sample: seq<Card>, deck: seq<Card>)
    ensures |sample| == if pairs < |base| then pairs else |base|
    ensures multiset(sample) <= multiset(base)
    ensures |deck| == 2 * |sample|
    ensures forall c :: multiset(deck)[c] == 2 * multiset(sample)[c]
    ensures NoDups(base) ==> NoDups(sample) && forall c :: c in deck ==> multiset(deck)[c] == 2
  {
    var k := if pairs < |base| then pairs else |base|;
    sample := Randomness.Sample(base, k, sampleDraws);
    deck := Randomness.Shuffle(sample + sample, shuffleDraws);
    Memory.DoubledDeck(sample, deck);
    if NoDups(base) {
      NoDupsCounts(base);
      assert forall c :: multiset(sample)[c] <= 1 by {
        forall c ensures multiset(sample)[c] <= 1 {
          assert multiset(sample)[c] <= multiset(base)[c];
        }
      }
      NoDupsCounts(sample);
    }
  }

  /** Whether a card stays selected when the gallery's checkboxes are read:
      a visible card takes its checkbox, any other card keeps its status. */
  predicate StaysSelected(c: Card, visible: seq<Card>, newSelection: seq<Card>, selected: seq<Card>)
  {
    if c in visible then c in newSelection else c in selected
  }

  /** The merged selection: the cards that stay selected, in `cards` order. */
  function Merged(cards: seq<Card>, visible: seq<Card>, newSelection: seq<Card>, selected: seq<Card>): seq<Card>
  {
    Filter(cards, c => StaysSelected(c, visible, newSelection, selected))
  }

  /** `new_selection`: the visible cards whose checkbox is ticked. */
  function Ticked(visible: seq<Card>, checked: set<Card>): (ticked: seq<Card>)
    ensures IsSubsequence(ticked, visible)
    ensures forall c :: c in ticked <==> c in visible && c in checked
  {
    Filter(visible, c => c in checked)
  }

  /** The `merged` loop of the gallery (app2.py:218-227). */
  method MergeSelection(cards: seq<Card>, visible: seq<Card>, newSelection: seq<Card>, selected: seq<Card>)
    returns (merged: seq<Card>)
    ensures merged == Merged(cards, visible, newSelection, selected)
    ensures IsSubsequence(merged, cards)
    ensures forall c :: c in merged <==> c in cards && (if c in visible then c in newSelection else c in selected)
  {
    var visibleSet := set c | c in visible;
    merged := [];
    var i := 0;
    while i < |cards|
      invariant 0 <= i <= |cards|
      invariant merged == Merged(cards[..i], visible, newSelection, selected)
    {
      var c := cards[i];
      assert cards[..i + 1][..i] == cards[..i];
      if c in visibleSet {
        if c in newSelection {
          merged := merged + [c];
        }
      } else {
        if c in selected {
          merged := merged + [c];
        }
      }
      i := i + 1;
    }
    assert cards[..|cards|] == cards;
  }

  /** All of `st.session_state` at one moment. */
  datatype State = State(
    mode: Mode,
    cards: seq<Card>,
    selectedCards: seq<Card>,
    current: nat,
    viewMode: ViewMode,
    page: nat,
    presentTriplet: bool,
    tries: nat,
    memoryDeck: seq<Card>,
    memoryFlipped: seq<nat>,
    memoryMatched: seq<nat>)

  /** The session state as first set up (app2.py:78-99). */
  const Initial: State := State(Home, [], [], 0, All, 0, false, 0, [], [], [])

  /** The memory game's state besides the deck. */
  function Game(s: State): Memory.Turn
  {
    Memory.Turn(s.memoryFlipped, s.memoryMatched, s.tries)
  }

  /** What every handler keeps: the selection is drawn from the cards, the
      gallery page exists, the presentation cursor points at a card when
      there are cards, and the memory game is in a consistent state on a
      deck of pairs. */
  ghost predicate Invariant(s: State)
  {
    && multiset(s.selectedCards) <= multiset(s.cards)
    && s.page < Navigation.Pages(|s.cards|)
    && (s.cards != [] ==> s.current < |s.cards|)
    && |s.memoryDeck| % 2 == 0
    && Memory.Consistent(s.memoryDeck, Game(s))
  }

  lemma InitialInvariant()
    ensures Invariant(Initial)
  {
    Memory.FreshIsConsistent(Initial.memoryDeck);
  }

  /** The cards the gallery shows: all of them, or the current page of
      three (app2.py:188-196). */
  function Visible(s: State): (shown: seq<Card>)
    ensures s.viewMode != ThreePerPage ==> shown == s.cards
    ensures s.viewMode == ThreePerPage ==> |shown| <= Navigation.PerPage
    ensures forall k :: 0 <= k < |shown| ==> shown[k] in s.cards
  {
    if s.viewMode == ThreePerPage then Navigation.PageSlice(s.cards, s.page) else s.cards
  }

  /** The cards a memory game is drawn from: the selection, or all cards
      when nothing is selected (app2.py:262). */
  function GameBase(s: State): (base: seq<Card>)
    requires Invariant(s)
    ensures multiset(base) <= multiset(s.cards)
    ensures base == [] <==> s.cards == []
  {
    if s.selectedCards != [] then s.selectedCards else s.cards
  }

  /** The upper bound of the gallery's "Pairs" number input (app2.py:182-183):
      the number of selected cards, at least 1 and at most 12. */
  function MaxPairs(selectedCount: nat): (m: nat)
    ensures 1 <= m <= 12
    ensures selectedCount == 0 ==> m == 1
    ensures selectedCount > 0 ==> m <= selectedCount
  {
    if selectedCount < 1 then 1 else if selectedCount < 12 then selectedCount else 12
  }

  /** The base of a memory game always holds as many cards as the "Pairs"
      input allows, so `min(pairs, len(base))` is `pairs`: with nothing
      selected the input offers only 1 pair, drawn from all cards. */
  lemma PairsAvailable(s: State, pairs: nat)
    requires Invariant(s) && s.cards != [] && 1 <= pairs <= MaxPairs(|s.selectedCards|)
    ensures pairs <= |GameBase(s)|
  {
  }

  // ----- The handlers' effect on the session state -----

  /** Search found cards (app2.py:137-142): they become the gallery's cards,
      all selected, and the gallery opens on its first page. */
  function Opened(s: State, found: seq<Card>): (r: State)
    requires Invariant(s) && found != []
    ensures Invariant(r)
    ensures r.mode == Gallery && r.selectedCards == r.cards == found
  {
    s.(cards := found, selectedCards := found, mode := Gallery, page := 0, current := 0)
  }

  /** "Clear" (app2.py:149-153). */
  function Cleared(s: State): (r: State)
    requires Invariant(s)
    ensures Invariant(r)
    ensures r.cards == r.selectedCards == []
  {
    s.(cards := [], selectedCards := [], page := 0)
  }

  /** "Shuffle" (app2.py:167-175) with `shuffled` the cards in their new
      order: the same cards stay selected, as often as they occur in the
      cards, now listed in the new order. */
  function Reshuffled(s: State, shuffled: seq<Card>): (r: State)
    requires Invariant(s) && multiset(shuffled) == multiset(s.cards)
    ensures Invariant(r)
    ensures multiset(r.cards) == multiset(s.cards)
    ensures forall c :: c in r.selectedCards <==> c in s.selectedCards
    ensures IsSubsequence(r.selectedCards, r.cards)
    ensures r.page == 0 && r.current == 0
  {
    assert forall c :: c in s.selectedCards ==> c in shuffled by {
      forall c | c in s.selectedCards ensures c in shuffled {
        assert multiset(s.selectedCards)[c] <= multiset(shuffled)[c];
      }
    }
    s.(cards := shuffled, selectedCards := Reordered(shuffled, s.selectedCards), page := 0, current := 0)
  }

  /** Reading the checkboxes of the shown cards (app2.py:199-227): `checked`
      is the set of cards whose box is ticked. Shown cards take their box,
      the others keep their status, and the selection lists them in card
      order. Nothing happens when no card is shown. */
  function Checked(s: State, checked: set<Card>): (r: State)
    requires Invariant(s)
    ensures Invariant(r)
    ensures Visible(s) == [] ==> r == s
    ensures Visible(s) != [] ==> forall c :: c in r.selectedCards <==>
      c in s.cards && (if c in Visible(s) then c in checked else c in s.selectedCards)
    ensures Visible(s) != [] ==> IsSubsequence(r.selectedCards, r.cards)
    ensures r.cards == s.cards
  {
    var shown := Visible(s);
    if shown == [] then
      s
    else
      s.(selectedCards := Merged(s.cards, shown, Ticked(shown, checked), s.selectedCards))
  }

  /** "Presentation" (app2.py:247-250) with `cards` unchanged, and "Shuffle
      & Start" (app2.py:252-256) with `cards` the shuffled cards: present
      them from the first. The selection is left as it was. */
  function Presenting(s: State, cards: seq<Card>): (r: State)
    requires Invariant(s) && multiset(cards) == multiset(s.cards)
    ensures Invariant(r)
    ensures r.mode == Present && r.selectedCards == s.selectedCards
    ensures |r.cards| == |s.cards|
  {
    assert |cards| == |multiset(cards)| == |multiset(s.cards)| == |s.cards|;
    s.(cards := cards, mode := Present, current := 0)
  }

  /** "Memory Game" (app2.py:270-275) and "Reshuffle" (app2.py:377-382):
      a fresh game on the deck `deck`, no card turned, nothing matched, no
      try counted. */
  function NewGame(s: State, deck: seq<Card>): (r: State)
    requires Invariant(s) && |deck| % 2 == 0
    ensures Invariant(r)
    ensures r.mode == MemoryGame && r.memoryDeck == deck
    ensures !Memory.Won(|r.memoryDeck|, |r.memoryMatched|)
  {
    Memory.FreshIsConsistent(deck);
    s.(memoryDeck := deck, memoryFlipped := [], memoryMatched := [], tries := 0, mode := MemoryGame)
  }

  /** The button of the face-down card at position `i` (app2.py:349-363). */
  function Flipped(s: State, i: nat): (r: State)
    requires Invariant(s)
    requires i < |s.memoryDeck| && i !in s.memoryMatched && i !in s.memoryFlipped
    ensures Invariant(r)
    ensures Game(r) == Memory.Flip(s.memoryDeck, Game(s), i)
    ensures r.memoryDeck == s.memoryDeck && r.cards == s.cards
  {
    var t := Memory.Flip(s.memoryDeck, Game(s), i);
    s.(memoryFlipped := t.flipped, memoryMatched := t.matched, tries := t.tries)
  }

  class Session {
    var mode: Mode
    var cards: seq<Card>
    var selectedCards: seq<Card>
    var current: nat
    var viewMode: ViewMode
    var page: nat
    var presentTriplet: bool
    var tries: nat
    var memoryDeck: seq<Card>
    var memoryFlipped: seq<nat>
    var memoryMatched: seq<nat>

    function Snapshot(): State
      reads this
    {
      State(mode, cards, selectedCards, current, viewMode, page, presentTriplet,
            tries, memoryDeck, memoryFlipped, memoryMatched)
    }

    ghost predicate Valid()
      reads this
    {
      Invariant(Snapshot())
    }

    constructor ()
      ensures Valid()
      ensures Snapshot() == Initial
    {
      mode := Home;
      cards := [];
      selectedCards := [];
      current := 0;
      viewMode := All;
      page := 0;
      presentTriplet := false;
      tries := 0;
      memoryDeck := [];
      memoryFlipped := [];
      memoryMatched := [];
      InitialInvariant();
    }

    /** Writes the new session state back, key by key. */
    method Store(s: State)
      modifies this
      ensures Snapshot() == s
    {
      mode, cards, selectedCards, current := s.mode, s.cards, s.selectedCards, s.current;
      viewMode, page, presentTriplet := s.viewMode, s.page, s.presentTriplet;
      tries, memoryDeck, memoryFlipped, memoryMatched := s.tries, s.memoryDeck, s.memoryFlipped, s.memoryMatched;
    }

    // ----- Home screen -----

    /** "Search" (app2.py:117-146): with text in the box, resolve it against
        the Drive listing; when cards are found the gallery opens on them,
        otherwise nothing changes. */
    method Search(words: string, files: seq<DriveFile>) returns (outcome: SearchOutcome)
      requires Valid() && mode == Home
      modifies this
      ensures Valid()
      ensures outcome == NoInput <==> words == []
      ensures outcome == NoMatches <==> words != [] && SearchCards(words, files) == []
      ensures Snapshot() == if outcome == Found then Opened(old(Snapshot()), SearchCards(words, files)) else old(Snapshot())
    {
      if words == [] {
        return NoInput;
      }
      var maps := BuildMaps(Entries(files));
      var idByNorm := maps.0;
      var allNorms := idByNorm.keys;
      var ordered := ResolveWords(words, allNorms);
      var selected := CardsFor(idByNorm, ordered);
      assert selected == SearchCards(words, files);
      if selected != [] {
        Store(Opened(Snapshot(), selected));
        outcome := Found;
      } else {
        outcome := NoMatches;
      }
    }

    /** "Clear" (app2.py:149-153): empties the cards and the selection and
        goes back to the first page; the mode stays `home`. */
    method Clear()
      requires Valid() && mode == Home
      modifies this
      ensures Valid()
      ensures Snapshot() == Cleared(old(Snapshot()))
    {
      Store(Cleared(Snapshot()));
    }

    // ----- Gallery screen -----

    /** The "View" select box (app2.py:165). */
    method SelectView(view: ViewMode)
      requires Valid() && mode == Gallery
      modifies this
      ensures Valid()
      ensures Snapshot() == old(Snapshot()).(viewMode := view)
    {
      viewMode := view;
    }

    /** "Shuffle" (app2.py:167-175). */
    method ShuffleGallery(draws: seq<nat>)
      requires Valid() && mode == Gallery
      modifies this
      ensures Valid()
      ensures multiset(cards) == multiset(old(cards))
      ensures Snapshot() == Reshuffled(old(Snapshot()), cards)
    {
      var shuffled := Randomness.Shuffle(cards, draws);
      Store(Reshuffled(Snapshot(), shuffled));
    }

    /** "Home" on the gallery and on the memory game (app2.py:177-179,
        app2.py:388-390). */
    method GoHome()
      requires Valid() && (mode == Gallery || mode == MemoryGame)
      modifies this
      ensures Valid()
      ensures Snapshot() == old(Snapshot()).(mode := Home)
    {
      mode := Home;
    }

    /** Reading the checkboxes (app2.py:199-227), with the `merged` loop. */
    method ReadCheckboxes(checked: set<Card>)
      requires Valid() && mode == Gallery
      modifies this
      ensures Valid()
      ensures Snapshot() == Checked(old(Snapshot()), checked)
    {
      var s := Snapshot();
      var show := Visible(s);
      if show != [] {
        var newSelection := Ticked(show, checked);
        var merged := MergeSelection(cards, show, newSelection, selectedCards);
        Store(s.(selectedCards := merged));
      }
    }

    /** "Prev Page" (app2.py:235-237), offered in the three-per-page view of
        a non-empty gallery. */
    method PrevPage()
      requires Valid() && mode == Gallery && viewMode == ThreePerPage && cards != []
      modifies this
      ensures Valid()
      ensures Snapshot() == old(Snapshot()).(page := Navigation.PrevPage(old(page), Navigation.Pages(|old(cards)|)))
    {
      page := Navigation.PrevPage(page, Navigation.Pages(|cards|));
    }

    /** "Next Page" (app2.py:239-241). */
    method NextPage()
      requires Valid() && mode == Gallery && viewMode == ThreePerPage && cards != []
      modifies this
      ensures Valid()
      ensures Snapshot() == old(Snapshot()).(page := Navigation.NextPage(old(page), Navigation.Pages(|old(cards)|)))
    {
      page := Navigation.NextPage(page, Navigation.Pages(|cards|));
    }

    /** "Presentation" (app2.py:247-250). */
    method StartPresentation()
      requires Valid() && mode == Gallery
      modifies this
      ensures Valid()
      ensures Snapshot() == Presenting(old(Snapshot()), old(cards))
    {
      Store(Presenting(Snapshot(), cards));
    }

    /** "Shuffle & Start" (app2.py:252-256). */
    method ShuffleAndStart(draws: seq<nat>)
      requires Valid() && mode == Gallery
      modifies this
      ensures Valid()
      ensures multiset(cards) == multiset(old(cards))
      ensures Snapshot() == Presenting(old(Snapshot()), cards)
    {
      var shuffled := Randomness.Shuffle(cards, draws);
      Store(Presenting(Snapshot(), shuffled));
    }

    /** The three-up toggle for the presentation (app2.py:258). */
    method SetPresentTriplet(on: bool)
      requires Valid() && mode == Gallery
      modifies this
      ensures Valid()
      ensures Snapshot() == old(Snapshot()).(presentTriplet := on)
    {
      presentTriplet := on;
    }

    /** "Memory Game" (app2.py:260-275): `pairs` comes from the number input,
        which offers 1 to `MaxPairs` of the selection. With no card to draw
        from, only a warning is shown. Otherwise the deck is built from the
        base (see `BuildDeck`) and a fresh game starts; the input's bound
        makes the deck hold exactly `pairs` pairs. */
    method StartMemoryGame(pairs: nat, sampleDraws: seq<nat>, shuffleDraws: seq<nat>) returns (started: bool)
      requires Valid() && mode == Gallery && 1 <= pairs <= MaxPairs(|selectedCards|)
      modifies this
      ensures Valid()
      ensures started <==> old(cards) != []
      ensures started ==> |memoryDeck| == 2 * pairs
      ensures started ==> forall c :: multiset(memoryDeck)[c] % 2 == 0
      ensures started ==> forall c :: multiset(memoryDeck)[c] <= 2 * multiset(GameBase(old(Snapshot())))[c]
      ensures Snapshot() == if started then NewGame(old(Snapshot()), memoryDeck) else old(Snapshot())
    {
      var s := Snapshot();
      var base := GameBase(s);
      if |base| == 0 {
        return false;
      }
      PairsAvailable(s, pairs);
      var sample, deck := BuildDeck(base, pairs, sampleDraws, shuffleDraws);
      Store(NewGame(s, deck));
      started := true;
    }

    // ----- Presentation screen -----

    /** What the presentation shows (app2.py:304-319): the three-up view or
        the card under the cursor, taken from all cards (not only the
        selected ones). */
    function Shown(): (shown: seq<Card>)
      reads this
      requires Valid() && mode == Present
      ensures cards != [] && !presentTriplet ==> shown == [cards[current]]
      ensures cards != [] && presentTriplet ==> |shown| == 3 && forall c :: c in shown ==> c in cards
    {
      Navigation.Showing(cards, current, presentTriplet)
    }

    /** "◀ Prev" (app2.py:324-327), offered when there are cards. */
    method PrevCard()
      requires Valid() && mode == Present && cards != []
      modifies this
      ensures Valid()
      ensures Snapshot() == old(Snapshot()).(current := Navigation.Retreat(old(current), Navigation.Step(old(presentTriplet)), |old(cards)|))
    {
      var step := Navigation.Step(presentTriplet);
      current := (current - step) % |cards|;
    }

    /** "Next ▶" (app2.py:333-336). */
    method NextCard()
      requires Valid() && mode == Present && cards != []
      modifies this
      ensures Valid()
      ensures Snapshot() == old(Snapshot()).(current := Navigation.Advance(old(current), Navigation.Step(old(presentTriplet)), |old(cards)|))
    {
      var step := Navigation.Step(presentTriplet);
      current := (current + step) % |cards|;
    }

    /** "Exit" on the presentation and "Exit to Gallery" on the memory game
        (app2.py:329-331, app2.py:384-386). */
    method ExitToGallery()
      requires Valid() && (mode == Present || mode == MemoryGame)
      modifies this
      ensures Valid()
      ensures Snapshot() == old(Snapshot()).(mode := Gallery)
    {
      mode := Gallery;
    }

    // ----- Memory game screen -----

    /** The button of the face-down card at position `i` (app2.py:349-363),
        offered for positions neither matched nor turned in this try: the
        position joins the turned ones; a second turned card ends the try,
        and the two stay face up when they show the same card. */
    method Flip(i: nat)
      requires Valid() && mode == MemoryGame
      requires i < |memoryDeck| && i !in memoryMatched && i !in memoryFlipped
      modifies this
      ensures Valid()
      ensures Snapshot() == Flipped(old(Snapshot()), i)
    {
      var s := Snapshot();
      var flipped := memoryFlipped + [i];
      var matched := memoryMatched;
      var count := tries;
      if |flipped| == 2 {
        var i1, i2 := flipped[0], flipped[1];
        count := count + 1;
        if memoryDeck[i1] == memoryDeck[i2] {
          matched := matched + [i1, i2];
        }
        flipped := [];
      }
      assert Memory.Turn(flipped, matched, count) == Memory.Flip(memoryDeck, Game(s), i);
      Store(s.(memoryFlipped := flipped, memoryMatched := matched, tries := count));
    }

    /** The win message of the status bar (app2.py:366-371). On a consistent
        game it shows exactly when every position of the deck is matched. */
    function Won(): (won: bool)
      reads this
      requires Valid()
      ensures won <==> memoryDeck != [] && forall k :: 0 <= k < |memoryDeck| ==> k in memoryMatched
    {
      Memory.WonIffAllMatched(memoryDeck, Game(Snapshot()));
      Memory.Won(|memoryDeck|, |memoryMatched|)
    }

    /** "Reshuffle" (app2.py:377-382): permute the deck and start the game
        over. */
    method Reshuffle(draws: seq<nat>)
      requires Valid() && mode == MemoryGame
      modifies this
      ensures Valid()
      ensures multiset(memoryDeck) == multiset(old(memoryDeck))
      ensures Snapshot() == NewGame(old(Snapshot()), memoryDeck)
    {
      var deck := Randomness.Shuffle(memoryDeck, draws);
      Store(NewGame(Snapshot(), deck));
    }
  }
}
