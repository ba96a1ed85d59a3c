# BCA Flashcards session engine

A Dafny model of the session engine of the BCA Flashcards Streamlit app
(`app2.py`). The user types words such as `land, cat`. Each word selects the
images of a Drive folder whose normalised file name holds the word followed by
a number (`land1`, `my_land12`). The matching images become flashcards. The
user can then do four things with them:

- browse them in a gallery, all at once or three per page;
- tick which ones to keep;
- present them one or three at a time, cycling through them;
- play a memory game on a shuffled deck of pairs drawn from them.

The model has seven modules, one file each:

- `Text`: ASCII whitespace, `str.strip`, `str.lower`, `str.split`, `rsplit(".", 1)[0]`.
- `Seqs`: list comprehensions with a filter, order-preserving de-duplication, subsequences.
- `Matcher`: these pieces of the Search handler:
  - `normalize`;
  - `build_maps` (dicts with insertion-ordered keys, last value wins);
  - the word+number pattern `(?<![a-z])word\d+(?![a-z])`, written as an explicit predicate and proved equal to a one-digit rule;
  - `find_word_number_matches`;
  - tokenising, collecting and de-duplicating.
- `Navigation`: gallery pages, Prev/Next page, the presentation cursor and the wrapping three-up view.
- `Randomness`: CPython's `random.shuffle` and `random.sample` algorithms. The random numbers are a parameter.
- `Memory`: the memory game's turns, found pairs and win condition.
- `Flashcards`: the session state (`st.session_state`) and its handlers.

How the session state is modelled:

- The state is a `State` record.
- `Invariant` is what every handler keeps:
  - the selection is drawn from the cards;
  - the gallery page exists;
  - the cursor points at a card whenever there are cards;
  - the memory game is consistent.
- Each handler's effect is a function on `State` that keeps `Invariant`.
- The class `Session` holds the same keys as fields. It has one method per button or widget. Each method is proved to leave the state its function describes.
- Every method requires the mode whose screen shows its button.

Python's `%` with a positive right operand agrees with Dafny's `%`, so
`(page - 1) % pages` and `(current - step) % len(cards)` are written as in the
source.

The docstring of `find_word_number_matches` lists `land12a` as rejected. The
pattern accepts it: `land`, the digit `1`, then `2`, which is not a letter. The
model follows the code (`Matcher.Land12aAccepted`).

## Model

| member | source | states |
|---|---|---|
| Text.Strip | app2.py:41 | the stripped text has no whitespace at either end, is empty exactly for blank text, and is no longer than the input |
| Text.TrimStartSuffix | app2.py:41 | stripping the front removes a whitespace prefix only and keeps the rest as a suffix |
| Text.TrimEndPrefix | app2.py:41 | stripping the end removes a whitespace suffix only and keeps the rest as a prefix |
| Text.StripTrimmed | app2.py:41 | text with no whitespace at either end is left unchanged by strip |
| Text.Lower | app2.py:41 | `lower()` leaves no upper-case letter, turns each upper-case letter into its own lower-case letter, and keeps every other character in place |
| Text.LowerIdempotent | app2.py:41 | lowercasing twice is lowercasing once |
| Text.NormalFormKeepsOut | app2.py:123 | `strip().lower()` introduces no character other than a letter, so a comma absent from a piece is absent from its token |
| Text.NormalFormStable | app2.py:123 | a typed word in `strip().lower()` form is unchanged by a second `strip().lower()` |
| Text.Split | app2.py:123 | `split(",")` yields at least one piece and no piece contains the separator |
| Text.JoinSplit | app2.py:123 | joining the pieces with the separator gives back the typed text |
| Text.SplitLength | app2.py:123 | there is one more piece than there are commas |
| Text.DropExtension | app2.py:40 | `rsplit(".", 1)[0]` is a prefix of the name: the whole name when it has no dot, else the part before the last dot |
| Seqs.Filter | app2.py:71 | a filtering comprehension keeps exactly the elements passing the test, in order, each as often as in the input |
| Seqs.Dedup | app2.py:129-134 | the de-duplicated list has no repeats, the same members as the input, and is a subsequence of it |
| Seqs.DedupFirstOccurrenceOrder | app2.py:129-134 | the de-duplicated list is ordered by each name's first occurrence in the input |
| Seqs.DedupOfDistinct | app2.py:129-134 | a list without repeats is left unchanged |
| Seqs.DedupIdempotent | app2.py:129-134 | de-duplicating twice is de-duplicating once |
| Matcher.Normalize | app2.py:39-41 | a normalised name has no upper-case letter, no whitespace at either end, and is no longer than the file name |
| Matcher.Entries | app2.py:47-50 | one row per Drive file, with the file's id and normalised name |
| Matcher.DictOf | app2.py:54-55 | a dict comprehension lists each key once in order of first occurrence, and a key is present exactly when some pair has it |
| Matcher.DictOfLastWins | app2.py:54-55 | the value of a key is the one of the last pair with that key |
| Matcher.SourceIndex | app2.py:54-55 | every value of the dict comes from a pair with its key |
| Matcher.DistinctValuesPerKey | app2.py:54-55 | pairs with pairwise different values give different values for different keys |
| Matcher.BuildMaps | app2.py:52-56 | both maps have the distinct normalised names as keys, in order of first occurrence, and a name is a key exactly when some file has it |
| Matcher.IdSource | app2.py:54 | the id kept for a name is the id of a file with that normalised name |
| Matcher.DistinctIdsPerName | app2.py:54 | when Drive ids are unique, different names get different ids |
| Matcher.RegexMatchAt | app2.py:70 | the compiled pattern matching at one position: no letter before, the token, one or more digits, then no letter (definition, used by the lemmas below) |
| Matcher.RegexSearch | app2.py:70-71 | `pattern.search(n)`: the pattern matches at some position (definition) |
| Matcher.RegexMatchAtIsWordNumber | app2.py:70 | because `\d+` backtracks, the pattern matches at a position exactly when the word is there, not after a letter, followed by one digit and then by the end or a non-letter |
| Matcher.RegexSearchIsWordNumberRule | app2.py:70-71 | `pattern.search` succeeds exactly when the one-digit rule holds at some position |
| Matcher.SearchFrom | app2.py:71 | scanning from position `i` succeeds exactly when the rule holds at some position from `i` on |
| Matcher.Search | app2.py:70-71 | the scan succeeds exactly when the pattern is found |
| Matcher.AcceptedExample | app2.py:64 | `my_land12` is found by `land` |
| Matcher.Land12aAccepted | app2.py:65 | `land12a` is found by `land`, although the docstring lists it as rejected |
| Matcher.IslandRejected | app2.py:65 | `island2` is not found by `land` |
| Matcher.DashRejected | app2.py:65 | `land-12` is not found by `land` |
| Matcher.Land1aRejected | app2.py:65 | `land1a` is not found by `land`: a letter follows the number |
| Matcher.Landlord3Rejected | app2.py:65 | `landlord3` is not found by `land` |
| Matcher.AppleV2Rejected | app2.py:65 | `apple_v2` is not found by `apple` |
| Matcher.Cat007Accepted | app2.py:64 | `cat007` is found by `cat` |
| Matcher.Land1Accepted | app2.py:64 | `land1` is found by `land` |
| Matcher.GreenApple2Accepted | app2.py:64 | `green_apple2` is found by `apple` |
| Matcher.MatchedBy | app2.py:67-71 | a name is kept for a token when the token is not blank and the pattern built from its `strip().lower()` form is found in it (definition) |
| Matcher.FindWordNumberMatches | app2.py:61-71 | a blank token finds nothing; otherwise the result is the subsequence of the names the pattern finds, each as often as in the input |
| Matcher.NormalTokenMatchedBy | app2.py:67 | for a token already stripped and lowercased, the matcher's own `strip().lower()` changes nothing |
| Matcher.TokenOfPiece | app2.py:123 | a non-blank piece gives a non-blank token in `strip().lower()` form |
| Matcher.TokensOf | app2.py:123 | every token is non-blank and in normal form and is the normal form of some non-blank piece; there are at most as many tokens as pieces |
| Matcher.TokensAreNormalFormsOfNonBlank | app2.py:123 | the tokens are exactly the normal forms of the non-blank pieces, in typing order and with repeats kept |
| Matcher.TokensCoverPieces | app2.py:123 | the normal form of every non-blank piece is among the tokens |
| Matcher.TokensKeepOut | app2.py:123 | a non-letter that occurs in no piece occurs in no token |
| Matcher.Tokens | app2.py:123 | at most one token per comma-separated piece, each non-blank, in normal form and without a comma |
| Matcher.MatchedNorms | app2.py:124-126 | a name is among the collected matches exactly when it is listed and some token selects it |
| Matcher.Resolved | app2.py:129-134 | the resolved names are names of the listing |
| Matcher.ResolvedMeaning | app2.py:123-134 | the resolved names have no repeats, are exactly the listed names some token's pattern finds, and are ordered by first occurrence among the per-token matches |
| Matcher.SelectedByNormalTokens | app2.py:123-126 | with normal-form tokens, some token selects a name exactly when some token's pattern finds it |
| Matcher.CollectMatches | app2.py:124-126 | the `extend` loop computes the concatenated per-token matches |
| Matcher.OrderedUnique | app2.py:129-134 | the `seen` loop computes the order-preserving de-duplication |
| Matcher.ResolveWords | app2.py:123-134 | tokenising, collecting and de-duplicating gives no repeats and exactly the names some token's pattern finds |
| Navigation.Pages | app2.py:191-192 | the page count is the fewest pages of three that hold all cards, and 1 for no cards |
| Navigation.PageSlice | app2.py:194-196 | a page shows at most three cards, the `k`-th being card `3 * page + k` |
| Navigation.PageOfCard | app2.py:192-196 | every card is shown on page `k / 3` at slot `k % 3`, and that page exists |
| Navigation.ReachablePageNotEmpty | app2.py:192-196 | every existing page of a non-empty gallery shows a card |
| Navigation.NextPage | app2.py:240 | Next Page stays below the page count and moves to the following page, from the last to the first |
| Navigation.PrevPage | app2.py:236 | Prev Page stays below the page count and moves to the preceding page, from the first to the last |
| Navigation.PageStepsInverse | app2.py:236-240 | Prev Page undoes Next Page and vice versa |
| Navigation.Step | app2.py:324-335 | Prev and Next move by three cards in the three-up view and by exactly one otherwise |
| Navigation.Advance | app2.py:334-335 | Next keeps the cursor below the number of cards and moves it by the step when that does not wrap |
| Navigation.Retreat | app2.py:325-326 | Prev keeps the cursor below the number of cards and moves it back by the step when that does not wrap |
| Navigation.StepsInverse | app2.py:324-336 | Prev after Next, and Next after Prev, with the same step return to the card shown before |
| Navigation.AdvanceTimes | app2.py:333-336 | after any Next presses the cursor is below the number of cards |
| Navigation.AdvanceOfReduced | app2.py:334-335 | Next from a position taken modulo the number of cards lands where Next from the unreduced position would |
| Navigation.AdvanceTimesMoved | app2.py:333-336 | `p` Next presses move the cursor by the step added `p` times, modulo the number of cards |
| Navigation.AdvanceTimesOffset | app2.py:333-336 | `p` Next presses move the cursor by `p * step` around the cycle |
| Navigation.FullRoundReturns | app2.py:333-336 | as many Next presses as there are cards bring the cursor back to its start |
| Navigation.TripletView | app2.py:308-311 | the three-up view always shows three cards |
| Navigation.TripletViewIsCycle | app2.py:308-311 | the three-up view is the first three cards of the cycle starting at the cursor |
| Navigation.Showing | app2.py:304-318 | the presentation shows nothing without cards, the cursor's card in the single view, and three of the cards in the three-up view |
| Randomness.Below | app2.py:168 | a random index is below its bound |
| Randomness.Shuffle | app2.py:168 | `random.shuffle` yields a permutation of the list |
| Randomness.Sample | app2.py:267 | `random.sample(base, k)` yields `k` entries taken from distinct positions of `base` |
| Memory.FreshIsConsistent | app2.py:271-273 | a game with nothing turned, nothing matched and no try is consistent on any deck |
| Memory.Flip | app2.py:354-362 | a click keeps the game consistent; the first card of a try stays turned; the second ends the try, counts exactly one try, and appends the two positions, in click order, to the matched ones when they show the same card and leaves them unchanged otherwise; matched positions are never lost |
| Memory.FoundPairExtends | app2.py:360-361 | appending two distinct unmatched positions showing the same card keeps `matched` a list of genuine pairs |
| Memory.Won | app2.py:366-370 | the win message needs at least one pair on the deck and all but at most one position matched; with every position matched it shows exactly when the deck has a pair |
| Memory.WonIffAllMatched | app2.py:366-370 | on a consistent game with a deck of pairs, the win message shows exactly when the deck is not empty and every position is matched |
| Memory.DoubledDeck | app2.py:268-269 | `sample * 2`, shuffled, has twice the sample's length and holds each card twice as often as the sample; with no repeats in the sample each card occurs exactly twice |
| Flashcards.CardsFor | app2.py:136 | one card per resolved name, the thumbnail of the id kept for it |
| Flashcards.SearchCards | app2.py:119-136 | Search builds one card per resolved name |
| Flashcards.SearchCardsEmpty | app2.py:136-146 | Search finds no card exactly when no token's pattern finds any normalised name |
| Flashcards.CardSource | app2.py:119-136 | every card Search yields is the thumbnail of a Drive file whose normalised name some token's pattern finds |
| Flashcards.SearchCardsDistinct | app2.py:136 | with unique Drive ids Search never yields the same card twice |
| Flashcards.Reordered | app2.py:170-171 | the re-listed selection is a subsequence of the cards, holds exactly the cards that were selected, and never holds a card more often than the cards do |
| Flashcards.BuildDeck | app2.py:266-269 | the sample has `min(pairs, len(base))` cards taken from the base; the deck has twice as many, and each card occurs twice as often as in the sample; with no repeats in the base each deck card occurs exactly twice |
| Flashcards.MergeSelection | app2.py:218-227 | the merge loop yields a subsequence of the cards holding a shown card exactly when it is ticked, and any other card exactly when it was selected |
| Flashcards.InitialInvariant | app2.py:78-99 | the initial session state satisfies the invariant |
| Flashcards.Visible | app2.py:187-196 | the gallery shows every card in the All view and at most three of the cards in the three-per-page view |
| Flashcards.Ticked | app2.py:203-213 | `new_selection` is a subsequence of the shown cards holding exactly the shown cards whose checkbox is ticked |
| Flashcards.GameBase | app2.py:262 | the memory game's base is drawn from the cards and is empty only when there are no cards |
| Flashcards.MaxPairs | app2.py:182-183 | the Pairs input offers 1 to 12 pairs, at most one per selected card, and only 1 when nothing is selected |
| Flashcards.PairsAvailable | app2.py:182-183 | the base always has at least as many cards as the pairs the input allows |
| Flashcards.Opened | app2.py:138-143 | committing found cards keeps the invariant and opens the gallery with all of them selected |
| Flashcards.Cleared | app2.py:149-152 | Clear keeps the invariant and empties the cards and the selection |
| Flashcards.Reshuffled | app2.py:167-174 | Shuffle keeps the invariant, permutes the cards, keeps exactly the same cards selected, lists the selection in the new order, and resets page and cursor |
| Flashcards.Checked | app2.py:199-227 | reading the checkboxes keeps the invariant and the cards; when cards are shown, a card ends up selected exactly when it is shown and ticked, or not shown and was selected; with nothing shown nothing changes |
| Flashcards.Presenting | app2.py:247-256 | starting the presentation, on the same or on shuffled cards, keeps the invariant and the selection |
| Flashcards.NewGame | app2.py:270-274 | a new game keeps the invariant on any deck of even length and is not yet won |
| Flashcards.Flipped | app2.py:354-362 | a click on a card keeps the invariant and changes the game as `Memory.Flip` says |
| Flashcards.Session.constructor | app2.py:78-99 | the session starts in the initial state, which satisfies the invariant |
| Flashcards.Session.Search | app2.py:117-146 | empty input does nothing; no found card leaves the state unchanged; otherwise the found cards are committed |
| Flashcards.Session.Clear | app2.py:149-153 | the state becomes the cleared state |
| Flashcards.Session.SelectView | app2.py:165 | only the view mode changes |
| Flashcards.Session.ShuffleGallery | app2.py:167-175 | the cards are permuted and the state becomes the reshuffled state |
| Flashcards.Session.GoHome | app2.py:177-179 | only the mode changes, to home |
| Flashcards.Session.ReadCheckboxes | app2.py:199-227 | the merge loop leaves the state the checkbox transition describes |
| Flashcards.Session.PrevPage | app2.py:235-237 | only the page changes, to the previous page cyclically |
| Flashcards.Session.NextPage | app2.py:239-241 | only the page changes, to the next page cyclically |
| Flashcards.Session.StartPresentation | app2.py:247-250 | the presentation starts on the unchanged cards from the first |
| Flashcards.Session.ShuffleAndStart | app2.py:252-256 | the cards are permuted and the presentation starts from the first |
| Flashcards.Session.SetPresentTriplet | app2.py:258 | only the three-up flag changes |
| Flashcards.Session.StartMemoryGame | app2.py:260-275 | with no cards nothing changes; otherwise a new game starts on a deck of exactly `2 * pairs` cards, each occurring an even number of times and at most twice as often as in the base |
| Flashcards.Session.Shown | app2.py:304-319 | the presentation shows the cursor's card, or three of the cards in the three-up view |
| Flashcards.Session.PrevCard | app2.py:324-327 | only the cursor changes, back by the step, wrapping |
| Flashcards.Session.NextCard | app2.py:333-336 | only the cursor changes, forward by the step, wrapping |
| Flashcards.Session.ExitToGallery | app2.py:329-331 | only the mode changes, to the gallery |
| Flashcards.Session.Flip | app2.py:349-363 | the append/extend steps leave the game `Memory.Flip` describes |
| Flashcards.Session.Won | app2.py:366-371 | the win message shows exactly when the deck is not empty and every position is matched |
| Flashcards.Session.Reshuffle | app2.py:377-382 | the deck is permuted and a new game starts on it |

## Left out

- Google Drive access: credentials, the client, pagination (app2.py:11-34) and the five-minute cache of `list_drive_files` (app2.py:43-50). The file listing is a parameter `files` of the Search handler.
- All rendering is left out: titles, columns, images, the CSS block (app2.py:281-302), warnings and success messages, and `st.rerun`. The outcome of Search is returned as `NoInput`, `NoMatches` or `Found` in place of the warning.
- `to_thumb` URL formatting (app2.py:58-59). A card is `Thumb(fileId)`; two cards are equal exactly when their file ids are.
- Checkbox state is left out. The widget keeps it by the key `chk_{cards.index(url)}` (app2.py:209-211), which duplicate cards share. The model receives the set of ticked cards as input.
- The "Pairs" number input (app2.py:182-183) is library behaviour. The model receives `pairs` within the bounds the widget allows.
- Randomness: no uniformity or distribution is modelled. The random numbers reach `Randomness.Shuffle` and `Randomness.Sample` as a list of draws, reduced by `% bound` in place of CPython's rejection sampling.
- CPython's `random.sample` switches to a set-based algorithm for large populations. Only the pool algorithm is modelled. Both pick from distinct positions.
- Randomness.Sample: states only that the result is `k` entries from distinct positions of the population, not which entries.
- Unicode: `str.lower`, `str.strip` and `\d` are modelled on ASCII letters, ASCII whitespace and ASCII digits only.
- Flashcards.Session.Shown: the single view's `cards[current]` is unguarded in the source. The method requires `Valid()`, whose invariant keeps the cursor in range.
- In-place mutation and aliasing are left out. `random.shuffle(cards)`, `memory_flipped.append` and `memory_matched.extend` are modelled as building new lists that the handler stores. `st.session_state.cards` and the local `cards` in the gallery are the same list object, which the model does not represent.
- Flashcards.Session handlers write the new state back through `Store`, one assignment per key, rather than key by key as each handler runs. Only the final state of each handler is modelled, not the order of its assignments.
