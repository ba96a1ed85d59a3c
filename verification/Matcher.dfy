/** Resolving typed words to flashcard files (app2.py:39-71 and the Search
    handler's pipeline, app2.py:119-136): file names are normalised, indexed
    by normalised name, and each comma-separated word selects the names that
    contain it followed by a number. */
module Matcher {
  import opened Text
  import opened Seqs

  /** One image of the Drive folder as listed by the Drive API. */
  datatype DriveFile = DriveFile(id: string, name: string)

  /** One row of `list_drive_files`: the file id, its normalised name and its
      raw name. */
  datatype Entry = Entry(id: string, norm: string, raw: string)

  /** A Python dict with string keys: its entries and the insertion order of
      its keys, which `list(d.keys())` returns. */
  datatype Dict<V> = Dict(keys: seq<string>, values: map<string, V>)

  /** `normalize(name)`: drop the extension, strip whitespace, lowercase. */
  function Normalize(name: string): (norm: string)
    ensures |norm| <= |name|
    ensures forall k :: 0 <= k < |norm| ==> !IsUpperAscii(norm[k])
    ensures norm == [] || (!IsSpace(norm[0]) && !IsSpace(norm[|norm| - 1]))
  {
    Lower(Strip(DropExtension(name)))
  }

  /** The row list `list_drive_files` builds from the Drive listing. */
  function Entries(files: seq<DriveFile>): (entries: seq<Entry>)
    ensures |entries| == |files|
    ensures forall i :: 0 <= i < |files| ==> entries[i].id == files[i].id && entries[i].norm == Normalize(files[i].name)
  {
    seq(|files|, i requires 0 <= i < |files| => Entry(files[i].id, Normalize(files[i].name), files[i].name))
  }

  function Norms(entries: seq<Entry>): seq<string>
  {
    seq(|entries|, i requires 0 <= i < |entries| => entries[i].norm)
  }

  /** `d[k] = v`: a new key goes to the end of the key order, an existing key
      keeps its place and takes the new value. */
  function Put<V>(d: Dict<V>, k: string, v: V): Dict<V>
  {
    if k in d.values then d.(values := d.values[k := v]) else Dict(d.keys + [k], d.values[k := v])
  }

  function KeysOf<V>(pairs: seq<(string, V)>): seq<string>
  {
    seq(|pairs|, i requires 0 <= i < |pairs| => pairs[i].0)
  }

  /** `{k: v for (k, v) in pairs}`: keys in order of first occurrence, each
      key present exactly when it is listed. */
  function DictOf<V>(pairs: seq<(string, V)>): (d: Dict<V>)
    ensures d.keys == Dedup(KeysOf(pairs))
    ensures forall k :: k in d.values <==> k in d.keys
  {
    if pairs == [] then Dict([], map[])
    else
      var init, last := pairs[..|pairs| - 1], pairs[|pairs| - 1];
      assert KeysOf(pairs) == KeysOf(init) + [last.0];
      Put(DictOf(init), last.0, last.1)
  }

  /** In a dict comprehension the last pair with a given key wins. */
  lemma {:induction false} DictOfLastWins<V>(pairs: seq<(string, V)>, i: nat)
    requires i < |pairs|
    requires forall j :: i < j < |pairs| ==> pairs[j].0 != pairs[i].0
    ensures pairs[i].0 in DictOf(pairs).values && DictOf(pairs).values[pairs[i].0] == pairs[i].1
  {
    if i < |pairs| - 1 {
      DictOfLastWins(pairs[..|pairs| - 1], i);
    }
  }

  /** Every value of a dict comprehension comes from a pair with its key:
      the last such pair. */
  function SourceIndex<V>(pairs: seq<(string, V)>, k: string): (i: nat)
    requires k in DictOf(pairs).values
    ensures i < |pairs| && pairs[i].0 == k && pairs[i].1 == DictOf(pairs).values[k]
  {
    var init, last := pairs[..|pairs| - 1], pairs[|pairs| - 1];
    assert DictOf(pairs).values == DictOf(init).values[last.0 := last.1];
    if last.0 == k then |pairs| - 1
    else
      var i := SourceIndex(init, k);
      assert pairs[i] == init[i];
      i
  }

  /** A dict built from pairs with pairwise different values maps different
      keys to different values. */
  lemma DistinctValuesPerKey<V>(pairs: seq<(string, V)>, a: string, b: string)
    requires forall i, j :: 0 <= i < j < |pairs| ==> pairs[i].1 != pairs[j].1
    requires a in DictOf(pairs).values && b in DictOf(pairs).values && a != b
    ensures DictOf(pairs).values[a] != DictOf(pairs).values[b]
  {
    var i, j := SourceIndex(pairs, a), SourceIndex(pairs, b);
    assert i != j;
  }

  /** `build_maps(files)`: the id and the raw name of each normalised name.
      Both dicts list every normalised name once, in order of first
      occurrence. */
  function BuildMaps(entries: seq<Entry>): (maps: (Dict<string>, Dict<string>))
    ensures maps.0.keys == maps.1.keys == Dedup(Norms(entries))
    ensures forall n :: n in maps.0.values <==> n in Norms(entries)
    ensures forall n :: n in maps.1.values <==> n in Norms(entries)
  {
    assert KeysOf(IdPairs(entries)) == Norms(entries) && KeysOf(RawPairs(entries)) == Norms(entries);
    (DictOf(IdPairs(entries)), DictOf(RawPairs(entries)))
  }

  function IdPairs(entries: seq<Entry>): seq<(string, string)>
  {
    seq(|entries|, i requires 0 <= i < |entries| => (entries[i].norm, entries[i].id))
  }

  function RawPairs(entries: seq<Entry>): seq<(string, string)>
  {
    seq(|entries|, i requires 0 <= i < |entries| => (entries[i].norm, entries[i].raw))
  }

  /** The listing entry `id_by_norm` took the id of the name `n` from. */
  function IdSource(entries: seq<Entry>, n: string): (i: nat)
    requires n in BuildMaps(entries).0.values
    ensures i < |entries| && entries[i].norm == n && entries[i].id == BuildMaps(entries).0.values[n]
  {
    SourceIndex(IdPairs(entries), n)
  }

  predicate DistinctIds(entries: seq<Entry>)
  {
    forall i, j :: 0 <= i < j < |entries| ==> entries[i].id != entries[j].id
  }

  /** When Drive file ids are unique, `id_by_norm` maps different names to
      different ids, so the cards built from different names differ. */
  lemma DistinctIdsPerName(entries: seq<Entry>, a: string, b: string)
    requires DistinctIds(entries)
    requires a in BuildMaps(entries).0.values && b in BuildMaps(entries).0.values && a != b
    ensures BuildMaps(entries).0.values[a] != BuildMaps(entries).0.values[b]
  {
    var ids := IdPairs(entries);
    assert forall i, j :: 0 <= i < j < |ids| ==> ids[i].1 != ids[j].1 by {
      forall i, j | 0 <= i < j < |ids| ensures ids[i].1 != ids[j].1 {
        assert ids[i].1 == entries[i].id && ids[j].1 == entries[j].id;
      }
    }
    DistinctValuesPerKey(ids, a, b);
  }

  // ----- The word+number rule: (?<![a-z]) word \d+ (?![a-z]) -----

  /** `(?<![a-z])` at position `i`. */
  predicate NoLetterBefore(n: string, i: nat)
    requires i <= |n|
  {
    i == 0 || !IsLowerAscii(n[i - 1])
  }

  /** `(?![a-z])` at position `e`. */
  predicate NoLetterAt(n: string, e: nat)
  {
    e < |n| ==> !IsLowerAscii(n[e])
  }

  /** `\d+(?![a-z])` right after the word `t` placed at position `i`, with
      `\d+` taking exactly `d` characters. */
  predicate DigitRunAfter(n: string, t: string, i: nat, d: nat)
  {
    var p := i + |t|;
    1 <= d && p + d <= |n| && (forall q :: p <= q < p + d ==> IsDigit(n[q])) && NoLetterAt(n, p + d)
  }

  /** The pattern matches `n` starting at position `i` for some length of the
      digit run: the backtracking semantics of `\d+`. */
  ghost predicate RegexMatchAt(n: string, t: string, i: nat)
  {
    && i + |t| <= |n|
    && NoLetterBefore(n, i)
    && n[i..i + |t|] == t
    && exists d: nat :: DigitRunAfter(n, t, i, d)
  }

  /** `pattern.search(n)` succeeds. */
  ghost predicate RegexSearch(n: string, t: string)
  {
    exists i: nat :: RegexMatchAt(n, t, i)
  }

  /** The rule the regex amounts to: the word, one digit, then the end of the
      name or a character other than `a`-`z`. */
  predicate WordNumberAt(n: string, t: string, i: nat)
  {
    && i + |t| < |n|
    && NoLetterBefore(n, i)
    && n[i..i + |t|] == t
    && IsDigit(n[i + |t|])
    && NoLetterAt(n, i + |t| + 1)
  }

  /** Because `\d+` backtracks, a match with a longer digit run can always be
      shortened to one digit: the next character is a digit, hence no letter. */
  lemma RegexMatchAtIsWordNumber(n: string, t: string, i: nat)
    ensures RegexMatchAt(n, t, i) <==> WordNumberAt(n, t, i)
  {
    if RegexMatchAt(n, t, i) {
      var d: nat :| DigitRunAfter(n, t, i, d);
      if d > 1 {
        assert IsDigit(n[i + |t| + 1]);
      }
    }
    if WordNumberAt(n, t, i) {
      assert DigitRunAfter(n, t, i, 1);
    }
  }

  lemma RegexSearchIsWordNumberRule(n: string, t: string)
    ensures RegexSearch(n, t) <==> exists i: nat :: WordNumberAt(n, t, i)
  {
    if RegexSearch(n, t) {
      var i: nat :| RegexMatchAt(n, t, i);
      RegexMatchAtIsWordNumber(n, t, i);
    }
    if exists i: nat :: WordNumberAt(n, t, i) {
      var i: nat :| WordNumberAt(n, t, i);
      RegexMatchAtIsWordNumber(n, t, i);
    }
  }

  /** Tries the start positions `i`, `i + 1`, ... in turn. */
  function SearchFrom(n: string, t: string, i: nat): (found: bool)
    requires i <= |n|
    ensures found <==> exists k: nat :: i <= k && WordNumberAt(n, t, k)
    decreases |n| - i
  {
    if WordNumberAt(n, t, i) then true
    else if i == |n| then false
    else SearchFrom(n, t, i + 1)
  }

  /** `pattern.search(n)` for the compiled word+number pattern of `t`. */
  function Search(n: string, t: string): (found: bool)
    ensures found <==> RegexSearch(n, t)
  {
    RegexSearchIsWordNumberRule(n, t);
    SearchFrom(n, t, 0)
  }

  /** Examples from the docstring of `find_word_number_matches`
      (app2.py:62-66), as the pattern decides them. */
  lemma AcceptedExample()
    ensures Search("my_land12", "land")
  {
    assert WordNumberAt("my_land12", "land", 3);
  }

  /** `land12a` is listed as rejected, but the pattern finds it: `land`, the
      digit `1`, then `2`, which is not a letter. */
  lemma Land12aAccepted()
    ensures Search("land12a", "land")
  {
    assert WordNumberAt("land12a", "land", 0);
  }

  lemma IslandRejected()
    ensures !Search("island2", "land")
  {
    var n := "island2";
    forall k: nat ensures !WordNumberAt(n, "land", k) {
      if k + 4 < |n| && n[k..k + 4] == "land" {
        assert n[k..k + 4][0] == n[k];
        assert n[k] == 'l';
      }
    }
  }

  lemma DashRejected()
    ensures !Search("land-12", "land")
  {
    var n := "land-12";
    forall k: nat ensures !WordNumberAt(n, "land", k) {
      if k + 4 < |n| && n[k..k + 4] == "land" {
        assert n[k..k + 4][0] == n[k];
        assert n[k] == 'l';
      }
    }
  }

  /** A letter after the number stops the match: `land1a` is rejected. */
  lemma Land1aRejected()
    ensures !Search("land1a", "land")
  {
    var n := "land1a";
    forall k: nat ensures !WordNumberAt(n, "land", k) {
      if k + 4 < |n| && n[k..k + 4] == "land" {
        assert n[k..k + 4][0] == n[k];
        assert n[k] == 'l';
      }
    }
  }

  lemma Landlord3Rejected()
    ensures !Search("landlord3", "land")
  {
    var n := "landlord3";
    forall k: nat ensures !WordNumberAt(n, "land", k) {
      if k + 4 < |n| && n[k..k + 4] == "land" {
        assert n[k..k + 4][0] == n[k];
        assert n[k] == 'l';
      }
    }
  }

  lemma AppleV2Rejected()
    ensures !Search("apple_v2", "apple")
  {
    var n := "apple_v2";
    forall k: nat ensures !WordNumberAt(n, "apple", k) {
      if k + 5 < |n| && n[k..k + 5] == "apple" {
        assert n[k..k + 5][0] == n[k];
        assert n[k] == 'a';
      }
    }
  }

  lemma Cat007Accepted()
    ensures Search("cat007", "cat")
  {
    assert WordNumberAt("cat007", "cat", 0);
  }

  lemma Land1Accepted()
    ensures Search("land1", "land")
  {
    assert WordNumberAt("land1", "land", 0);
  }

  lemma GreenApple2Accepted()
    ensures Search("green_apple2", "apple")
  {
    assert WordNumberAt("green_apple2", "apple", 6);
  }

  /** A normalised name is selected by a typed token. */
  ghost predicate MatchedBy(n: string, token: string)
  {
    !IsBlank(token) && RegexSearch(n, Lower(Strip(token)))
  }

  /** `find_word_number_matches(token, norms)`: nothing for a blank token,
      otherwise the names the pattern finds, in `norms` order and as often as
      they occur there. */
  function FindWordNumberMatches(token: string, norms: seq<string>): (r: seq<string>)
    ensures IsBlank(token) ==> r == []
    ensures IsSubsequence(r, norms)
    ensures forall n :: n in r <==> n in norms && MatchedBy(n, token)
    ensures forall n :: multiset(r)[n] == if MatchedBy(n, token) then multiset(norms)[n] else 0
  {
    var t := Lower(Strip(token));
    if t == [] then [] else Filter(norms, n => Search(n, t))
  }

  // ----- The Search handler's pipeline -----

  /** A token as the Search handler passes it on: non-blank and unchanged by
      `strip().lower()`. */
  predicate IsNormalToken(t: string)
  {
    !IsBlank(t) && Lower(Strip(t)) == t
  }

  /** For a token in normal form the matcher's own `strip().lower()` is a
      no-op, so the token selects exactly the names its pattern finds. */
  lemma NormalTokenMatchedBy(n: string, t: string)
    requires IsNormalToken(t)
    ensures MatchedBy(n, t) <==> RegexSearch(n, t)
  {
  }

  /** A non-blank piece gives a non-blank token in normal form. */
  lemma TokenOfPiece(w: string)
    requires !IsBlank(w)
    ensures IsNormalToken(Lower(Strip(w)))
  {
    NormalFormStable(w);
    assert !IsSpace(Lower(Strip(w))[0]);
  }

  /** `[w.strip().lower() for w in pieces if w.strip()]`: every token is
      non-blank, already in the `strip().lower()` normal form, and the normal
      form of some non-blank piece. */
  function TokensOf(pieces: seq<string>): (tokens: seq<string>)
    ensures |tokens| <= |pieces|
    ensures forall k :: 0 <= k < |tokens| ==> IsNormalToken(tokens[k])
    ensures forall k :: 0 <= k < |tokens| ==>
      exists j :: 0 <= j < |pieces| && !IsBlank(pieces[j]) && tokens[k] == Lower(Strip(pieces[j]))
  {
    if pieces == [] then []
    else
      var init, w := pieces[..|pieces| - 1], pieces[|pieces| - 1];
      assert forall j :: 0 <= j < |init| ==> init[j] == pieces[j];
      if IsBlank(w) then TokensOf(init)
      else
        TokenOfPiece(w);
        TokensOf(init) + [Lower(Strip(w))]
  }

  /** The normal form `w.strip().lower()` of each piece, in order. */
  function NormalForms(pieces: seq<string>): (r: seq<string>)
    ensures |r| == |pieces|
  {
    if pieces == [] then []
    else NormalForms(pieces[..|pieces| - 1]) + [Lower(Strip(pieces[|pieces| - 1]))]
  }

  /** The tokens are exactly the normal forms of the non-blank pieces, in the
      order the pieces were typed and as often as they were typed. */
  lemma {:induction false} TokensAreNormalFormsOfNonBlank(pieces: seq<string>)
    ensures TokensOf(pieces) == NormalForms(Filter(pieces, w => !IsBlank(w)))
  {
    if pieces != [] {
      var init, w := pieces[..|pieces| - 1], pieces[|pieces| - 1];
      TokensAreNormalFormsOfNonBlank(init);
      var f := Filter(pieces, w => !IsBlank(w));
      if !IsBlank(w) {
        assert f == Filter(init, w => !IsBlank(w)) + [w];
        assert f[..|f| - 1] == Filter(init, w => !IsBlank(w));
      }
    }
  }

  /** No non-blank piece is dropped: its normal form is among the tokens. */
  lemma {:induction false} TokensCoverPieces(pieces: seq<string>, k: nat)
    requires k < |pieces| && !IsBlank(pieces[k])
    ensures Lower(Strip(pieces[k])) in TokensOf(pieces)
  {
    var init := pieces[..|pieces| - 1];
    if k < |init| {
      assert pieces[k] == init[k];
      TokensCoverPieces(init, k);
    }
  }

  /** A character that is not a letter and occurs in no piece occurs in no
      token. */
  lemma TokensKeepOut(pieces: seq<string>, c: char)
    requires !IsUpperAscii(c) && !IsLowerAscii(c)
    requires forall j :: 0 <= j < |pieces| ==> c !in pieces[j]
    ensures forall k :: 0 <= k < |TokensOf(pieces)| ==> c !in TokensOf(pieces)[k]
  {
    var tokens := TokensOf(pieces);
    forall k | 0 <= k < |tokens|
      ensures c !in tokens[k]
    {
      var j :| 0 <= j < |pieces| && !IsBlank(pieces[j]) && tokens[k] == Lower(Strip(pieces[j]));
      NormalFormKeepsOut(pieces[j], c);
    }
  }

  /** The tokens of the text typed into the word box: at most one per
      comma-separated piece, each non-blank, in normal form and free of
      commas. */
  function Tokens(words: string): (tokens: seq<string>)
    ensures |tokens| <= |Split(words, ',')|
    ensures forall k :: 0 <= k < |tokens| ==> IsNormalToken(tokens[k]) && ',' !in tokens[k]
  {
    TokensKeepOut(Split(words, ','), ',');
    TokensOf(Split(words, ','))
  }

  /** Some token of `tokens` selects the name `n`. */
  ghost predicate SelectedBySome(n: string, tokens: seq<string>)
  {
    tokens != [] && (SelectedBySome(n, tokens[..|tokens| - 1]) || MatchedBy(n, tokens[|tokens| - 1]))
  }

  /** `matched_norms`: the matches of each token, concatenated in token order;
      a name is in it exactly when some token selects it. */
  function MatchedNorms(tokens: seq<string>, norms: seq<string>): (matched: seq<string>)
    ensures forall n :: n in matched <==> n in norms && SelectedBySome(n, tokens)
  {
    if tokens == [] then []
    else
      var init := tokens[..|tokens| - 1];
      var m := MatchedNorms(init, norms) + FindWordNumberMatches(tokens[|tokens| - 1], norms);
      assert forall n :: n in m <==> n in norms && SelectedBySome(n, tokens) by {
        forall n ensures n in m <==> n in norms && SelectedBySome(n, tokens) {
        }
      }
      m
  }

  /** `ordered_norms`: the matched names without repeats. */
  function Resolved(words: string, norms: seq<string>): (ordered: seq<string>)
    ensures forall n :: n in ordered ==> n in norms
  {
    Dedup(MatchedNorms(Tokens(words), norms))
  }

  /** What the Search handler resolves: each name at most once, exactly the
      names some token finds, in order of first occurrence among the
      per-token matches (token order first, then `norms` order). */
  lemma ResolvedMeaning(words: string, norms: seq<string>)
    ensures NoDups(Resolved(words, norms))
    ensures forall n :: n in Resolved(words, norms) <==>
      n in norms && exists t :: t in Tokens(words) && RegexSearch(n, t)
    ensures forall i, j :: 0 <= i < j < |Resolved(words, norms)| ==>
      FirstIndex(MatchedNorms(Tokens(words), norms), Resolved(words, norms)[i]) <
      FirstIndex(MatchedNorms(Tokens(words), norms), Resolved(words, norms)[j])
  {
    var tokens := Tokens(words);
    DedupFirstOccurrenceOrder(MatchedNorms(tokens, norms));
    forall n ensures n in Resolved(words, norms) <==> n in norms && exists t :: t in tokens && RegexSearch(n, t) {
      SelectedByNormalTokens(n, tokens);
    }
  }

  /** For tokens already in normal form, "some token selects `n`" is "the
      pattern of some token finds `n`". */
  lemma {:induction false} SelectedByNormalTokens(n: string, tokens: seq<string>)
    requires forall k :: 0 <= k < |tokens| ==> IsNormalToken(tokens[k])
    ensures SelectedBySome(n, tokens) <==> exists t :: t in tokens && RegexSearch(n, t)
  {
    if tokens != [] {
      var init, last := tokens[..|tokens| - 1], tokens[|tokens| - 1];
      assert forall k :: 0 <= k < |init| ==> init[k] == tokens[k];
      SelectedByNormalTokens(n, init);
      NormalTokenMatchedBy(n, last);
      SomeTokenFindsSnoc(n, tokens);
    }
  }

  lemma SomeTokenFindsSnoc(n: string, tokens: seq<string>)
    requires tokens != []
    ensures (exists t :: t in tokens && RegexSearch(n, t)) <==>
      (exists t :: t in tokens[..|tokens| - 1] && RegexSearch(n, t)) || RegexSearch(n, tokens[|tokens| - 1])
  {
    var init := tokens[..|tokens| - 1];
    assert tokens == init + [tokens[|tokens| - 1]];
  }

  /** The `for t in tokens: matched_norms.extend(...)` loop. */
  method CollectMatches(tokens: seq<string>, norms: seq<string>) returns (matched: seq<string>)
    ensures matched == MatchedNorms(tokens, norms)
  {
    matched := [];
    var i := 0;
    while i < |tokens|
      invariant 0 <= i <= |tokens|
      invariant matched == MatchedNorms(tokens[..i], norms)
    {
      assert tokens[..i + 1][..i] == tokens[..i];
      matched := matched + FindWordNumberMatches(tokens[i], norms);
      i := i + 1;
    }
    assert tokens[..|tokens|] == tokens;
  }

  /** The `seen` / `ordered_norms` loop: keep the first occurrence of each name. */
  method OrderedUnique(matched: seq<string>) returns (ordered: seq<string>)
    ensures ordered == Dedup(matched)
  {
    var seen: set<string> := {};
    ordered := [];
    var i := 0;
    while i < |matched|
      invariant 0 <= i <= |matched|
      invariant ordered == Dedup(matched[..i])
      invariant forall n :: n in seen <==> n in matched[..i]
    {
      var n := matched[i];
      assert matched[..i + 1][..i] == matched[..i];
      assert n in Dedup(matched[..i]) <==> n in seen;
      if n !in seen {
        seen := seen + {n};
        ordered := ordered + [n];
      }
      i := i + 1;
    }
    assert matched[..|matched|] == matched;
  }

  /** Lines 123-134 of the Search handler: tokenise, collect, de-duplicate. */
  method ResolveWords(words: string, norms: seq<string>) returns (ordered: seq<string>)
    ensures ordered == Resolved(words, norms)
    ensures NoDups(ordered)
    ensures forall n :: n in ordered <==> n in norms && exists t :: t in Tokens(words) && RegexSearch(n, t)
  {
    var tokens := Tokens(words);
    var matched := CollectMatches(tokens, norms);
    ordered := OrderedUnique(matched);
    ResolvedMeaning(words, norms);
  }
}
