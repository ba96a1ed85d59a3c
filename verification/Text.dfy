/** Character classes and the string operations the app uses on file names
    and typed words: `str.strip()`, `str.lower()`, `str.split(",")` and
    `str.rsplit(".", 1)`, restricted to ASCII letters, digits and whitespace. */
module Text {

  /** `[a-z]` in the matcher's regular expression. */
  predicate IsLowerAscii(c: char) { 'a' <= c <= 'z' }

  predicate IsUpperAscii(c: char) { 'A' <= c <= 'Z' }

  /** `\d`, ASCII digits only. */
  predicate IsDigit(c: char) { '0' <= c <= '9' }

  /** The ASCII characters `str.strip()` removes: space, tab, line feed,
      vertical tab, form feed, carriage return and the four separators
      U+001C..U+001F. */
  predicate IsSpace(c: char) { c == ' ' || '\t' <= c <= '\r' || '\U{1C}' <= c <= '\U{1F}' }

  predicate IsBlank(s: string) { forall k :: 0 <= k < |s| ==> IsSpace(s[k]) }

  function LowerChar(c: char): (r: char)
    ensures !IsUpperAscii(r)
    ensures IsSpace(r) <==> IsSpace(c)
    ensures !IsUpperAscii(c) ==> r == c
    ensures IsUpperAscii(c) ==> r == "abcdefghijklmnopqrstuvwxyz"[c as int - 'A' as int]
  {
    if IsUpperAscii(c) then (c as int + 32) as char else c
  }

  /** `str.lower()` on ASCII letters: each upper-case letter becomes its
      own lower-case letter, and every other character stays where it was. */
  function Lower(s: string): (r: string)
    ensures |r| == |s|
    ensures forall k :: 0 <= k < |s| ==> !IsUpperAscii(r[k])
    ensures forall k :: 0 <= k < |s| && !IsUpperAscii(s[k]) ==> r[k] == s[k]
    ensures forall k :: 0 <= k < |s| && IsUpperAscii(s[k]) ==> IsLowerAscii(r[k])
    ensures forall k :: 0 <= k < |s| && IsUpperAscii(s[k]) ==>
      r[k] == "abcdefghijklmnopqrstuvwxyz"[s[k] as int - 'A' as int]
  {
    seq(|s|, k requires 0 <= k < |s| => LowerChar(s[k]))
  }

  lemma LowerIdempotent(s: string)
    ensures Lower(Lower(s)) == Lower(s)
  {
    assert forall k :: 0 <= k < |s| ==> Lower(Lower(s))[k] == Lower(s)[k];
  }

  /** Drops leading whitespace. */
  function TrimStart(s: string): (r: string)
    ensures |r| <= |s|
    ensures r == [] || !IsSpace(r[0])
    ensures r == [] <==> IsBlank(s)
  {
    if |s| > 0 && IsSpace(s[0]) then TrimStart(s[1..]) else s
  }

  /** Drops trailing whitespace. */
  function TrimEnd(s: string): (r: string)
    ensures |r| <= |s|
    ensures r == [] || (!IsSpace(r[|r| - 1]) && r[0] == s[0])
    ensures r == [] <==> IsBlank(s)
  {
    if |s| > 0 && IsSpace(s[|s| - 1]) then TrimEnd(s[..|s| - 1]) else s
  }

  /** `str.strip()`: the result neither starts nor ends with whitespace, and
      it is empty exactly when `s` is all whitespace. */
  function Strip(s: string): (r: string)
    ensures |r| <= |s|
    ensures r == [] || (!IsSpace(r[0]) && !IsSpace(r[|r| - 1]))
    ensures r == [] <==> IsBlank(s)
  {
    TrimEnd(TrimStart(s))
  }

  /** `TrimStart` cuts off a whitespace prefix and keeps the rest. */
  lemma {:induction false} TrimStartSuffix(s: string)
    ensures |TrimStart(s)| <= |s| && TrimStart(s) == s[|s| - |TrimStart(s)|..]
    ensures forall k :: 0 <= k < |s| - |TrimStart(s)| ==> IsSpace(s[k])
  {
    if |s| > 0 && IsSpace(s[0]) {
      TrimStartSuffix(s[1..]);
    }
  }

  /** `TrimEnd` cuts off a whitespace suffix and keeps the rest. */
  lemma {:induction false} TrimEndPrefix(s: string)
    ensures |TrimEnd(s)| <= |s| && TrimEnd(s) == s[..|TrimEnd(s)|]
    ensures forall k :: |TrimEnd(s)| <= k < |s| ==> IsSpace(s[k])
  {
    if |s| > 0 && IsSpace(s[|s| - 1]) {
      TrimEndPrefix(s[..|s| - 1]);
    }
  }

  /** A string with no whitespace at either end is left alone by `Strip`. */
  lemma StripTrimmed(s: string)
    requires s == [] || (!IsSpace(s[0]) && !IsSpace(s[|s| - 1]))
    ensures Strip(s) == s
  {
  }

  /** `strip().lower()` brings in no character that is not a letter: such
      a character occurs in the normal form only if it occurs in `w`. */
  lemma NormalFormKeepsOut(w: string, c: char)
    requires !IsUpperAscii(c) && !IsLowerAscii(c) && c !in w
    ensures c !in Lower(Strip(w))
  {
    TrimStartSuffix(w);
    TrimEndPrefix(TrimStart(w));
    assert Strip(w) == w[|w| - |TrimStart(w)|..][..|Strip(w)|];
    assert c !in Strip(w);
  }

  /** The typed-word normal form `w.strip().lower()` is a fixed point of
      `strip().lower()`, which `find_word_number_matches` applies again. */
  lemma {:induction false} NormalFormStable(w: string)
    ensures var t := Lower(Strip(w)); Lower(Strip(t)) == t
  {
    var t := Lower(Strip(w));
    assert t == [] || (!IsSpace(t[0]) && !IsSpace(t[|t| - 1]));
    StripTrimmed(t);
    LowerIdempotent(Strip(w));
  }

  /** `str.split(sep)`: the pieces between occurrences of `sep`; always at
      least one piece, the empty string giving `[""]`. */
  function Split(s: string, sep: char): (r: seq<string>)
    ensures |r| >= 1
    ensures forall k :: 0 <= k < |r| ==> sep !in r[k]
  {
    if s == [] then [[]]
    else
      var rest := Split(s[1..], sep);
      if s[0] == sep then [[]] + rest
      else [[s[0]] + rest[0]] + rest[1..]
  }

  /** `sep.join(parts)`, the inverse of `Split`. */
  function Join(parts: seq<string>, sep: char): string
  {
    if parts == [] then []
    else if |parts| == 1 then parts[0]
    else parts[0] + [sep] + Join(parts[1..], sep)
  }

  lemma {:induction false} JoinSplit(s: string, sep: char)
    ensures Join(Split(s, sep), sep) == s
  {
    if s != [] {
      var rest := Split(s[1..], sep);
      JoinSplit(s[1..], sep);
      if s[0] == sep {
        assert Split(s, sep) == [[]] + rest;
        assert Join(Split(s, sep), sep) == [] + [sep] + Join(rest, sep);
      } else {
        var r := Split(s, sep);
        assert r == [[s[0]] + rest[0]] + rest[1..];
        if |rest| == 1 {
          assert Join(r, sep) == [s[0]] + rest[0];
        } else {
          assert r[1..] == rest[1..];
          assert Join(r, sep) == [s[0]] + rest[0] + [sep] + Join(rest[1..], sep);
          assert Join(rest, sep) == rest[0] + [sep] + Join(rest[1..], sep);
        }
      }
    }
  }

  function CountOf(s: string, c: char): nat
  {
    if s == [] then 0 else (if s[0] == c then 1 else 0) + CountOf(s[1..], c)
  }

  /** `str.split` yields one more piece than there are separators. */
  lemma {:induction false} SplitLength(s: string, sep: char)
    ensures |Split(s, sep)| == CountOf(s, sep) + 1
  {
    if s != [] {
      SplitLength(s[1..], sep);
    }
  }

  /** `name.rsplit(".", 1)[0]`: everything before the last dot, or the whole
      name when it has no dot. */
  function DropExtension(name: string): (base: string)
    ensures |base| <= |name| && base == name[..|base|]
    ensures base == name ==> '.' !in name
    ensures base != name ==> name[|base|] == '.' && '.' !in name[|base| + 1..]
  {
    if name == [] then []
    else if name[|name| - 1] == '.' then name[..|name| - 1]
    else
      var b := DropExtension(name[..|name| - 1]);
      if b == name[..|name| - 1] then name
      else
        assert name[|b| + 1..] == name[..|name| - 1][|b| + 1..] + [name[|name| - 1]];
        b
  }
}
