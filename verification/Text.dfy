/** The string operations that the modelled TypeScript uses: searching, splitting, trimming, joining. */
module Text {
  datatype Option<+T> = None | Some(value: T)

  /** `pat` occurs in `s` starting at position `k`. */
  predicate OccursAt(s: string, pat: string, k: nat) {
    k + |pat| <= |s| && s[k..k + |pat|] == pat
  }

  /** `i` is the leftmost position of `pat` in `s`. */
  predicate IsFirst(s: string, pat: string, i: nat) {
    OccursAt(s, pat, i) && forall k: nat | k < i :: !OccursAt(s, pat, k)
  }

  /** The leftmost position of `pat`, or -1, as `String.prototype.indexOf` computes it. */
  function IndexOf(s: string, pat: string): (i: int)
    ensures i == -1 || 0 <= i <= i + |pat| <= |s|
  {
    IndexFrom(s, pat, 0)
  }

  function IndexFrom(s: string, pat: string, from: nat): (i: int)
    requires from <= |s|
    ensures i == -1 || from <= i <= i + |pat| <= |s|
    decreases |s| - from
  {
    if OccursAt(s, pat, from) then from
    else if from == |s| then -1
    else IndexFrom(s, pat, from + 1)
  }

  lemma {:induction false} IndexFromFinds(s: string, pat: string, from: nat)
    requires from <= |s|
    requires forall k: nat | k < from :: !OccursAt(s, pat, k)
    ensures IndexFrom(s, pat, from) >= 0 ==> IsFirst(s, pat, IndexFrom(s, pat, from))
    ensures IndexFrom(s, pat, from) == -1 ==> forall k: nat :: !OccursAt(s, pat, k)
    decreases |s| - from
  {
    if !OccursAt(s, pat, from) && from < |s| {
      IndexFromFinds(s, pat, from + 1);
    }
  }

  /** `IndexOf` finds the leftmost occurrence exactly when there is one. */
  lemma IndexOfFinds(s: string, pat: string)
    ensures IndexOf(s, pat) >= 0 ==> IsFirst(s, pat, IndexOf(s, pat))
    ensures IndexOf(s, pat) == -1 ==> forall k: nat :: !OccursAt(s, pat, k)
  {
    IndexFromFinds(s, pat, 0);
  }

  lemma FirstIsIndex(s: string, pat: string, i: nat)
    requires IsFirst(s, pat, i)
    ensures IndexOf(s, pat) == i
  {
    IndexOfFinds(s, pat);
    assert OccursAt(s, pat, i);
  }

  lemma OccursInPrefix(a: string, b: string, pat: string, k: nat)
    requires k + |pat| <= |a|
    ensures OccursAt(a + b, pat, k) <==> OccursAt(a, pat, k)
  {
    assert (a + b)[k..k + |pat|] == a[k..k + |pat|];
  }

  /** A match found in a prefix is the match found in the whole. */
  lemma FirstSurvivesAppend(a: string, b: string, pat: string)
    requires IndexOf(a, pat) >= 0
    ensures IndexOf(a + b, pat) == IndexOf(a, pat)
  {
    IndexOfFinds(a, pat);
    var i := IndexOf(a, pat);
    forall k: nat | k <= i
      ensures OccursAt(a + b, pat, k) <==> OccursAt(a, pat, k)
    {
      OccursInPrefix(a, b, pat, k);
    }
    FirstIsIndex(a + b, pat, i);
  }

  /** The parts of `s` between occurrences of `sep`, as `String.prototype.split` gives them. */
  function Split(s: string, sep: char): (parts: seq<string>)
    ensures |parts| > 0
    ensures forall p | p in parts :: sep !in p
  {
    if s == "" then [""]
    else
      var rest := Split(s[1..], sep);
      if s[0] == sep then [""] + rest else [[s[0]] + rest[0]] + rest[1..]
  }

  function Join(parts: seq<string>, sep: string): string {
    if parts == [] then ""
    else if |parts| == 1 then parts[0]
    else parts[0] + sep + Join(parts[1..], sep)
  }

  lemma {:induction false} SplitNone(s: string, sep: char)
    requires sep !in s
    ensures Split(s, sep) == [s]
  {
    if s != "" {
      SplitNone(s[1..], sep);
      assert [s[0]] + s[1..] == s;
    }
  }

  lemma {:induction false} SplitAtSep(a: string, b: string, sep: char)
    requires sep !in a
    ensures Split(a + [sep] + b, sep) == [a] + Split(b, sep)
  {
    var s := a + [sep] + b;
    if a == "" {
      assert s[1..] == b;
    } else {
      assert s[1..] == a[1..] + [sep] + b;
      SplitAtSep(a[1..], b, sep);
      assert [a[0]] + a[1..] == a;
    }
  }

  lemma {:induction false} SplitAppend(a: string, b: string, sep: char)
    ensures Split(a + [sep] + b, sep) == Split(a, sep) + Split(b, sep)
  {
    var s := a + [sep] + b;
    if a == "" {
      assert s[1..] == b;
    } else {
      assert s[1..] == a[1..] + [sep] + b;
      SplitAppend(a[1..], b, sep);
      var rest, more := Split(a[1..], sep), Split(b, sep);
      if a[0] == sep {
        AppendAssociates([""], rest, more);
      } else {
        assert (rest + more)[1..] == rest[1..] + more;
        AppendAssociates([[a[0]] + rest[0]], rest[1..], more);
      }
    }
  }

  lemma {:induction false} LastSep(s: string, sep: char) returns (k: nat)
    requires sep in s
    ensures k < |s| && s[k] == sep && sep !in s[k + 1..]
  {
    k := |s| - 1;
    if s[k] != sep {
      assert s == s[..k] + [s[k]];
      k := LastSep(s[..k], sep);
    }
  }

  /** The last part is what follows the last separator. */
  lemma LastComponent(s: string, sep: char)
    ensures var parts := Split(s, sep);
            var last := parts[|parts| - 1];
            && |last| <= |s| && last == s[|s| - |last|..] && (|last| < |s| ==> s[|s| - |last| - 1] == sep)
  {
    if sep in s {
      var k := LastSep(s, sep);
      var front, back := s[..k], s[k + 1..];
      assert s == front + [sep] + back;
      SplitAppend(front, back, sep);
      SplitNone(back, sep);
    } else {
      SplitNone(s, sep);
    }
  }

  lemma LastOfWord(front: string, word: string, sep: char)
    requires sep !in word
    ensures var parts := Split(front + [sep] + word, sep);
            parts[|parts| - 1] == word
  {
    SplitAppend(front, word, sep);
    SplitNone(word, sep);
  }

  lemma TailOfCut(s: string, n: nat, c: char, word: string)
    requires n < |s| && s[n..] == [c] + word
    ensures s == s[..n] + [c] + word
  {
  }

  lemma CutBefore(s: string, n: nat, c: char)
    requires n < |s| && s[n] == c
    ensures s == s[..n] + [c] + s[n + 1..] && s[n..] == [c] + s[n + 1..]
  {
  }

  /** A text ends in a word as a part of its own exactly when the word is its last part. */
  lemma EndsInWord(s: string, word: string, sep: char)
    requires sep !in word
    ensures var parts := Split(s, sep);
            (s == word || (|s| > |word| && s[|s| - |word| - 1..] == [sep] + word)) <==> parts[|parts| - 1] == word
  {
    LastComponent(s, sep);
    SplitNone(word, sep);
    if |s| > |word| {
      var n := |s| - |word| - 1;
      if s[n..] == [sep] + word {
        TailOfCut(s, n, sep, word);
        LastOfWord(s[..n], word, sep);
      } else if s[n] == sep {
        CutBefore(s, n, sep);
      }
    }
  }

  lemma {:induction false} JoinSplit(s: string, sep: char)
    ensures Join(Split(s, sep), [sep]) == s
  {
    if s != "" {
      JoinSplit(s[1..], sep);
      var rest := Split(s[1..], sep);
      if s[0] == sep {
        assert Split(s, sep)[1..] == rest;
      } else {
        assert Split(s, sep)[1..] == rest[1..];
      }
    }
  }

  lemma {:induction false} SplitJoin(parts: seq<string>, sep: char)
    requires parts != []
    requires forall p | p in parts :: sep !in p
    ensures Split(Join(parts, [sep]), sep) == parts
  {
    var first, rest := parts[0], parts[1..];
    assert first in parts && forall p | p in rest :: p in parts;
    if rest == [] {
      SplitNone(first, sep);
    } else {
      SplitJoin(rest, sep);
      SplitAtSep(first, Join(rest, [sep]), sep);
      assert [first] + rest == parts;
    }
  }

  /** The characters that ECMAScript's `trim` and `\s` treat as white space. */
  predicate IsSpace(c: char) {
    c == ' ' || '\t' <= c <= '\r' || c == '\U{a0}' || c == '\U{feff}' || c == '\U{1680}'
    || '\U{2000}' <= c <= '\U{200a}' || c == '\U{2028}' || c == '\U{2029}' || c == '\U{202f}'
    || c == '\U{205f}' || c == '\U{3000}'
  }

  /** The white space and line terminators of ECMAScript, by code point. */
  lemma SpacesByCodePoint(c: char)
    ensures var n := c as int;
            IsSpace(c) <==>
              || n in {0x9, 0xa, 0xb, 0xc, 0xd, 0x20, 0xa0, 0x1680, 0x2028, 0x2029, 0x202f, 0x205f, 0x3000, 0xfeff}
              || n in {0x2000, 0x2001, 0x2002, 0x2003, 0x2004, 0x2005, 0x2006, 0x2007, 0x2008, 0x2009, 0x200a}
  {
  }

  function TrimStart(s: string): string {
    if s != "" && IsSpace(s[0]) then TrimStart(s[1..]) else s
  }

  function TrimEnd(s: string): string {
    if s != "" && IsSpace(s[|s| - 1]) then TrimEnd(s[..|s| - 1]) else s
  }

  function Trim(s: string): string {
    TrimEnd(TrimStart(s))
  }

  /** Text with nothing for `trim` to remove. */
  predicate Trimmed(s: string) {
    s != "" ==> !IsSpace(s[0]) && !IsSpace(s[|s| - 1])
  }

  lemma TrimAfterSpace(s: string)
    requires Trimmed(s)
    ensures Trim(" " + s) == s
  {
    assert (" " + s)[1..] == s;
    assert TrimStart(" " + s) == TrimStart(s);
  }

  /** A number as `String` prints it. */
  function Decimal(n: nat): string {
    if n < 10 then ["0123456789"[n]] else Decimal(n / 10) + ["0123456789"[n % 10]]
  }

  lemma AppendAssociates<F>(a: seq<F>, b: seq<F>, c: seq<F>)
    ensures a + (b + c) == (a + b) + c
  {
  }

  lemma SnocTaken<T>(s: seq<T>, t: seq<T>, i: nat)
    requires i < |t|
    ensures s + t[..i] + [t[i]] == s + t[..i + 1]
  {
  }

  lemma PrefixAndRest<T>(a: seq<T>, b: seq<T>)
    requires a <= b
    ensures b == a + b[|a|..]
  {
  }

  lemma CutAt<T>(s: seq<T>, k: nat)
    requires k <= |s|
    ensures s == s[..k] + s[k..]
  {
  }

  function Concat(chunks: seq<string>): string {
    if chunks == [] then "" else Concat(chunks[..|chunks| - 1]) + chunks[|chunks| - 1]
  }
}
