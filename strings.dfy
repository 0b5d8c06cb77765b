/** The fragments of Python's `str` that the rule processor relies on:
    prefix and substring tests, `strip()`, `split()` with and without a
    separator, `join`, character counting and ASCII lower-casing. */
module Strings {

  /** `str.isspace()` restricted to ASCII: tab, line feed, vertical tab,
      form feed, carriage return, the four separators 0x1C-0x1F and space. */
  predicate IsSpace(c: char) {
    c == ' ' || c == '\t' || c == '\n' || c == '\r' || c == '\U{B}' || c == '\U{C}'
    || ('\U{1C}' <= c <= '\U{1F}')
  }

  predicate IsDigit(c: char) { '0' <= c <= '9' }

  predicate IsAlpha(c: char) { ('a' <= c <= 'z') || ('A' <= c <= 'Z') }

  predicate IsAlnum(c: char) { IsAlpha(c) || IsDigit(c) }

  /** `s.startswith(p)`. */
  predicate StartsWith(s: string, p: string) {
    |p| <= |s| && s[..|p|] == p
  }

  /** `t in s` for strings: `t` occurs as a contiguous block of `s`. */
  predicate HasSubstring(s: string, t: string)
    decreases |s|
  {
    StartsWith(s, t) || (|s| > 0 && HasSubstring(s[1..], t))
  }

  /** `t` occurs in `s` starting at index `i`. */
  predicate OccursAt(s: string, t: string, i: int) {
    0 <= i && i + |t| <= |s| && s[i..i + |t|] == t
  }

  lemma {:induction false} HasSubstringIff(s: string, t: string)
    ensures HasSubstring(s, t) <==> exists i :: OccursAt(s, t, i)
    decreases |s|
  {
    if StartsWith(s, t) {
      assert OccursAt(s, t, 0);
    } else if |s| > 0 {
      HasSubstringIff(s[1..], t);
      if exists i :: OccursAt(s[1..], t, i) {
        var i :| OccursAt(s[1..], t, i);
        assert s[i + 1..i + 1 + |t|] == s[1..][i..i + |t|];
        assert OccursAt(s, t, i + 1);
      }
      if exists i :: OccursAt(s, t, i) {
        var i :| OccursAt(s, t, i);
        if i > 0 {
          assert s[1..][i - 1..i - 1 + |t|] == s[i..i + |t|];
          assert OccursAt(s[1..], t, i - 1);
        }
      }
    }
  }

  /** `cc in s` holds exactly when two adjacent characters of `s` are `c`. */
  lemma HasDoubledChar(s: string, c: char)
    ensures HasSubstring(s, [c, c]) <==> exists k :: 0 <= k < |s| - 1 && s[k] == c && s[k + 1] == c
  {
    HasSubstringIff(s, [c, c]);
    if exists k :: 0 <= k < |s| - 1 && s[k] == c && s[k + 1] == c {
      var k :| 0 <= k < |s| - 1 && s[k] == c && s[k + 1] == c;
      DoubledAt(s, c, k);
    }
    if HasSubstring(s, [c, c]) {
      var i :| OccursAt(s, [c, c], i);
      DoubledAt(s, c, i);
    }
  }

  lemma DoubledAt(s: string, c: char, k: nat)
    requires k + 1 < |s|
    ensures OccursAt(s, [c, c], k) <==> s[k] == c && s[k + 1] == c
  {
    assert s[k..k + 2][0] == s[k] && s[k..k + 2][1] == s[k + 1];
  }

  /** `s.lstrip()`: drops the leading whitespace. */
  function StripLeft(s: string): (r: string)
    ensures |r| <= |s| && r == s[|s| - |r|..]
    ensures forall k :: 0 <= k < |s| - |r| ==> IsSpace(s[k])
    ensures |r| == 0 || !IsSpace(r[0])
  {
    if |s| > 0 && IsSpace(s[0]) then StripLeft(s[1..]) else s
  }

  /** `s.rstrip()`: drops the trailing whitespace. */
  function StripRight(s: string): (r: string)
    ensures |r| <= |s| && r == s[..|r|]
    ensures forall k :: |r| <= k < |s| ==> IsSpace(s[k])
    ensures |r| == 0 || !IsSpace(r[|r| - 1])
  {
    if |s| > 0 && IsSpace(s[|s| - 1]) then StripRight(s[..|s| - 1]) else s
  }

  /** `s.strip()`: the block of `s` left once whitespace is removed from both
      ends; it neither begins nor ends with whitespace. */
  function Strip(s: string): (r: string)
    ensures exists i, j :: 0 <= i <= j <= |s| && r == s[i..j]
                           && (forall k :: 0 <= k < i ==> IsSpace(s[k]))
                           && (forall k :: j <= k < |s| ==> IsSpace(s[k]))
    ensures |r| == 0 || (!IsSpace(r[0]) && !IsSpace(r[|r| - 1]))
  {
    var left := StripLeft(s);
    var r := StripRight(left);
    var i := |s| - |left|;
    assert r == s[i..i + |r|];
    r
  }

  /** Stripping only removes characters. */
  lemma StripKeepsChars(s: string)
    ensures forall c :: c in Strip(s) ==> c in s
  {
    var left := StripLeft(s);
    SliceKeepsElements(s, |s| - |left|, |s|);
    SliceKeepsElements(left, 0, |StripRight(left)|);
  }

  /** A slice holds only elements of the whole. */
  lemma SliceKeepsElements<T>(s: seq<T>, a: nat, b: nat)
    requires a <= b <= |s|
    ensures forall x :: x in s[a..b] ==> x in s
  {
    forall x | x in s[a..b] ensures x in s {
      var k :| 0 <= k < b - a && s[a..b][k] == x;
      assert s[a + k] == x;
    }
  }

  /** The longest prefix of `s` without whitespace. */
  function Word(s: string): (w: string)
    ensures |w| <= |s| && w == s[..|w|]
    ensures forall k :: 0 <= k < |w| ==> !IsSpace(w[k])
    ensures |w| < |s| ==> IsSpace(s[|w|])
  {
    if |s| == 0 || IsSpace(s[0]) then [] else [s[0]] + Word(s[1..])
  }

  /** `s.split()` without a separator: the maximal runs of non-whitespace
      characters, left to right. */
  function Tokens(s: string): (r: seq<string>)
    ensures forall k :: 0 <= k < |r| ==> |r[k]| > 0 && forall m :: 0 <= m < |r[k]| ==> !IsSpace(r[k][m])
    ensures forall k :: 0 <= k < |r| ==> |r[k]| + k <= |s|
    decreases |s|
  {
    if |s| == 0 then []
    else if IsSpace(s[0]) then Tokens(s[1..])
    else var w := Word(s); [w] + Tokens(s[|w|..])
  }

  /** `s.split(c)`: the pieces between the occurrences of `c`; there is always
      at least one piece. */
  function Split(s: string, c: char): (r: seq<string>)
    ensures |r| >= 1
    ensures forall k :: 0 <= k < |r| ==> c !in r[k]
    decreases |s|
  {
    if |s| == 0 then [[]]
    else
      var rest := Split(s[1..], c);
      if s[0] == c then [[]] + rest else [[s[0]] + rest[0]] + rest[1..]
  }

  /** `c.join(parts)`. */
  function Join(parts: seq<string>, c: char): string
    decreases |parts|
  {
    if |parts| == 0 then []
    else if |parts| == 1 then parts[0]
    else parts[0] + [c] + Join(parts[1..], c)
  }

  /** One step of `Split`: the first character either opens a new piece or
      joins the first piece of the rest. */
  lemma SplitStep(s: string, c: char)
    requires |s| > 0
    ensures s[0] == c ==> Split(s, c) == [[]] + Split(s[1..], c)
    ensures s[0] != c ==> Split(s, c) == [[s[0]] + Split(s[1..], c)[0]] + Split(s[1..], c)[1..]
  {
  }

  /** Dropping past a new head drops the same elements of the tail. */
  lemma DropCons<T>(x: T, r: seq<T>, i: nat)
    requires i <= |r|
    ensures ([x] + r)[i + 1..] == r[i..]
  {
  }

  /** Replacing the head leaves the elements after it. */
  lemma DropReplacedHead<T>(y: T, r: seq<T>, i: nat)
    requires 1 <= i <= |r|
    ensures ([y] + r[1..])[i..] == r[i..]
  {
  }

  /** Splitting on a separator and joining with it gives back the string. */
  lemma {:induction false} JoinSplit(s: string, c: char)
    ensures Join(Split(s, c), c) == s
    decreases |s|
  {
    if |s| > 0 {
      var rest := Split(s[1..], c);
      JoinSplit(s[1..], c);
      if s[0] == c {
        assert Split(s, c) == [[]] + rest;
        assert Join(Split(s, c), c) == [] + [c] + Join(rest, c);
        assert s == [c] + s[1..];
      } else {
        var parts := [[s[0]] + rest[0]] + rest[1..];
        assert Split(s, c) == parts;
        if |rest| == 1 {
          assert Join(parts, c) == [s[0]] + rest[0];
          assert s == [s[0]] + s[1..];
        } else {
          assert parts[1..] == rest[1..];
          assert Join(rest, c) == rest[0] + [c] + Join(rest[1..], c);
          assert Join(parts, c) == [s[0]] + rest[0] + [c] + Join(rest[1..], c);
          assert s == [s[0]] + s[1..];
        }
      }
    }
  }

  /** The first piece of `s.split(c)` is the text before the first `c`. */
  /** The first piece of `s.split(c)` is the text before the first `c`,
      or all of `s`. */
  lemma FirstPiece(s: string, c: char)
    ensures var h := Split(s, c)[0];
      |h| <= |s| && s[..|h|] == h && c !in h && (|h| < |s| ==> s[|h|] == c)
  {
    SplitHead(s, c);
  }

  lemma {:induction false} SplitHead(s: string, c: char)
    ensures StartsWith(s, Split(s, c)[0])
    ensures |Split(s, c)[0]| < |s| ==> s[|Split(s, c)[0]|] == c
    decreases |s|
  {
    if |s| > 0 {
      SplitHead(s[1..], c);
    }
  }

  /** Every character of `s` is the separator or a character of some piece. */
  lemma {:induction false} SplitCovers(s: string, c: char, ok: char -> bool)
    requires forall k, m :: 0 <= k < |Split(s, c)| && 0 <= m < |Split(s, c)[k]| ==> ok(Split(s, c)[k][m])
    ensures forall m :: 0 <= m < |s| ==> s[m] == c || ok(s[m])
    decreases |s|
  {
    if |s| > 0 {
      var rest := Split(s[1..], c);
      forall k, m | 0 <= k < |rest| && 0 <= m < |rest[k]| ensures ok(rest[k][m]) {
        if s[0] == c {
          assert rest[k] == Split(s, c)[k + 1];
        } else if k == 0 {
          assert rest[0][m] == Split(s, c)[0][m + 1];
        } else {
          assert rest[k] == Split(s, c)[k];
        }
      }
      if s[0] != c {
        assert Split(s, c)[0][0] == s[0];
      }
      SplitCovers(s[1..], c, ok);
      forall m | 0 <= m < |s| ensures s[m] == c || ok(s[m]) {
        if m > 0 {
          assert s[m] == s[1..][m - 1];
        }
      }
    }
  }

  /** The last piece of `s.split(c)` is the text after the last `c`. */
  lemma {:induction false} SplitTail(s: string, c: char)
    ensures var p := Split(s, c); var t := p[|p| - 1];
      |t| <= |s| && s[|s| - |t|..] == t && (|t| < |s| ==> s[|s| - |t| - 1] == c)
    decreases |s|
  {
    if |s| > 0 {
      var rest := Split(s[1..], c);
      SplitStep(s, c);
      SplitTail(s[1..], c);
      var t := rest[|rest| - 1];
      assert s[|s| - |t|..] == s[1..][|s[1..]| - |t|..];
      if |t| < |s| - 1 {
        assert s[|s| - |t| - 1] == s[1..][|s[1..]| - |t| - 1];
      }
      if s[0] != c && |rest| > 1 && |t| == |s| - 1 {
        assert t == s[1..];
        SplitWithoutSeparator(s[1..], c);
      }
      if s[0] != c && |rest| == 1 {
        JoinSplit(s[1..], c);
        assert rest[0] == s[1..];
        assert s == [s[0]] + s[1..];
      }
    }
  }

  /** A text without the separator splits into one piece. */
  lemma SplitWithoutSeparator(s: string, c: char)
    requires c !in s
    ensures |Split(s, c)| == 1
  {
    SplitLength(s, c);
    CountAbsent(s, [c]);
  }

  /** Two adjacent separators leave an empty piece that is not the first. */
  lemma {:induction false} SplitAdjacentSeparators(s: string, c: char, i: nat)
    requires i + 1 < |s| && s[i] == c && s[i + 1] == c
    ensures exists j :: 1 <= j < |Split(s, c)| && Split(s, c)[j] == []
    decreases |s|
  {
    var rest := Split(s[1..], c);
    SplitStep(s, c);
    if i == 0 {
      SplitStep(s[1..], c);
      assert rest[0] == [];
      assert Split(s, c)[1] == [];
    } else {
      SplitAdjacentSeparators(s[1..], c, i - 1);
      var j :| 1 <= j < |rest| && rest[j] == [];
      if s[0] == c {
        assert Split(s, c)[j + 1] == [];
      } else {
        assert Split(s, c)[j] == [];
      }
    }
  }

  /** Joining the pieces of `s.split(c)` from the `i`-th on (`i >= 1`) gives
      the text after some occurrence of `c`. */
  lemma {:induction false} JoinSplitSuffix(s: string, c: char, i: nat)
    requires 1 <= i < |Split(s, c)|
    ensures exists k :: 0 <= k < |s| && s[k] == c && Join(Split(s, c)[i..], c) == s[k + 1..]
    decreases |s|
  {
    var rest := Split(s[1..], c);
    SplitStep(s, c);
    if s[0] == c {
      DropCons([], rest, i - 1);
      assert Split(s, c)[i..] == rest[i - 1..];
      if i == 1 {
        JoinSplit(s[1..], c);
        assert rest[0..] == rest;
        assert s[0] == c && Join(Split(s, c)[i..], c) == s[0 + 1..];
      } else {
        JoinSplitSuffix(s[1..], c, i - 1);
        var k :| 0 <= k < |s[1..]| && s[1..][k] == c && Join(rest[i - 1..], c) == s[1..][k + 1..];
        assert s[k + 1] == c && Join(Split(s, c)[i..], c) == s[k + 1 + 1..];
      }
    } else {
      DropReplacedHead([s[0]] + rest[0], rest, i);
      assert Split(s, c)[i..] == rest[i..];
      JoinSplitSuffix(s[1..], c, i);
      var k :| 0 <= k < |s[1..]| && s[1..][k] == c && Join(rest[i..], c) == s[1..][k + 1..];
      assert s[k + 1] == c && Join(Split(s, c)[i..], c) == s[k + 1 + 1..];
    }
  }

  /** Conversely, the text after any occurrence of `c` is the join of the
      pieces of `s.split(c)` from some `i >= 1` on. */
  lemma {:induction false} SuffixJoinSplit(s: string, c: char, k: nat)
    requires k < |s| && s[k] == c
    ensures exists i :: 1 <= i < |Split(s, c)| && Join(Split(s, c)[i..], c) == s[k + 1..]
    decreases |s|
  {
    var rest := Split(s[1..], c);
    SplitStep(s, c);
    if k == 0 {
      JoinSplit(s[1..], c);
      DropCons([], rest, 0);
      assert Split(s, c)[1..] == rest;
    } else {
      SuffixJoinSplit(s[1..], c, k - 1);
      var i :| 1 <= i < |rest| && Join(rest[i..], c) == s[1..][k - 1 + 1..];
      assert s[1..][k..] == s[k + 1..];
      if s[0] == c {
        DropCons([], rest, i);
        assert Split(s, c)[i + 1..] == rest[i..];
      } else {
        DropReplacedHead([s[0]] + rest[0], rest, i);
        assert Split(s, c)[i..] == rest[i..];
      }
    }
  }

  /** Number of characters of `s` that belong to `chars`. */
  function CountIn(s: string, chars: string): (n: nat)
    ensures n <= |s|
  {
    if |s| == 0 then 0
    else CountIn(s[..|s| - 1], chars) + (if s[|s| - 1] in chars then 1 else 0)
  }

  lemma {:induction false} CountAbsent(s: string, chars: string)
    requires forall k :: 0 <= k < |s| ==> s[k] !in chars
    ensures CountIn(s, chars) == 0
    decreases |s|
  {
    if |s| > 0 {
      CountAbsent(s[..|s| - 1], chars);
    }
  }

  /** Number of occurrences of the character `c` in `s`. */
  function Count(s: string, c: char): nat {
    CountIn(s, [c])
  }

  /** `s.split(c)` has one piece more than `s` has occurrences of `c`. */
  lemma {:induction false} SplitLength(s: string, c: char)
    ensures |Split(s, c)| == Count(s, c) + 1
    decreases |s|
  {
    if |s| > 0 {
      SplitLength(s[1..], c);
      CountFront(s, [c]);
    }
  }

  /** Counting can also peel off the first character. */
  lemma {:induction false} CountFront(s: string, chars: string)
    requires |s| > 0
    ensures CountIn(s, chars) == (if s[0] in chars then 1 else 0) + CountIn(s[1..], chars)
    decreases |s|
  {
    if |s| > 1 {
      CountFront(s[..|s| - 1], chars);
      assert s[..|s| - 1][1..] == s[1..][..|s[1..]| - 1];
    }
  }

  /** ASCII lower-casing of one character. */
  function LowerChar(c: char): char {
    if 'A' <= c <= 'Z' then (c as int + 32) as char else c
  }

  /** `s.lower()` restricted to ASCII letters. */
  function Lower(s: string): (r: string)
    ensures |r| == |s|
    ensures forall k :: 0 <= k < |s| ==> r[k] == LowerChar(s[k])
  {
    seq(|s|, k requires 0 <= k < |s| => LowerChar(s[k]))
  }
}
