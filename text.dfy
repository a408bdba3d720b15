/**
 * String operations with the semantics of the Python built-ins the application
 * relies on: `in` (substring test), `str.split(sep)`, `sep.join`, `str.lower()`
 * and `str.strip()`.
 */
module Text {
  import opened Wrappers

  /** `p` occurs in `s` starting at index `i`. */
  predicate OccursAt(s: string, p: string, i: nat) {
    i + |p| <= |s| && s[i..i + |p|] == p
  }

  /** Python's `p in s`. */
  predicate Contains(s: string, p: string)
    ensures Contains(s, p) ==> |p| <= |s|
  {
    exists i: nat | i <= |s| :: OccursAt(s, p, i)
  }

  /** First occurrence of `p` in `s` at or after index `i`. */
  function IndexFrom(s: string, p: string, i: nat): (r: Option<nat>)
    requires i <= |s|
    ensures r.Some? ==> i <= r.value && r.value + |p| <= |s|
    decreases |s| - i
  {
    if OccursAt(s, p, i) then Some(i)
    else if i == |s| then None
    else IndexFrom(s, p, i + 1)
  }

  /** Python's `s.find(p)`, with None for -1. */
  function IndexOf(s: string, p: string): (r: Option<nat>)
    ensures r.Some? ==> r.value + |p| <= |s|
  {
    IndexFrom(s, p, 0)
  }

  /** IndexFrom finds the first occurrence at or after `i`, and None means there is none. */
  lemma {:induction false} IndexFromFirst(s: string, p: string, i: nat)
    requires i <= |s|
    ensures var r := IndexFrom(s, p, i);
      (r.Some? ==> OccursAt(s, p, r.value) && forall j: nat :: i <= j < r.value ==> !OccursAt(s, p, j))
      && (r.None? ==> forall j: nat :: i <= j ==> !OccursAt(s, p, j))
    decreases |s| - i
  {
    if !OccursAt(s, p, i) && i < |s| {
      IndexFromFirst(s, p, i + 1);
    }
  }

  /** IndexOf finds an occurrence exactly when `p in s`, and the one it finds is the first. */
  lemma IndexOfFirst(s: string, p: string)
    ensures IndexOf(s, p).Some? <==> Contains(s, p)
    ensures IndexOf(s, p).Some? ==> OccursAt(s, p, IndexOf(s, p).value)
    ensures IndexOf(s, p).Some? ==> forall j: nat :: j < IndexOf(s, p).value ==> !OccursAt(s, p, j)
  {
    IndexFromFirst(s, p, 0);
  }

  /** An occurrence with none before it is the one IndexOf finds. */
  lemma FirstOccurrence(s: string, p: string, k: nat)
    requires OccursAt(s, p, k)
    requires forall j: nat :: j < k ==> !OccursAt(s, p, j)
    ensures IndexOf(s, p) == Some(k)
  {
    IndexOfFirst(s, p);
    assert Contains(s, p);
  }

  /** A slice of a string in which `p` does not occur does not contain `p` either. */
  lemma {:induction false} SliceAvoids(s: string, p: string, a: nat, b: nat)
    requires a <= b <= |s|
    requires !Contains(s, p)
    ensures !Contains(s[a..b], p)
  {
    if Contains(s[a..b], p) {
      var j: nat :| j <= b - a && OccursAt(s[a..b], p, j);
      forall k | 0 <= k < |p| ensures s[a + j + k] == p[k] {
        assert s[a..b][j..j + |p|][k] == p[k];
      }
      assert s[a + j..a + j + |p|] == p;
      assert OccursAt(s, p, a + j);
    }
  }

  /** The text before the first occurrence of `p` does not contain `p`. */
  lemma PrefixBeforeFirst(s: string, p: string, i: nat)
    requires p != []
    requires IndexOf(s, p) == Some(i)
    ensures !Contains(s[..i], p)
  {
    IndexOfFirst(s, p);
    forall j: nat | j <= i ensures !OccursAt(s[..i], p, j) {
      if j + |p| <= i {
        assert !OccursAt(s, p, j);
        assert s[..i][j..j + |p|] == s[j..j + |p|];
      }
    }
  }

  /** Python's `s.split(sep)` for a non-empty separator. */
  function Split(s: string, sep: string): (r: seq<string>)
    requires sep != []
    ensures |r| >= 1
    decreases |s|
  {
    match IndexOf(s, sep)
    case None => [s]
    case Some(i) => [s[..i]] + Split(s[i + |sep|..], sep)
  }

  /** The text is cut into several pieces exactly when the separator occurs in it, and the
      first piece holds no separator. */
  lemma SplitFirst(s: string, sep: string)
    requires sep != []
    ensures |Split(s, sep)| == 1 <==> !Contains(s, sep)
    ensures !Contains(s, sep) ==> Split(s, sep) == [s]
    ensures !Contains(Split(s, sep)[0], sep)
  {
    IndexOfFirst(s, sep);
    var k := IndexOf(s, sep);
    if k.Some? {
      PrefixBeforeFirst(s, sep, k.value);
    }
  }

  /** Python's `sep.join(parts)`. */
  function Join(parts: seq<string>, sep: string): (r: string)
    requires |parts| >= 1
    ensures |parts| == 1 ==> r == parts[0]
  {
    if |parts| == 1 then parts[0] else parts[0] + sep + Join(parts[1..], sep)
  }

  /** Joining several pieces puts the separator before the last one. */
  lemma {:induction false} JoinLast(parts: seq<string>, sep: string)
    requires |parts| >= 2
    ensures Join(parts, sep) == Join(parts[..|parts| - 1], sep) + sep + parts[|parts| - 1]
    decreases |parts|
  {
    if |parts| > 2 {
      JoinLast(parts[1..], sep);
      assert parts[1..][..|parts| - 2] == parts[..|parts| - 1][1..];
    }
  }

  lemma JoinThree(a: string, b: string, c: string, sep: string)
    ensures Join([a, b, c], sep) == a + sep + b + sep + c
  {
    assert [a, b, c][1..] == [b, c];
    assert [b, c][1..] == [c];
  }

  /** Python's `sep.join(parts)`, also for an empty list. */
  function JoinAll(parts: seq<string>, sep: string): (r: string)
    ensures |parts| == 0 ==> r == []
  {
    if |parts| == 0 then [] else Join(parts, sep)
  }

  /** Decimal digits of a natural number, as Python's `str` writes it. */
  function NatToString(n: nat): (r: string)
    ensures |r| >= 1
    ensures forall i :: 0 <= i < |r| ==> '0' <= r[i] <= '9'
    ensures |r| > 1 ==> r[0] != '0'
  {
    if n < 10 then [('0' as int + n) as char]
    else NatToString(n / 10) + [('0' as int + n % 10) as char]
  }

  /** The number a text of decimal digits denotes, most significant digit first. */
  function DigitsValue(s: string): (v: int)
    ensures (forall i :: 0 <= i < |s| ==> '0' <= s[i] <= '9') ==> v >= 0
  {
    if |s| == 0 then 0
    else 10 * DigitsValue(s[..|s| - 1]) + (s[|s| - 1] as int - '0' as int)
  }

  /** Reading the decimal text of a number back gives the number. */
  lemma {:induction false} NatToStringValue(n: nat)
    ensures DigitsValue(NatToString(n)) == n
  {
    if n >= 10 {
      var r := NatToString(n);
      assert r[..|r| - 1] == NatToString(n / 10);
      NatToStringValue(n / 10);
    }
  }

  /** Splitting and joining back with the same separator gives the original text. */
  lemma {:induction false} JoinSplit(s: string, sep: string)
    requires sep != []
    ensures Join(Split(s, sep), sep) == s
    decreases |s|
  {
    var k := IndexOf(s, sep);
    if k.Some? {
      var i := k.value;
      var rest := s[i + |sep|..];
      var r := Split(s, sep);
      var r' := Split(rest, sep);
      assert r == [s[..i]] + r';
      assert r[1..] == r';
      JoinSplit(rest, sep);
      IndexOfFirst(s, sep);
      assert s == s[..i] + sep + rest;
    } else {
      assert Split(s, sep) == [s];
    }
  }

  /** When `p` first occurs in `pre + p + rest` right after `pre`, the split starts with
      `pre` and goes on with the split of `rest`. The caller rules out an occurrence that
      begins inside `pre` and ends after it. */
  lemma SplitAfter(pre: string, p: string, rest: string)
    requires p != []
    requires !Contains(pre, p)
    requires forall j: nat :: j < |pre| < j + |p| ==> !OccursAt(pre + p + rest, p, j)
    ensures IndexOf(pre + p + rest, p) == Some(|pre|)
    ensures Split(pre + p + rest, p) == [pre] + Split(rest, p)
  {
    var s := pre + p + rest;
    assert s[|pre|..|pre| + |p|] == p;
    forall j: nat | j < |pre| ensures !OccursAt(s, p, j) {
      if j + |p| <= |pre| {
        assert !OccursAt(pre, p, j);
        assert s[j..j + |p|] == pre[j..j + |p|];
      }
    }
    FirstOccurrence(s, p, |pre|);
    assert s[..|pre|] == pre;
    assert s[|pre| + |p|..] == rest;
  }

  function Last(r: seq<string>): string
    requires |r| >= 1
  {
    r[|r| - 1]
  }

  /** The last piece of a split is the last piece of the split of what follows the first
      separator, when there is one. */
  lemma SplitLastStep(s: string, sep: string)
    requires sep != [] && IndexOf(s, sep).Some?
    ensures Last(Split(s, sep)) == Last(Split(s[IndexOf(s, sep).value + |sep|..], sep))
  {
    var i := IndexOf(s, sep).value;
    var r' := Split(s[i + |sep|..], sep);
    assert Split(s, sep) == [s[..i]] + r';
  }

  /** The last piece of a split never contains the separator. */
  lemma {:induction false} LastPieceAvoids(s: string, sep: string)
    requires sep != []
    ensures !Contains(Last(Split(s, sep)), sep)
    decreases |s|
  {
    var k := IndexOf(s, sep);
    if k.Some? {
      LastPieceAvoids(s[k.value + |sep|..], sep);
      SplitLastStep(s, sep);
    } else {
      SplitFirst(s, sep);
    }
  }

  /** Where the last piece of a split begins. */
  function LastStart(s: string, sep: string): (k: nat)
    requires sep != []
    ensures k <= |s|
    decreases |s|
  {
    match IndexOf(s, sep)
    case None => 0
    case Some(i) => i + |sep| + LastStart(s[i + |sep|..], sep)
  }

  /** The last piece of a split runs from its start to the end of the text. */
  lemma {:induction false} LastPieceSuffix(s: string, sep: string)
    requires sep != []
    ensures Last(Split(s, sep)) == s[LastStart(s, sep)..]
    decreases |s|
  {
    var k := IndexOf(s, sep);
    if k.Some? {
      var j := k.value + |sep|;
      var rest := s[j..];
      LastPieceSuffix(rest, sep);
      SplitLastStep(s, sep);
      assert rest[LastStart(rest, sep)..] == s[j + LastStart(rest, sep)..];
    } else {
      assert Split(s, sep) == [s];
    }
  }

  /** The last piece of a split never contains the separator and ends the text. */
  lemma LastPiece(s: string, sep: string)
    requires sep != []
    ensures !Contains(Last(Split(s, sep)), sep)
    ensures var l := Last(Split(s, sep)); |l| <= |s| && l == s[|s| - |l|..]
  {
    LastPieceAvoids(s, sep);
    LastPieceSuffix(s, sep);
  }

  /** The last piece of `a + [c] + b` split on the one-character separator `[c]` is `b`
      when `c` does not occur in `b` (Python's `s.split(c)[-1]`). */
  lemma {:induction false} LastPieceAfterSeparator(a: string, c: char, b: string)
    requires !Contains(b, [c])
    ensures Last(Split(a + [c] + b, [c])) == b
    decreases |a|
  {
    var s := a + [c] + b;
    assert s[|a|..|a| + 1] == [c];
    assert OccursAt(s, [c], |a|);
    IndexOfFirst(s, [c]);
    var i := IndexOf(s, [c]).value;
    SplitLastStep(s, [c]);
    if i == |a| {
      assert s[i + 1..] == b;
      SplitFirst(b, [c]);
    } else {
      assert s[i + 1..] == a[i + 1..] + [c] + b;
      LastPieceAfterSeparator(a[i + 1..], c, b);
    }
  }

  /** Python's `str.lower()` restricted to ASCII letters. */
  function LowerChar(c: char): char {
    if 'A' <= c <= 'Z' then (c as int + 32) as char else c
  }

  predicate IsLowerCase(s: string) {
    forall i :: 0 <= i < |s| ==> !('A' <= s[i] <= 'Z')
  }

  function Lower(s: string): (r: string)
    ensures |r| == |s| && IsLowerCase(r)
  {
    seq(|s|, i requires 0 <= i < |s| => LowerChar(s[i]))
  }

  /** Lower-casing changes nothing exactly in text that has no upper-case letter. */
  lemma LowerFixedPoint(s: string)
    ensures Lower(s) == s <==> IsLowerCase(s)
  {
    if IsLowerCase(s) {
      assert forall i :: 0 <= i < |s| ==> Lower(s)[i] == s[i];
    }
  }

  /** The characters for which Python's `str.isspace()` holds, i.e. those `str.strip()` removes. */
  predicate IsSpace(c: char) {
    c == ' ' || '\t' <= c <= '\r' || '\U{1C}' <= c <= '\U{1F}' || c == '\U{85}' || c == '\U{A0}'
    || c == '\U{1680}' || '\U{2000}' <= c <= '\U{200A}' || c == '\U{2028}' || c == '\U{2029}'
    || c == '\U{202F}' || c == '\U{205F}' || c == '\U{3000}'
  }

  /** Number of whitespace characters that open `s`. */
  function LeadingSpace(s: string): (n: nat)
    ensures n <= |s| && forall i :: 0 <= i < n ==> IsSpace(s[i])
    ensures n < |s| ==> !IsSpace(s[n])
  {
    if |s| > 0 && IsSpace(s[0]) then 1 + LeadingSpace(s[1..]) else 0
  }

  /** Number of whitespace characters that close `s`. */
  function TrailingSpace(s: string): (n: nat)
    ensures n <= |s| && forall i :: |s| - n <= i < |s| ==> IsSpace(s[i])
    ensures n < |s| ==> !IsSpace(s[|s| - n - 1])
  {
    if |s| > 0 && IsSpace(s[|s| - 1]) then 1 + TrailingSpace(s[..|s| - 1]) else 0
  }

  /** Python's `s.strip()`: the text between the leading and the trailing whitespace. */
  function Strip(s: string): (r: string)
    ensures |r| <= |s|
    ensures r == [] || (!IsSpace(r[0]) && !IsSpace(r[|r| - 1]))
  {
    var a := LeadingSpace(s);
    var b := TrailingSpace(s[a..]);
    s[a..|s| - b]
  }

  /** What strip removes is whitespace on both sides, and what it keeps is a slice of `s`. */
  lemma StripSlice(s: string)
    ensures var r := Strip(s); var a := LeadingSpace(s);
      a + |r| <= |s| && r == s[a..a + |r|]
      && (forall i :: 0 <= i < a ==> IsSpace(s[i]))
      && (forall i :: a + |r| <= i < |s| ==> IsSpace(s[i]))
  {
    var a := LeadingSpace(s);
    var t := s[a..];
    var b := TrailingSpace(t);
    assert Strip(s) == s[a..|s| - b];
    forall i | |s| - b <= i < |s| ensures IsSpace(s[i]) {
      assert s[i] == t[i - a];
    }
  }

  /** Stripping twice is stripping once. */
  lemma StripIdempotent(s: string)
    ensures Strip(Strip(s)) == Strip(s)
  {
    var r := Strip(s);
    assert LeadingSpace(r) == 0;
    assert TrailingSpace(r[LeadingSpace(r)..]) == 0;
  }

  /** Stripping cannot create an occurrence of a pattern that was absent. */
  lemma StripAvoids(s: string, p: string)
    requires !Contains(s, p)
    ensures !Contains(Strip(s), p)
  {
    StripSlice(s);
    var a := LeadingSpace(s);
    SliceAvoids(s, p, a, a + |Strip(s)|);
  }
}
