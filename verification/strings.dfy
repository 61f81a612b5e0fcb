/** The part of Rust's `str` API the reminder scanner relies on (`find`,
    `rfind`, `trim_start`, `lines`, `starts_with`, counting characters), over
    strings modelled as sequences of characters. Indices are character
    indices: the scanner's byte offsets coincide with them for text in which
    every character is one byte long. */
module Strings {

  type String = seq<char>

  datatype Option<T> = None | Some(value: T)

  /** Rust's `char::is_whitespace`: the Unicode White_Space property. */
  predicate IsWhitespace(c: char) {
    || ('\t' <= c <= '\r')
    || c == ' '
    || c == '\U{85}'
    || c == '\U{A0}'
    || c == '\U{1680}'
    || ('\U{2000}' <= c <= '\U{200A}')
    || c == '\U{2028}'
    || c == '\U{2029}'
    || c == '\U{202F}'
    || c == '\U{205F}'
    || c == '\U{3000}'
  }

  predicate StartsWith(s: String, prefix: String) {
    |prefix| <= |s| && s[..|prefix|] == prefix
  }

  /** `sub` occurs in `s` starting at index `i`. */
  predicate OccursAt(s: String, sub: String, i: nat) {
    i + |sub| <= |s| && s[i..i + |sub|] == sub
  }

  /** `sub` occurs somewhere at or after index `from`. */
  ghost predicate OccursFrom(s: String, sub: String, from: nat) {
    exists i: nat :: from <= i && OccursAt(s, sub, i)
  }

  /** `i` is the first index at or after `from` where `sub` occurs. */
  ghost predicate IsFirstOccurrenceFrom(s: String, sub: String, from: nat, i: nat) {
    && from <= i
    && OccursAt(s, sub, i)
    && forall j: nat :: from <= j < i ==> !OccursAt(s, sub, j)
  }

  /** Searches for `sub` from index `i` onwards. */
  function FindFrom(s: String, sub: String, i: nat): (r: Option<nat>)
    requires i <= |s|
    ensures r.Some? ==> IsFirstOccurrenceFrom(s, sub, i, r.value)
    ensures r.None? ==> forall j: nat :: i <= j ==> !OccursAt(s, sub, j)
    decreases |s| - i
  {
    if OccursAt(s, sub, i) then Some(i)
    else if |s| <= i + |sub| then None
    else FindFrom(s, sub, i + 1)
  }

  /** Rust's `str::find`: the index of the first occurrence of `sub`. */
  function Find(s: String, sub: String): (r: Option<nat>)
    ensures r.Some? ==> IsFirstOccurrenceFrom(s, sub, 0, r.value)
    ensures r.None? ==> forall j: nat :: !OccursAt(s, sub, j)
  {
    FindFrom(s, sub, 0)
  }

  /** Occurrences in the suffix `s[from..]` are the occurrences in `s` at or
      after `from`, shifted by `from`. */
  lemma SuffixOccurrence(s: String, sub: String, from: nat, i: nat)
    requires from <= |s|
    ensures OccursAt(s[from..], sub, i) <==> OccursAt(s, sub, from + i)
  {
    if i + |sub| <= |s| - from {
      assert s[from..][i..i + |sub|] == s[from + i..from + i + |sub|];
    }
  }

  /** Searching the suffix `s[from..]` and adding `from` back finds the first
      occurrence at or after `from`, and finds one exactly when there is one. */
  lemma {:induction false} FindInSuffix(s: String, sub: String, from: nat)
    requires from <= |s|
    ensures Find(s[from..], sub).Some? <==> OccursFrom(s, sub, from)
    ensures Find(s[from..], sub).Some? ==>
      IsFirstOccurrenceFrom(s, sub, from, Find(s[from..], sub).value + from)
  {
    var r := Find(s[from..], sub);
    if r.Some? {
      SuffixOccurrence(s, sub, from, r.value);
      forall j: nat | from <= j < r.value + from
        ensures !OccursAt(s, sub, j)
      {
        SuffixOccurrence(s, sub, from, j - from);
      }
    } else if OccursFrom(s, sub, from) {
      var w: nat :| from <= w && OccursAt(s, sub, w);
      SuffixOccurrence(s, sub, from, w - from);
      assert false;
    }
  }

  /** There is only one first occurrence. */
  lemma FirstOccurrenceUnique(s: String, sub: String, from: nat, i: nat, j: nat)
    requires IsFirstOccurrenceFrom(s, sub, from, i) && IsFirstOccurrenceFrom(s, sub, from, j)
    ensures i == j
  {
  }

  /** The search `get_row_and_column` and the cursor update of the scanning
      loop both perform: `s[from..].find(sub).unwrap() + from`, which panics
      where `sub` does not occur at or after `from`. */
  function Occurrence(s: String, sub: String, from: nat): (i: nat)
    requires from <= |s| && OccursFrom(s, sub, from)
    ensures IsFirstOccurrenceFrom(s, sub, from, i)
  {
    FindInSuffix(s, sub, from);
    Find(s[from..], sub).value + from
  }

  /** The index of the last occurrence of `c` below index `end`. */
  function LastIndexBefore(s: String, c: char, end: nat): (r: Option<nat>)
    requires end <= |s|
    ensures r.Some? ==> r.value < end
  {
    if end == 0 then None
    else if s[end - 1] == c then Some(end - 1)
    else LastIndexBefore(s, c, end - 1)
  }

  /** Rust's `str::rfind` for one character: the index of its last occurrence. */
  function RFind(s: String, c: char): (r: Option<nat>)
    ensures r.Some? ==> r.value < |s|
  {
    LastIndexBefore(s, c, |s|)
  }

  /** `RFind` finds the last occurrence, and finds none only where `c` does
      not occur. */
  lemma RFindMeans(s: String, c: char)
    ensures RFind(s, c).Some? ==> s[RFind(s, c).value] == c
    ensures RFind(s, c).Some? ==> forall k :: RFind(s, c).value < k < |s| ==> s[k] != c
    ensures RFind(s, c).None? ==> c !in s
  {
    LastIndexBeforeMeans(s, c, |s|);
  }

  lemma {:induction false} LastIndexBeforeMeans(s: String, c: char, end: nat)
    requires end <= |s|
    ensures LastIndexBefore(s, c, end).Some? ==>
      && s[LastIndexBefore(s, c, end).value] == c
      && forall k :: LastIndexBefore(s, c, end).value < k < end ==> s[k] != c
    ensures LastIndexBefore(s, c, end).None? ==> forall k :: 0 <= k < end ==> s[k] != c
  {
    if end > 0 && s[end - 1] != c {
      LastIndexBeforeMeans(s, c, end - 1);
    }
  }

  /** The index of the first occurrence of character `c`. */
  function IndexOf(s: String, c: char): (r: Option<nat>)
    ensures r.Some? ==> r.value < |s| && s[r.value] == c
    ensures r.Some? ==> forall k :: 0 <= k < r.value ==> s[k] != c
    ensures r.None? ==> c !in s
  {
    if s == [] then None
    else if s[0] == c then Some(0)
    else match IndexOf(s[1..], c)
      case None => None
      case Some(i) => Some(i + 1)
  }

  /** Rust's `chars().filter(|x| *x == c).count()`: how often `c` occurs. */
  function CountChar(s: String, c: char): nat
  {
    if s == [] then 0
    else CountChar(s[..|s| - 1], c) + (if s[|s| - 1] == c then 1 else 0)
  }

  /** The count is the multiplicity of `c` in the multiset of characters. */
  lemma {:induction false} CountCharMeans(s: String, c: char)
    ensures CountChar(s, c) == multiset(s)[c]
  {
    if s != [] {
      CountCharMeans(s[..|s| - 1], c);
      assert s == s[..|s| - 1] + [s[|s| - 1]];
    }
  }

  /** Rust's `str::trim_start`: drops the leading whitespace, nothing else. */
  function TrimStart(s: String): (r: String)
    ensures |r| <= |s| && r == s[|s| - |r|..]
    ensures forall i :: 0 <= i < |s| - |r| ==> IsWhitespace(s[i])
    ensures r == [] || !IsWhitespace(r[0])
  {
    if s != [] && IsWhitespace(s[0]) then TrimStart(s[1..]) else s
  }

  /** The line terminator handling of `str::lines`: a `"\r"` is dropped only
      from a line that was ended by `"\n"`. */
  function StripCr(line: String): (r: String)
  {
    if |line| > 0 && line[|line| - 1] == '\r' then line[..|line| - 1] else line
  }

  /** Rust's `str::lines`: the text split at each `"\n"` (a `"\r\n"` ending
      counts as one terminator); the final line need not be terminated, and
      no empty line follows a final terminator. */
  function Lines(s: String): (ls: seq<String>)
    ensures forall k :: 0 <= k < |ls| ==> '\n' !in ls[k]
    ensures s == [] <==> ls == []
    decreases |s|
  {
    if s == [] then []
    else match IndexOf(s, '\n')
      case None => [s]
      case Some(e) =>
        assert forall x :: x in StripCr(s[..e]) ==> x in s[..e];
        [StripCr(s[..e])] + Lines(s[e + 1..])
  }

  function Shift(xs: seq<nat>, d: nat): (ys: seq<nat>)
    ensures |ys| == |xs|
    ensures forall k :: 0 <= k < |xs| ==> ys[k] == xs[k] + d
  {
    seq(|xs|, k requires 0 <= k < |xs| => xs[k] + d)
  }

  /** Where each line of `Lines(s)` starts in `s`. */
  function LineStarts(s: String): seq<nat>
    decreases |s|
  {
    if s == [] then []
    else match IndexOf(s, '\n')
      case None => [0]
      case Some(e) => [0] + Shift(LineStarts(s[e + 1..]), e + 1)
  }

  /** The pieces `parts` sit in `s` at the strictly increasing indices `at`. */
  ghost predicate Anchored(s: String, parts: seq<String>, at: seq<nat>) {
    && |at| == |parts|
    && (forall k :: 0 <= k < |parts| ==> OccursAt(s, parts[k], at[k]))
    && (forall i, j :: 0 <= i < j < |at| ==> at[i] < at[j])
  }

  /** Every index of `at` lies in `[lo, hi)`. */
  ghost predicate Within(at: seq<nat>, lo: nat, hi: nat) {
    forall k :: 0 <= k < |at| ==> lo <= at[k] < hi
  }

  lemma OccursInSuffix(s: String, sub: String, d: nat, i: nat)
    requires d <= |s| && OccursAt(s[d..], sub, i)
    ensures OccursAt(s, sub, d + i)
  {
    SuffixOccurrence(s, sub, d, i);
  }

  lemma OccursInside(s: String, t: String, p: nat, sub: String, i: nat)
    requires OccursAt(s, t, p) && OccursAt(t, sub, i)
    ensures OccursAt(s, sub, p + i)
  {
    assert s[p..p + |t|] == t;
    forall k | 0 <= k < |sub|
      ensures s[p + i..p + i + |sub|][k] == sub[k]
    {
      assert sub[k] == t[i + k] == s[p..p + |t|][i + k];
    }
  }

  /** Each line `str::lines` yields is a piece of the text, at strictly
      increasing positions inside it. */
  lemma {:induction false} LinesAnchored(s: String)
    ensures Anchored(s, Lines(s), LineStarts(s))
    ensures Within(LineStarts(s), 0, |s|)
    decreases |s|
  {
    if s != [] {
      match IndexOf(s, '\n')
      case None =>
        assert s[0..|s|] == s;
      case Some(e) =>
        var rest := s[e + 1..];
        LinesAnchored(rest);
        LinesUnfold(s, e);
        assert s[0..|StripCr(s[..e])|] == StripCr(s[..e]);
        AnchoredCons(s, StripCr(s[..e]), e + 1, Lines(rest), LineStarts(rest));
    }
  }

  lemma LinesUnfold(s: String, e: nat)
    requires e < |s| && IndexOf(s, '\n') == Some(e)
    ensures Lines(s) == [StripCr(s[..e])] + Lines(s[e + 1..])
    ensures LineStarts(s) == [0] + Shift(LineStarts(s[e + 1..]), e + 1)
  {
  }

  /** The inductive step of `LinesAnchored`: a first piece at 0, followed by
      the pieces of the suffix after `d`, shifted past it. */
  lemma AnchoredCons(s: String, first: String, d: nat, parts: seq<String>, at: seq<nat>)
    requires 1 <= d <= |s| && OccursAt(s, first, 0)
    requires Anchored(s[d..], parts, at) && Within(at, 0, |s| - d)
    ensures Anchored(s, [first] + parts, [0] + Shift(at, d))
    ensures Within([0] + Shift(at, d), 0, |s|)
  {
    var ls, all := [first] + parts, [0] + Shift(at, d);
    forall k | 0 <= k < |ls|
      ensures OccursAt(s, ls[k], all[k]) && all[k] < |s|
    {
      if k > 0 {
        assert ls[k] == parts[k - 1] && all[k] == at[k - 1] + d;
        OccursInSuffix(s, ls[k], d, at[k - 1]);
      }
    }
    forall i, j | 0 <= i < j < |all|
      ensures all[i] < all[j]
    {
      if i > 0 {
        assert at[i - 1] < at[j - 1];
      }
    }
  }

  /** Anchors inside a piece `t` of `s` are anchors in `s`, shifted by where
      `t` sits. */
  lemma AnchoredInside(s: String, t: String, p: nat, parts: seq<String>, at: seq<nat>)
    requires OccursAt(s, t, p) && Anchored(t, parts, at)
    ensures Anchored(s, parts, Shift(at, p))
  {
    forall k | 0 <= k < |parts|
      ensures OccursAt(s, parts[k], Shift(at, p)[k])
    {
      OccursInside(s, t, p, parts[k], at[k]);
    }
  }

  /** Shifting anchors shifts the range they lie in. */
  lemma WithinShift(at: seq<nat>, lo: nat, hi: nat, d: nat)
    requires Within(at, lo, hi)
    ensures Within(Shift(at, d), lo + d, hi + d)
  {
  }

  /** A line that ends at `end` is followed by its terminator and the next
      line starts at `next`. The text ends there, or a `"\n"` follows a line
      that does not end in `"\r"`, or a `"\r\n"` follows. */
  ghost predicate LineBreak(s: String, end: nat, next: nat) {
    || (end == next == |s|)
    || (end < |s| && s[end] == '\n' && next == end + 1 && (end == 0 || s[end - 1] != '\r'))
    || (end + 1 < |s| && s[end] == '\r' && s[end + 1] == '\n' && next == end + 2)
  }

  /** Where the line after line `k` starts: the next anchor, or the end of
      the text after the last line. */
  function NextStart(s: String, at: seq<nat>, k: nat): nat
    requires k < |at|
  {
    if k + 1 < |at| then at[k + 1] else |s|
  }

  /** The lines `ls`, at `at`, tile the whole text: the first starts at 0, and
      each is followed by its terminator and then directly by the next line
      (or the end of the text). */
  ghost predicate Covers(s: String, ls: seq<String>, at: seq<nat>) {
    && |at| == |ls|
    && (s == [] ==> ls == [])
    && (s != [] ==> |at| > 0 && at[0] == 0)
    && forall k {:trigger ls[k]} :: 0 <= k < |ls| ==> LineBreak(s, at[k] + |ls[k]|, NextStart(s, at, k))
  }

  /** `str::lines` loses no text: together with their terminators, the lines
      it yields make up the whole text, and a `"\r"` is dropped only just
      before a `"\n"`. */
  lemma {:induction false} LinesCover(s: String)
    ensures Covers(s, Lines(s), LineStarts(s))
    decreases |s|
  {
    LinesAnchored(s);
    if s != [] {
      match IndexOf(s, '\n')
      case None =>
        assert LineBreak(s, |s|, |s|);
      case Some(e) =>
        var rest := s[e + 1..];
        LinesCover(rest);
        LinesAnchored(rest);
        LinesUnfold(s, e);
        FirstBreak(s, e, Lines(rest), LineStarts(rest));
        CoversCons(s, e + 1, StripCr(s[..e]), Lines(rest), LineStarts(rest));
    }
  }

  /** The inductive step of `LinesCover`: a first line followed by a line
      break, then the lines of the rest after `d`, shifted past it. */
  lemma CoversCons(s: String, d: nat, first: String, parts: seq<String>, at: seq<nat>)
    requires 1 <= d <= |s| && s[d - 1] == '\n'
    requires Covers(s[d..], parts, at)
    requires LineBreak(s, |first|, NextStart(s, [0] + Shift(at, d), 0))
    ensures Covers(s, [first] + parts, [0] + Shift(at, d))
  {
    ShiftedBreaks(s, d, first, parts, at);
  }

  lemma ShiftedBreaks(s: String, d: nat, first: String, parts: seq<String>, at: seq<nat>)
    requires 1 <= d <= |s| && s[d - 1] == '\n'
    requires Covers(s[d..], parts, at)
    ensures forall k :: 1 <= k <= |parts| ==>
      LineBreak(s, ([0] + Shift(at, d))[k] + |([first] + parts)[k]|, NextStart(s, [0] + Shift(at, d), k))
  {
    forall k | 1 <= k <= |parts|
      ensures LineBreak(s, ([0] + Shift(at, d))[k] + |([first] + parts)[k]|, NextStart(s, [0] + Shift(at, d), k))
    {
      ShiftedBreak(s, d, first, parts, at, k);
    }
  }

  /** The first line, up to the first `"\n"` at `e` with a `"\r"` before it
      dropped, is followed by a line break. */
  lemma FirstBreak(s: String, e: nat, parts: seq<String>, at: seq<nat>)
    requires e < |s| && s[e] == '\n'
    requires Covers(s[e + 1..], parts, at)
    ensures LineBreak(s, |StripCr(s[..e])|, NextStart(s, [0] + Shift(at, e + 1), 0))
  {
    var all := [0] + Shift(at, e + 1);
    if |all| > 1 {
      assert all[1] == at[0] + e + 1;
    }
    if |StripCr(s[..e])| == e {
      assert e == 0 || s[e - 1] != '\r';
    }
  }

  /** Line `k` of the lines after a first one, shifted past `d`, is followed
      by a line break in the text. */
  lemma ShiftedBreak(s: String, d: nat, first: String, parts: seq<String>, at: seq<nat>, k: nat)
    requires 1 <= d <= |s| && s[d - 1] == '\n'
    requires Covers(s[d..], parts, at) && 1 <= k <= |parts|
    ensures LineBreak(s, ([0] + Shift(at, d))[k] + |([first] + parts)[k]|, NextStart(s, [0] + Shift(at, d), k))
  {
    var ls, all := [first] + parts, [0] + Shift(at, d);
    var end := at[k - 1] + |parts[k - 1]|;
    var next := NextStart(s[d..], at, k - 1);
    assert LineBreak(s[d..], end, next);
    BreakShift(s, d, end, next);
    assert ls[k] == parts[k - 1] && all[k] == at[k - 1] + d;
    if k + 1 < |ls| {
      assert all[k + 1] == at[k] + d;
    }
    assert NextStart(s, all, k) == next + d;
  }

  /** A line break in the suffix after `d` is a line break in the text,
      shifted by `d`. */
  lemma BreakShift(s: String, d: nat, end: nat, next: nat)
    requires 1 <= d <= |s| && s[d - 1] == '\n' && LineBreak(s[d..], end, next)
    ensures LineBreak(s, end + d, next + d)
  {
  }
}
