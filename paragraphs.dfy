/** The paragraph split of the letter body: `text.split(/\n\s*\n/)`,
    followed by `.map((p) => p.trim()).filter(Boolean)`
    (src/components/LetterDisplay.tsx, lines 94-98). The regular
    expression is modelled character by character: a separator starts at a
    line feed, `\s*` takes the longest whitespace run and then gives back
    characters until a line feed follows, and the split takes the leftmost
    match first, as JavaScript's `String.prototype.split` does. */
module Paragraphs {
  import opened Wrappers
  import opened Text

  /** `t[i..e)` is a match of `\n\s*\n`. */
  ghost predicate SeparatorMatch(t: string, i: nat, e: nat) {
    i + 2 <= e <= |t| && t[i] == '\n' && t[e - 1] == '\n' && Blank(t[i + 1..e - 1])
  }

  /** A whole string that matches `\n\s*\n`: a line break, zero or more
      whitespace-only lines, and a line break. */
  ghost predicate IsSeparator(s: string) {
    SeparatorMatch(s, 0, |s|)
  }

  /** The end of the longest whitespace run that starts at `j`. */
  function WsRunEnd(t: string, j: nat): (e: nat)
    requires j <= |t|
    ensures j <= e <= |t| && Blank(t[j..e])
    ensures e == |t| || !IsWs(t[e])
    decreases |t| - j
  {
    if j < |t| && IsWs(t[j]) then WsRunEnd(t, j + 1) else j
  }

  /** The position of the last line feed in `t[lo..hi)`, if any. */
  function LastLineFeed(t: string, lo: nat, hi: nat): (r: Option<nat>)
    requires lo <= hi <= |t|
    ensures r.Some? ==> lo <= r.value < hi && t[r.value] == '\n'
    ensures r.Some? ==> forall p :: r.value < p < hi ==> t[p] != '\n'
    ensures r.None? ==> forall p :: lo <= p < hi ==> t[p] != '\n'
    decreases hi - lo
  {
    if hi == lo then None
    else if t[hi - 1] == '\n' then Some(hi - 1)
    else LastLineFeed(t, lo, hi - 1)
  }

  /** The end of the match of `\n\s*\n` that starts at `i`, if one starts
      there: the greedy `\s*` makes it the longest such match. */
  function SeparatorAt(t: string, i: nat): (r: Option<nat>)
    requires i < |t|
    ensures r.Some? ==> SeparatorMatch(t, i, r.value)
    ensures r.Some? ==> forall e: nat :: SeparatorMatch(t, i, e) ==> e <= r.value
    ensures r.None? ==> forall e: nat :: !SeparatorMatch(t, i, e)
  {
    if t[i] != '\n' then None
    else
      var run := WsRunEnd(t, i + 1);
      var last := LastLineFeed(t, i + 1, run);
      assert forall e: nat :: SeparatorMatch(t, i, e) ==> e <= run && i + 1 <= e - 1 < run by {
        forall e: nat | SeparatorMatch(t, i, e) ensures e <= run && i + 1 <= e - 1 < run {
        }
      }
      match last
      case None => None
      case Some(q) =>
        assert Blank(t[i + 1..q]) by {
          assert forall p :: i + 1 <= p < q ==> t[p] == t[i + 1..run][p - (i + 1)];
        }
        Some(q + 1)
  }

  /** The parts of `t[from..]` that `split` produces, given that no match
      starts in `[from, i)`. */
  function SplitFrom(t: string, from: nat, i: nat): (parts: seq<string>)
    requires from <= i <= |t|
    ensures |parts| >= 1
    decreases |t| - i
  {
    if i == |t| then [t[from..]]
    else match SeparatorAt(t, i)
      case Some(e) => [t[from..i]] + SplitFrom(t, e, e)
      case None => SplitFrom(t, from, i + 1)
  }

  /** `t.split(/\n\s*\n/)`. */
  function RegexSplit(t: string): (parts: seq<string>)
    ensures |parts| >= 1
  {
    SplitFrom(t, 0, 0)
  }

  /** The separators the split removes, in order. */
  ghost function SeparatorsFrom(t: string, from: nat, i: nat): seq<string>
    requires from <= i <= |t|
    decreases |t| - i
  {
    if i == |t| then []
    else match SeparatorAt(t, i)
      case Some(e) => [t[i..e]] + SeparatorsFrom(t, e, e)
      case None => SeparatorsFrom(t, from, i + 1)
  }

  /** `parts[0] + seps[0] + parts[1] + … + parts[n]`. */
  ghost function Interleave(parts: seq<string>, seps: seq<string>): string
    requires |parts| == |seps| + 1
    decreases |seps|
  {
    if |seps| == 0 then parts[0]
    else parts[0] + seps[0] + Interleave(parts[1..], seps[1..])
  }

  /** The body paragraphs of a body text: the split parts, trimmed, with
      the empty ones dropped. */
  function ParagraphsOf(text: string): (paragraphs: seq<string>)
    ensures forall k :: 0 <= k < |paragraphs| ==> paragraphs[k] != ""
  {
    NonEmpty(TrimAll(RegexSplit(text)))
  }

  /** A match inside a slice is a match in the whole string. */
  lemma SliceMatch(s: string, lo: nat, hi: nat, a: nat, e: nat)
    requires lo <= hi <= |s|
    ensures SeparatorMatch(s[lo..hi], a, e) ==> SeparatorMatch(s, lo + a, lo + e)
  {
    if SeparatorMatch(s[lo..hi], a, e) {
      var u := s[lo..hi];
      forall p | lo + a + 1 <= p < lo + e - 1 ensures IsWs(s[p]) {
        assert s[p] == u[p - lo] == u[a + 1..e - 1][p - lo - a - 1];
      }
    }
  }

  /** The parts and the separators of a split rebuild the text, in order,
      and every separator is a line break, whitespace-only lines, and a
      line break. */
  lemma {:induction false} SplitReassembles(t: string, from: nat, i: nat)
    requires from <= i <= |t|
    ensures |SplitFrom(t, from, i)| == |SeparatorsFrom(t, from, i)| + 1
    ensures Interleave(SplitFrom(t, from, i), SeparatorsFrom(t, from, i)) == t[from..]
    ensures forall k :: 0 <= k < |SeparatorsFrom(t, from, i)| ==> IsSeparator(SeparatorsFrom(t, from, i)[k])
    decreases |t| - i
  {
    if i < |t| {
      match SeparatorAt(t, i)
      case Some(e) =>
        SplitReassembles(t, e, e);
        InterleaveCons(t[from..i], SplitFrom(t, e, e), t[i..e], SeparatorsFrom(t, e, e));
        ThreeSlices(t, from, i, e);
        MatchIsSeparator(t, i, e);
      case None =>
        SplitReassembles(t, from, i + 1);
    }
  }

  /** Interleaving with one more part and separator in front. */
  lemma InterleaveCons(p: string, parts: seq<string>, s: string, seps: seq<string>)
    requires |parts| == |seps| + 1
    ensures Interleave([p] + parts, [s] + seps) == p + s + Interleave(parts, seps)
  {
    assert ([p] + parts)[1..] == parts;
    assert ([s] + seps)[1..] == seps;
  }

  /** Two cut points split a suffix into three consecutive slices. */
  lemma ThreeSlices(t: string, from: nat, i: nat, e: nat)
    requires from <= i <= e <= |t|
    ensures t[from..] == t[from..i] + t[i..e] + t[e..]
  {
  }

  /** A match, cut out of the text, is a separator on its own. */
  lemma MatchIsSeparator(t: string, i: nat, e: nat)
    requires SeparatorMatch(t, i, e)
    ensures IsSeparator(t[i..e])
  {
    InnerOfMatch(t, i, e, t[i..e]);
  }

  /** The inside of a cut-out match is the inside of the match. */
  lemma InnerOfMatch(t: string, i: nat, e: nat, u: string)
    requires i + 2 <= e <= |t| && u == t[i..e]
    ensures u[1..|u| - 1] == t[i + 1..e - 1]
  {
    assert |u| == e - i;
    assert u[1..] == t[i + 1..e];
    assert u[1..][..|u| - 2] == u[1..|u| - 1];
  }

  /** No part of the split contains a separator: a part never spans a
      whitespace-only line. */
  lemma {:induction false} PartsHaveNoSeparator(t: string, from: nat, i: nat)
    requires from <= i <= |t|
    requires forall j :: from <= j < i ==> SeparatorAt(t, j).None?
    ensures forall k, a: nat, e: nat :: 0 <= k < |SplitFrom(t, from, i)| ==> !SeparatorMatch(SplitFrom(t, from, i)[k], a, e)
    decreases |t| - i
  {
    var parts := SplitFrom(t, from, i);
    if i == |t| {
      assert t[from..] == t[from..|t|];
      forall a: nat, e: nat ensures !SeparatorMatch(t[from..], a, e) {
        SliceMatch(t, from, |t|, a, e);
        if from + a < |t| {
          assert SeparatorAt(t, from + a).None?;
        }
      }
    } else {
      match SeparatorAt(t, i)
      case Some(e) =>
        PartsHaveNoSeparator(t, e, e);
        forall a: nat, e': nat ensures !SeparatorMatch(t[from..i], a, e') {
          SliceMatch(t, from, i, a, e');
          if from + a < i {
            assert SeparatorAt(t, from + a).None?;
          }
        }
        assert parts[1..] == SplitFrom(t, e, e);
      case None =>
        PartsHaveNoSeparator(t, from, i + 1);
    }
  }

  /** Every paragraph is non-empty, has no whitespace at either end, and
      contains no whitespace-only line. */
  lemma ParagraphsAreClean(text: string)
    ensures forall k :: 0 <= k < |ParagraphsOf(text)| ==>
      var p := ParagraphsOf(text)[k];
      p != "" && !IsWs(p[0]) && !IsWs(p[|p| - 1]) &&
      forall a: nat, e: nat :: !SeparatorMatch(p, a, e)
  {
    var parts := RegexSplit(text);
    PartsHaveNoSeparator(text, 0, 0);
    forall k | 0 <= k < |ParagraphsOf(text)|
      ensures var p := ParagraphsOf(text)[k];
        p != "" && !IsWs(p[0]) && !IsWs(p[|p| - 1]) &&
        forall a: nat, e: nat :: !SeparatorMatch(p, a, e)
    {
      var p := ParagraphsOf(text)[k];
      assert p in TrimAll(parts);
      var m :| 0 <= m < |parts| && p == Trim(parts[m]);
      var lo, hi := TrimIsInfix(parts[m]);
      TrimmedEnds(parts[m]);
      forall a: nat, e: nat ensures !SeparatorMatch(p, a, e) {
        SliceMatch(parts[m], lo, hi, a, e);
      }
    }
  }

  /** A text without a line feed is not split at all. */
  lemma SplitWithoutLineFeed(t: string)
    requires '\n' !in t
    ensures RegexSplit(t) == [t]
  {
    SplitFromWithoutLineFeed(t, 0, 0);
  }

  lemma {:induction false} SplitFromWithoutLineFeed(t: string, from: nat, i: nat)
    requires '\n' !in t
    requires from <= i <= |t|
    ensures SplitFrom(t, from, i) == [t[from..]]
    decreases |t| - i
  {
    if i < |t| {
      assert t[i] in t;
      SplitFromWithoutLineFeed(t, from, i + 1);
    }
  }
}
