/** String operations of the JavaScript runtime that the letter code relies on:
    `trim`, the `\s` character class, `toLowerCase`, `startsWith`,
    `split` on a single character and `join`. Strings are sequences of
    Unicode scalar values. */
module Text {

  /** The characters JavaScript's `trim` removes and `\s` matches: the
      WhiteSpace code points (TAB, VT, FF, SPACE, NBSP, ZWNBSP and every
      space separator) and the LineTerminator code points (LF, CR, LS, PS). */
  predicate IsWs(c: char) {
    var n := c as int;
    n == 0x09 || n == 0x0A || n == 0x0B || n == 0x0C || n == 0x0D ||
    n == 0x20 || n == 0xA0 || n == 0x1680 || (0x2000 <= n <= 0x200A) ||
    n == 0x2028 || n == 0x2029 || n == 0x202F || n == 0x205F ||
    n == 0x3000 || n == 0xFEFF
  }

  /** A whitespace-only string (the empty string included). */
  predicate Blank(s: string) {
    forall i :: 0 <= i < |s| ==> IsWs(s[i])
  }

  /** `s.trim()`: whitespace is removed from both ends. */
  function Trim(s: string): (r: string)
    ensures |r| <= |s|
    ensures r == [] <==> Blank(s)
    decreases |s|
  {
    if |s| > 0 && IsWs(s[0]) then
      var r := Trim(s[1..]);
      assert Blank(s[1..]) ==> Blank(s);
      r
    else if |s| > 0 && IsWs(s[|s| - 1]) then
      var r := Trim(s[..|s| - 1]);
      assert Blank(s[..|s| - 1]) ==> Blank(s);
      r
    else s
  }

  /** The trimmed string is the original string with a whitespace-only
      prefix and a whitespace-only suffix cut off. */
  lemma {:induction false} TrimIsInfix(s: string) returns (i: nat, j: nat)
    ensures i <= j <= |s| && Trim(s) == s[i..j]
    ensures Blank(s[..i]) && Blank(s[j..])
    decreases |s|
  {
    if |s| > 0 && IsWs(s[0]) {
      var i', j' := TrimIsInfix(s[1..]);
      i, j := i' + 1, j' + 1;
      BlankFront(s, i, j);
    } else if |s| > 0 && IsWs(s[|s| - 1]) {
      i, j := TrimIsInfix(s[..|s| - 1]);
      BlankBack(s, i, j);
    } else {
      i, j := 0, |s|;
      assert s[..0] == [] && s[|s|..] == [];
    }
  }

  /** Slices of `s[1..]` seen as slices of `s`, with the whitespace in front
      joining the blank head. */
  lemma BlankFront(s: string, i: nat, j: nat)
    requires 1 <= i <= j <= |s| && IsWs(s[0])
    requires Blank(s[1..][..i - 1]) && Blank(s[1..][j - 1..])
    ensures s[1..][i - 1..j - 1] == s[i..j]
    ensures Blank(s[..i]) && Blank(s[j..])
  {
    assert s[1..][j - 1..] == s[j..];
    assert forall k :: 1 <= k < i ==> s[..i][k] == s[1..][..i - 1][k - 1];
  }

  /** Slices of `s[..|s| - 1]` seen as slices of `s`, with the whitespace at
      the end joining the blank tail. */
  lemma BlankBack(s: string, i: nat, j: nat)
    requires i <= j <= |s| - 1 && IsWs(s[|s| - 1])
    requires Blank(s[..|s| - 1][..i]) && Blank(s[..|s| - 1][j..])
    ensures s[..|s| - 1][i..j] == s[i..j]
    ensures Blank(s[..i]) && Blank(s[j..])
  {
    assert s[..|s| - 1][..i] == s[..i];
    assert forall k :: 0 <= k < |s| - 1 - j ==> s[j..][k] == s[..|s| - 1][j..][k];
  }

  /** A trimmed string neither starts nor ends with whitespace. */
  lemma {:induction false} TrimmedEnds(s: string)
    ensures Trim(s) != [] ==> !IsWs(Trim(s)[0]) && !IsWs(Trim(s)[|Trim(s)| - 1])
    decreases |s|
  {
    if |s| > 0 && IsWs(s[0]) {
      TrimmedEnds(s[1..]);
    } else if |s| > 0 && IsWs(s[|s| - 1]) {
      TrimmedEnds(s[..|s| - 1]);
    }
  }

  /** Trimming twice is trimming once. */
  lemma TrimIdempotent(s: string)
    ensures Trim(Trim(s)) == Trim(s)
  {
    TrimmedEnds(s);
    TrimOfTrimmed(Trim(s));
  }

  /** A string without whitespace at either end is its own trim. */
  lemma TrimOfTrimmed(s: string)
    requires s == [] || (!IsWs(s[0]) && !IsWs(s[|s| - 1]))
    ensures Trim(s) == s
  {
  }

  /** ASCII approximation of `toLowerCase` on one character. */
  function LowerChar(c: char): (r: char)
    ensures 'A' <= c <= 'Z' ==> r as int == c as int + 32
    ensures !('A' <= c <= 'Z') ==> r == c
  {
    if 'A' <= c <= 'Z' then (c as int + 32) as char else c
  }

  /** ASCII approximation of `s.toLowerCase()`. */
  function Lower(s: string): (r: string)
    ensures |r| == |s|
    ensures forall i :: 0 <= i < |s| ==> r[i] == LowerChar(s[i])
  {
    seq(|s|, i requires 0 <= i < |s| => LowerChar(s[i]))
  }

  /** `s.startsWith(p)`. */
  predicate StartsWith(s: string, p: string) {
    |p| <= |s| && s[..|p|] == p
  }

  /** `s.endsWith(p)`. */
  predicate EndsWith(s: string, p: string) {
    |p| <= |s| && s[|s| - |p|..] == p
  }

  /** `s.split(sep)` for a one-character separator: always at least one
      part, and no part contains the separator. */
  function Split(s: string, sep: char): (parts: seq<string>)
    ensures |parts| >= 1
    ensures forall k :: 0 <= k < |parts| ==> sep !in parts[k]
    decreases |s|
  {
    if |s| == 0 then [""]
    else
      var rest := Split(s[1..], sep);
      if s[0] == sep then [""] + rest
      else [[s[0]] + rest[0]] + rest[1..]
  }

  /** `parts.join(sep)` for a one-character separator. */
  function Join(parts: seq<string>, sep: char): string
    decreases |parts|
  {
    if |parts| == 0 then ""
    else if |parts| == 1 then parts[0]
    else parts[0] + [sep] + Join(parts[1..], sep)
  }

  /** Joining the parts of a split gives back the original string. */
  lemma {:induction false} JoinSplit(s: string, sep: char)
    ensures Join(Split(s, sep), sep) == s
    decreases |s|
  {
    if |s| > 0 {
      var rest := Split(s[1..], sep);
      JoinSplit(s[1..], sep);
      if s[0] == sep {
        assert s == [sep] + s[1..];
      } else if |rest| == 1 {
        assert s == [s[0]] + s[1..];
      } else {
        assert Join(rest, sep) == rest[0] + [sep] + Join(rest[1..], sep);
        assert s == [s[0]] + s[1..];
      }
    }
  }

  /** Splitting a join of separator-free parts gives back the parts. */
  lemma {:induction false} SplitJoin(parts: seq<string>, sep: char)
    requires |parts| >= 1
    requires forall k :: 0 <= k < |parts| ==> sep !in parts[k]
    ensures Split(Join(parts, sep), sep) == parts
    decreases |parts|
  {
    if |parts| == 1 {
      SplitNoSep(parts[0], sep);
    } else {
      SplitJoin(parts[1..], sep);
      SplitPrefix(parts[0], sep, Join(parts[1..], sep));
      assert [parts[0]] + parts[1..] == parts;
    }
  }

  /** A string without the separator splits into itself alone. */
  lemma {:induction false} SplitNoSep(s: string, sep: char)
    requires sep !in s
    ensures Split(s, sep) == [s]
    decreases |s|
  {
    if |s| > 0 {
      SplitNoSep(s[1..], sep);
      assert [s[0]] + s[1..] == s;
    }
  }

  /** Splitting `a + sep + b`, where `a` has no separator, yields `a`
      followed by the parts of `b`. */
  lemma {:induction false} SplitPrefix(a: string, sep: char, b: string)
    requires sep !in a
    ensures Split(a + [sep] + b, sep) == [a] + Split(b, sep)
    decreases |a|
  {
    if |a| == 0 {
      assert a + [sep] + b == [sep] + b;
      assert ([sep] + b)[1..] == b;
    } else {
      SplitPrefix(a[1..], sep, b);
      assert (a + [sep] + b)[1..] == a[1..] + [sep] + b;
      assert [a[0]] + a[1..] == a;
    }
  }

  /** A string splits into two or more parts exactly when it contains the
      separator. */
  lemma SplitCountsSeparator(s: string, sep: char)
    ensures |Split(s, sep)| >= 2 <==> sep in s
  {
    if sep in s {
      var i :| 0 <= i < |s| && s[i] == sep;
      var k := FirstIndex(s, sep, i);
      assert s == s[..k] + [sep] + s[k + 1..];
      SplitPrefix(s[..k], sep, s[k + 1..]);
    } else {
      SplitNoSep(s, sep);
    }
  }

  /** The position of the first occurrence of `c` in `s`, given that some
      position `i` holds it. */
  lemma FirstIndex(s: string, c: char, i: nat) returns (k: nat)
    requires i < |s| && s[i] == c
    ensures k <= i && s[k] == c && c !in s[..k]
  {
    k := 0;
    while s[k] != c
      invariant k <= i && c !in s[..k]
      decreases i - k
    {
      k := k + 1;
    }
  }

  /** Whitespace in front of a string is trimmed away. */
  lemma {:induction false} TrimLeading(a: string, t: string)
    requires Blank(a)
    ensures Trim(a + t) == Trim(t)
    decreases |a|
  {
    if |a| > 0 {
      assert (a + t)[1..] == a[1..] + t;
      TrimLeading(a[1..], t);
    } else {
      assert a + t == t;
    }
  }

  /** Whitespace after a string is trimmed away. */
  lemma {:induction false} TrimTrailing(t: string, b: string)
    requires Blank(b)
    ensures Trim(t + b) == Trim(t)
    decreases |t| + |b|
  {
    if |b| == 0 {
      assert t + b == t;
    } else if |t| == 0 {
      assert t + b == b;
    } else if IsWs(t[0]) {
      assert (t + b)[1..] == t[1..] + b;
      TrimTrailing(t[1..], b);
    } else {
      assert (t + b)[..|t + b| - 1] == t + b[..|b| - 1];
      TrimTrailing(t, b[..|b| - 1]);
    }
  }

  /** Whitespace on both sides of a string is trimmed away. */
  lemma TrimAround(a: string, t: string, b: string)
    requires Blank(a) && Blank(b)
    ensures Trim(a + t + b) == Trim(t)
  {
    assert a + t + b == a + (t + b);
    TrimLeading(a, t + b);
    TrimTrailing(t, b);
  }

  /** `lines.map((l) => l.trim())`. */
  function TrimAll(lines: seq<string>): (r: seq<string>)
    ensures |r| == |lines|
    ensures forall k :: 0 <= k < |r| ==> r[k] == Trim(lines[k])
  {
    seq(|lines|, k requires 0 <= k < |lines| => Trim(lines[k]))
  }

  /** `parts.filter(Boolean)`: the non-empty parts, in order. */
  function NonEmpty(parts: seq<string>): (r: seq<string>)
    ensures |r| <= |parts|
    ensures forall k :: 0 <= k < |r| ==> r[k] != [] && r[k] in parts
    decreases |parts|
  {
    if |parts| == 0 then []
    else if parts[0] == [] then NonEmpty(parts[1..])
    else [parts[0]] + NonEmpty(parts[1..])
  }

  /** Trimming and filtering a list that starts with `x` handles `x` first
      and the rest after it. */
  lemma NonEmptyTrimAllCons(x: string, rest: seq<string>)
    ensures NonEmpty(TrimAll([x] + rest)) ==
      (if Trim(x) == "" then [] else [Trim(x)]) + NonEmpty(TrimAll(rest))
  {
    assert TrimAll([x] + rest)[1..] == TrimAll(rest);
  }

  /** Trimming and filtering whitespace-only lines leaves nothing. */
  lemma {:induction false} NonEmptyTrimAllBlank(lines: seq<string>)
    requires forall k :: 0 <= k < |lines| ==> Blank(lines[k])
    ensures NonEmpty(TrimAll(lines)) == []
    decreases |lines|
  {
    if |lines| > 0 {
      NonEmptyTrimAllBlank(lines[1..]);
      NonEmptyTrimAllCons(lines[0], lines[1..]);
      assert [lines[0]] + lines[1..] == lines;
    }
  }

  /** A trimmed string is a piece of the original, so it holds no character
      the original lacks. */
  lemma TrimKeepsOut(s: string, c: char)
    requires c !in s
    ensures c !in Trim(s)
  {
    var i, j := TrimIsInfix(s);
    assert forall k :: 0 <= k < j - i ==> Trim(s)[k] == s[i + k];
  }

  /** A join of one or more parts starts with the first part. */
  lemma JoinStartsWithFirst(parts: seq<string>, sep: char)
    requires |parts| >= 1
    ensures StartsWith(Join(parts, sep), parts[0])
  {
    var j := Join(parts, sep);
    if |parts| > 1 {
      assert j[..|parts[0]|] == parts[0];
    }
  }
}
