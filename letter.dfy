/** The letter content parser of src/components/LetterDisplay.tsx: the date
    and seal scans of `LetterDisplay` and the greeting / postscript /
    closing / paragraph segmentation of `parseLetterContent`.

    Each scan is a method with the source's loop, proved equal to a
    specification function; the properties of the segmentation are lemmas
    about those functions. */
module LetterParser {
  import opened Wrappers
  import opened Text
  import opened Paragraphs

  // ---------------------------------------------------------------------
  // Prefix tables (lines 5-22)
  // ---------------------------------------------------------------------

  const GreetingPrefixes: seq<string> := [
    "亲爱的", "最亲爱的", "挚爱的", "宝贝", "我最爱的", "我的", "致",
    "亲", "心爱的", "想念的",
    "dear", "my", "to", "dearest", "beloved", "darling"
  ]

  const ClosingKeywords: seq<string> := [
    "爱你的", "永远爱你的", "永远爱你", "你的", "想你的", "深爱你的",
    "此致", "敬上", "爱你", "挚爱", "永远的", "思念你的",
    "最爱你的", "你永远的", "深深爱你的",
    "love,", "yours,", "forever,", "always,", "with love,"
  ]

  const PsPrefixes: seq<string> := ["附言", "附：", "p.s.", "ps.", "ps:", "p.s"]

  /** The seal shown when the letter has no line after its date line. */
  const DefaultSeal: string := "爱"

  /** The three prefix tables the parser consults. */
  datatype Tables = Tables(greetings: seq<string>, closings: seq<string>, postscripts: seq<string>)

  /** The tables of the letter page. */
  const Standard: Tables := Tables(GreetingPrefixes, ClosingKeywords, PsPrefixes)

  /** Every entry of every table is a non-empty string. */
  predicate NoEmptyEntry(tb: Tables) {
    (forall k :: 0 <= k < |tb.greetings| ==> tb.greetings[k] != "") &&
    (forall k :: 0 <= k < |tb.closings| ==> tb.closings[k] != "") &&
    (forall k :: 0 <= k < |tb.postscripts| ==> tb.postscripts[k] != "")
  }

  /** The three tables of the component have no empty entry, so the
      lemmas below that ask for it hold of the parser as shipped. */
  lemma StandardHasNoEmptyEntry()
    ensures NoEmptyEntry(Standard)
  {
  }

  /** `table.some((p) => lower.startsWith(p.toLowerCase()) || trimmed.startsWith(p))`,
      the test used for greetings and closings, entry by entry. */
  predicate MatchesFolded(trimmed: string, lower: string, table: seq<string>)
    decreases |table|
  {
    |table| > 0 &&
    (StartsWith(lower, Lower(table[0])) || StartsWith(trimmed, table[0]) ||
     MatchesFolded(trimmed, lower, table[1..]))
  }

  /** `table.some((p) => lower.startsWith(p) || trimmed.startsWith(p))`,
      the test used for postscripts (the prefix itself is not lowered). */
  predicate MatchesLowered(trimmed: string, lower: string, table: seq<string>)
    decreases |table|
  {
    |table| > 0 &&
    (StartsWith(lower, table[0]) || StartsWith(trimmed, table[0]) ||
     MatchesLowered(trimmed, lower, table[1..]))
  }

  predicate IsGreeting(trimmed: string, tb: Tables) {
    MatchesFolded(trimmed, Lower(trimmed), tb.greetings)
  }

  predicate IsClosing(trimmed: string, tb: Tables) {
    MatchesFolded(trimmed, Lower(trimmed), tb.closings)
  }

  predicate IsPs(trimmed: string, tb: Tables) {
    MatchesLowered(trimmed, Lower(trimmed), tb.postscripts)
  }

  /** The recursive table tests are JavaScript's `some`: a line matches
      exactly when it matches some entry of the table. */
  lemma {:induction false} MatchesFoldedSome(trimmed: string, lower: string, table: seq<string>)
    ensures MatchesFolded(trimmed, lower, table) <==>
      exists k :: 0 <= k < |table| &&
        (StartsWith(lower, Lower(table[k])) || StartsWith(trimmed, table[k]))
    decreases |table|
  {
    if |table| > 0 {
      MatchesFoldedSome(trimmed, lower, table[1..]);
      if MatchesFolded(trimmed, lower, table[1..]) {
        var k :| 0 <= k < |table[1..]| &&
          (StartsWith(lower, Lower(table[1..][k])) || StartsWith(trimmed, table[1..][k]));
        assert table[1..][k] == table[k + 1];
      }
      if exists k :: 1 <= k < |table| &&
          (StartsWith(lower, Lower(table[k])) || StartsWith(trimmed, table[k])) {
        var k :| 1 <= k < |table| &&
          (StartsWith(lower, Lower(table[k])) || StartsWith(trimmed, table[k]));
        assert table[1..][k - 1] == table[k];
      }
    }
  }

  lemma {:induction false} MatchesLoweredSome(trimmed: string, lower: string, table: seq<string>)
    ensures MatchesLowered(trimmed, lower, table) <==>
      exists k :: 0 <= k < |table| &&
        (StartsWith(lower, table[k]) || StartsWith(trimmed, table[k]))
    decreases |table|
  {
    if |table| > 0 {
      MatchesLoweredSome(trimmed, lower, table[1..]);
      if MatchesLowered(trimmed, lower, table[1..]) {
        var k :| 0 <= k < |table[1..]| &&
          (StartsWith(lower, table[1..][k]) || StartsWith(trimmed, table[1..][k]));
        assert table[1..][k] == table[k + 1];
      }
      if exists k :: 1 <= k < |table| &&
          (StartsWith(lower, table[k]) || StartsWith(trimmed, table[k])) {
        var k :| 1 <= k < |table| &&
          (StartsWith(lower, table[k]) || StartsWith(trimmed, table[k]));
        assert table[1..][k - 1] == table[k];
      }
    }
  }

  /** A line that starts with an entry of the table matches the table. */
  lemma MatchesFoldedEntry(trimmed: string, lower: string, table: seq<string>, k: nat)
    requires k < |table| && StartsWith(trimmed, table[k])
    ensures MatchesFolded(trimmed, lower, table)
  {
    MatchesFoldedSome(trimmed, lower, table);
  }

  lemma MatchesLoweredEntry(trimmed: string, lower: string, table: seq<string>, k: nat)
    requires k < |table| && StartsWith(trimmed, table[k])
    ensures MatchesLowered(trimmed, lower, table)
  {
    MatchesLoweredSome(trimmed, lower, table);
  }

  /** The empty line starts with no entry of a table of non-empty entries. */
  lemma {:induction false} EmptyMatchesNoEntry(table: seq<string>)
    requires forall k :: 0 <= k < |table| ==> table[k] != ""
    ensures !MatchesFolded("", "", table) && !MatchesLowered("", "", table)
    decreases |table|
  {
    if |table| > 0 {
      EmptyMatchesNoEntry(table[1..]);
    }
  }

  /** With no empty table entry, a blank line is never a greeting, a
      closing or a postscript. */
  lemma EmptyMatchesNothing(tb: Tables)
    requires NoEmptyEntry(tb)
    ensures !IsGreeting("", tb) && !IsClosing("", tb) && !IsPs("", tb)
  {
    assert Lower("") == "";
    EmptyMatchesNoEntry(tb.greetings);
    EmptyMatchesNoEntry(tb.closings);
    EmptyMatchesNoEntry(tb.postscripts);
  }

  // ---------------------------------------------------------------------
  // The parsed letter
  // ---------------------------------------------------------------------

  /** What `parseLetterContent` returns. */
  datatype Content = Content(greeting: string, paragraphs: seq<string>, closing: string, ps: string)

  /** What `LetterDisplay` renders. */
  datatype Letter = Letter(date: string, greeting: string, paragraphs: seq<string>,
                           closing: string, ps: string, seal: string)

  // ---------------------------------------------------------------------
  // Line scans, as specification functions
  // ---------------------------------------------------------------------

  /** The index of the first non-blank line, or `|lines|` when every line
      is blank. */
  function FirstNonBlank(lines: seq<string>): (k: nat)
    ensures k <= |lines|
    ensures k < |lines| ==> !Blank(lines[k])
    decreases |lines|
  {
    if |lines| == 0 || !Blank(lines[0]) then 0
    else 1 + FirstNonBlank(lines[1..])
  }

  /** Every line before the first non-blank one is blank. */
  lemma {:induction false} FirstNonBlankSpec(lines: seq<string>)
    ensures forall j :: 0 <= j < FirstNonBlank(lines) ==> Blank(lines[j])
    decreases |lines|
  {
    if |lines| > 0 && Blank(lines[0]) {
      FirstNonBlankSpec(lines[1..]);
      assert forall j :: 1 <= j < FirstNonBlank(lines) ==> lines[j] == lines[1..][j - 1];
    }
  }

  /** The greatest index at or after `lo` whose line is not blank. */
  function LastNonBlank(lines: seq<string>, lo: nat): (r: Option<nat>)
    ensures r.Some? ==> lo <= r.value < |lines| && !Blank(lines[r.value])
    decreases |lines|
  {
    if |lines| <= lo then None
    else if !Blank(lines[|lines| - 1]) then Some(|lines| - 1)
    else LastNonBlank(lines[..|lines| - 1], lo)
  }

  /** The lines after the last non-blank one are blank; with none, every
      line from `lo` on is blank. */
  lemma {:induction false} LastNonBlankSpec(lines: seq<string>, lo: nat)
    ensures LastNonBlank(lines, lo).Some? ==>
      forall j :: LastNonBlank(lines, lo).value < j < |lines| ==> Blank(lines[j])
    ensures LastNonBlank(lines, lo).None? ==> forall j :: lo <= j < |lines| ==> Blank(lines[j])
    decreases |lines|
  {
    if |lines| > lo && Blank(lines[|lines| - 1]) {
      LastNonBlankSpec(lines[..|lines| - 1], lo);
    }
  }

  /** The greatest index whose trimmed line starts with a closing keyword. */
  function LastClosing(lines: seq<string>, tb: Tables): (r: Option<nat>)
    ensures r.Some? ==> r.value < |lines| && IsClosing(Trim(lines[r.value]), tb)
    decreases |lines|
  {
    if |lines| == 0 then None
    else if IsClosing(Trim(lines[|lines| - 1]), tb) then Some(|lines| - 1)
    else LastClosing(lines[..|lines| - 1], tb)
  }

  /** No line after the last closing line starts with a closing keyword;
      with no closing line, no line does. */
  lemma {:induction false} LastClosingSpec(lines: seq<string>, tb: Tables)
    ensures LastClosing(lines, tb).Some? ==>
      forall j :: LastClosing(lines, tb).value < j < |lines| ==> !IsClosing(Trim(lines[j]), tb)
    ensures LastClosing(lines, tb).None? ==>
      forall j :: 0 <= j < |lines| ==> !IsClosing(Trim(lines[j]), tb)
    decreases |lines|
  {
    if |lines| > 0 && !IsClosing(Trim(lines[|lines| - 1]), tb) {
      var init := lines[..|lines| - 1];
      assert forall j :: 0 <= j < |init| ==> init[j] == lines[j];
      LastClosingSpec(init, tb);
    }
  }

  /** A closing line with no closing line after it is the last one. */
  lemma {:induction false} LastClosingAt(lines: seq<string>, tb: Tables, i: nat)
    requires i < |lines| && IsClosing(Trim(lines[i]), tb)
    requires forall j :: i < j < |lines| ==> !IsClosing(Trim(lines[j]), tb)
    ensures LastClosing(lines, tb) == Some(i)
    decreases |lines|
  {
    if i < |lines| - 1 {
      var init := lines[..|lines| - 1];
      assert forall j :: i < j < |init| ==> init[j] == lines[j];
      LastClosingAt(init, tb, i);
    }
  }

  /** The trimmed non-blank lines from index `i` on: line `i`, trimmed,
      when it is not blank, then those from `i + 1` on. */
  lemma TrimmedLinesFrom(lines: seq<string>, i: nat)
    requires i < |lines|
    ensures Trim(lines[i]) == "" ==> NonEmpty(TrimAll(lines[i..])) == NonEmpty(TrimAll(lines[i + 1..]))
    ensures Trim(lines[i]) != "" ==>
      NonEmpty(TrimAll(lines[i..])) == [Trim(lines[i])] + NonEmpty(TrimAll(lines[i + 1..]))
  {
    assert TrimAll(lines[i..])[1..] == TrimAll(lines[i + 1..]);
  }

  /** The greeting and the index where the rest of the letter starts
      (lines 31-44). Only the first non-blank line can be the greeting; when
      it is not one, no non-blank line is skipped. */
  function GreetingSplit(lines: seq<string>, tb: Tables): (r: (string, nat))
    ensures r.1 <= |lines|
    ensures r.0 != "" ==> 1 <= r.1 && r.0 == Trim(lines[r.1 - 1]) && IsGreeting(r.0, tb)
    ensures r.0 == "" && r.1 < |lines| ==> !Blank(lines[r.1]) && !IsGreeting(Trim(lines[r.1]), tb)
  {
    var f := FirstNonBlank(lines);
    if f < |lines| && IsGreeting(Trim(lines[f]), tb) then (Trim(lines[f]), f + 1) else ("", f)
  }

  /** The lines skipped before the greeting, or before the first line of
      the body when there is no greeting, are blank. */
  lemma GreetingSplitSpec(lines: seq<string>, tb: Tables)
    ensures var r := GreetingSplit(lines, tb);
      r.0 != "" ==> forall j :: 0 <= j < r.1 - 1 ==> Blank(lines[j])
    ensures var r := GreetingSplit(lines, tb);
      r.0 == "" ==> forall j :: 0 <= j < r.1 ==> Blank(lines[j])
  {
    FirstNonBlankSpec(lines);
  }

  /** The last line the postscript scan stops at (lines 49-59): the
      greatest index whose trimmed line is non-empty or starts with a
      postscript prefix. */
  function LastDecisive(lines: seq<string>, tb: Tables): (r: Option<nat>)
    ensures r.Some? ==>
      r.value < |lines| && (Trim(lines[r.value]) != "" || IsPs(Trim(lines[r.value]), tb))
    decreases |lines|
  {
    if |lines| == 0 then None
    else
      var t := Trim(lines[|lines| - 1]);
      if t != "" || IsPs(t, tb) then Some(|lines| - 1)
      else LastDecisive(lines[..|lines| - 1], tb)
  }

  /** The postscript scan passes over blank lines that do not start with a
      postscript prefix, and only over those. */
  lemma {:induction false} LastDecisiveSpec(lines: seq<string>, tb: Tables)
    ensures LastDecisive(lines, tb).Some? ==>
      forall j :: LastDecisive(lines, tb).value < j < |lines| ==>
        Trim(lines[j]) == "" && !IsPs(Trim(lines[j]), tb)
    ensures LastDecisive(lines, tb).None? ==>
      forall j :: 0 <= j < |lines| ==> Trim(lines[j]) == "" && !IsPs(Trim(lines[j]), tb)
    decreases |lines|
  {
    if |lines| > 0 {
      var t := Trim(lines[|lines| - 1]);
      if !(t != "" || IsPs(t, tb)) {
        LastDecisiveSpec(lines[..|lines| - 1], tb);
      }
    }
  }

  /** Where the postscript starts (lines 46-59): the line the scan stops
      at, when it starts with a postscript prefix. */
  function PsStart(lines: seq<string>, tb: Tables): (r: Option<nat>)
    ensures r.Some? ==> r.value < |lines| && IsPs(Trim(lines[r.value]), tb)
  {
    match LastDecisive(lines, tb)
    case Some(k) => if IsPs(Trim(lines[k]), tb) then Some(k) else None
    case None => None
  }

  /** The intermediate line lists of `parseLetterContent`. */
  datatype Segments = Segments(greeting: string, startIdx: nat, remaining: seq<string>,
                               beforePs: seq<string>, psLines: seq<string>,
                               bodyLines: seq<string>, closingLines: seq<string>)

  /** The segmentation of the lines of the letter's interior. */
  function Segment(lines: seq<string>, tb: Tables): (s: Segments)
    ensures s.startIdx <= |lines|
  {
    var (greeting, startIdx) := GreetingSplit(lines, tb);
    var remaining := lines[startIdx..];
    var ps := PsStart(remaining, tb);
    var beforePs := if ps.Some? then remaining[..ps.value] else remaining;
    var psLines := if ps.Some? then remaining[ps.value..] else [];
    var closing := LastClosing(beforePs, tb);
    var bodyLines := if closing.Some? then beforePs[..closing.value] else beforePs;
    var closingLines := if closing.Some? then beforePs[closing.value..] else [];
    Segments(greeting, startIdx, remaining, beforePs, psLines, bodyLines, closingLines)
  }

  /** `lines.map((l) => l.trim()).filter(Boolean).join('\n')` (lines 103-104). */
  function JoinTrimmed(lines: seq<string>): string {
    Join(NonEmpty(TrimAll(lines)), '\n')
  }

  /** The body paragraphs (lines 94-98). */
  function BodyParagraphs(bodyLines: seq<string>): seq<string> {
    ParagraphsOf(Trim(Join(bodyLines, '\n')))
  }

  /** `parseLetterContent` on the lines of its argument. */
  function ParseLines(lines: seq<string>, tb: Tables): Content {
    var s := Segment(lines, tb);
    Content(s.greeting, BodyParagraphs(s.bodyLines), JoinTrimmed(s.closingLines), JoinTrimmed(s.psLines))
  }

  /** `parseLetterContent(content)`. */
  function ParseContent(content: string, tb: Tables): Content {
    ParseLines(Split(content, '\n'), tb)
  }

  // ---------------------------------------------------------------------
  // The date line (lines 108-117)
  // ---------------------------------------------------------------------

  predicate IsDigit(c: char) {
    '0' <= c <= '9'
  }

  predicate AllDigits(s: string) {
    forall i :: 0 <= i < |s| ==> IsDigit(s[i])
  }

  /** `parseInt(s, 10)` on a string of ASCII digits. */
  function DecimalValue(s: string): nat
    requires AllDigits(s)
    decreases |s|
  {
    if |s| == 0 then 0
    else DecimalValue(s[..|s| - 1]) * 10 + (s[|s| - 1] as int - '0' as int)
  }

  function DigitChar(d: nat): (c: char)
    requires d < 10
    ensures IsDigit(c) && c as int - '0' as int == d
  {
    ('0' as int + d) as char
  }

  /** A number in a template literal: its decimal digits without leading
      zeros. */
  function ShowNat(n: nat): (r: string)
    ensures |r| >= 1 && AllDigits(r)
    ensures r[0] == '0' ==> r == "0"
    decreases n
  {
    if n < 10 then [DigitChar(n)] else ShowNat(n / 10) + [DigitChar(n % 10)]
  }

  /** Reading the decimal form of a number gives the number back. */
  lemma {:induction false} ShowNatValue(n: nat)
    ensures DecimalValue(ShowNat(n)) == n
    decreases n
  {
    if n >= 10 {
      ShowNatValue(n / 10);
      var r := ShowNat(n);
      assert r[..|r| - 1] == ShowNat(n / 10);
    }
  }

  /** `/^(\d{4})(\d{2})(\d{2})$/`: exactly eight ASCII digits. */
  predicate IsDateStamp(t: string) {
    |t| == 8 && AllDigits(t)
  }

  /** `parseDateLine`: an eight-digit stamp `YYYYMMDD` becomes
      `Y年M月D日` with each number written without leading zeros and
      without a range check; any other line is returned trimmed. */
  function ParseDateLine(line: string): (r: string)
    ensures !IsDateStamp(Trim(line)) ==> r == Trim(line)
    ensures r == "" <==> Trim(line) == ""
  {
    var t := Trim(line);
    if IsDateStamp(t) then
      ShowNat(DecimalValue(t[..4])) + "年" + ShowNat(DecimalValue(t[4..6])) + "月" +
      ShowNat(DecimalValue(t[6..])) + "日"
    else t
  }

  /** `n` written with exactly `w` digits, zero-padded on the left. */
  function Padded(n: nat, w: nat): (r: string)
    ensures |r| == w && AllDigits(r)
  {
    if w == 0 then [] else Padded(n / 10, w - 1) + [DigitChar(n % 10)]
  }

  function Pow10(w: nat): (p: nat)
    ensures p >= 1
  {
    if w == 0 then 1 else 10 * Pow10(w - 1)
  }

  /** Reading a zero-padded number gives the number back. */
  lemma {:induction false} PaddedValue(n: nat, w: nat)
    requires n < Pow10(w)
    ensures DecimalValue(Padded(n, w)) == n
  {
    if w > 0 {
      PaddedValue(n / 10, w - 1);
      var r := Padded(n, w);
      assert r[..|r| - 1] == Padded(n / 10, w - 1);
    }
  }

  /** A date stamp is read field by field. */
  lemma DateStampFields(line: string)
    requires IsDateStamp(line)
    ensures ParseDateLine(line) ==
      ShowNat(DecimalValue(line[..4])) + "年" + ShowNat(DecimalValue(line[4..6])) + "月" +
      ShowNat(DecimalValue(line[6..])) + "日"
  {
    assert IsDigit(line[0]) && IsDigit(line[7]);
    TrimOfTrimmed(line);
  }

  /** A date stamp written with zero-padded year, month and day is read
      back as those three numbers, in order, without padding; the month
      and day are not range-checked. */
  lemma DateStampReadsBack(y: nat, m: nat, d: nat, line: string)
    requires y < 10000 && m < 100 && d < 100
    requires line == Padded(y, 4) + Padded(m, 2) + Padded(d, 2)
    ensures ParseDateLine(line) == ShowNat(y) + "年" + ShowNat(m) + "月" + ShowNat(d) + "日"
  {
    assert DecimalValue(line[..4]) == y && DecimalValue(line[4..6]) == m &&
        DecimalValue(line[6..]) == d by {
      assert Pow10(4) == 10000 && Pow10(2) == 100;
      PaddedValue(y, 4);
      PaddedValue(m, 2);
      PaddedValue(d, 2);
      assert line[..4] == Padded(y, 4);
      assert line[4..6] == Padded(m, 2);
      assert line[6..] == Padded(d, 2);
    }
    assert IsDateStamp(line) by {
      var a, b, c := Padded(y, 4), Padded(m, 2), Padded(d, 2);
      forall i | 0 <= i < |line| ensures IsDigit(line[i]) {
        if i < 4 { assert line[i] == a[i]; }
        else if i < 6 { assert line[i] == b[i - 4]; }
        else { assert line[i] == c[i - 6]; }
      }
    }
    DateStampFields(line);
  }

  // ---------------------------------------------------------------------
  // The letter (lines 119-148)
  // ---------------------------------------------------------------------

  /** The date scan (lines 123-133): the first non-blank line, read as a
      date, and `startLine`, one past it; with no such line, no date and
      `startLine` at the end. */
  function DateScan(allLines: seq<string>): (r: (string, nat))
    ensures r.1 <= |allLines|
    ensures r == ("", |allLines|) ||
      (1 <= r.1 && !Blank(allLines[r.1 - 1]) && r.0 == ParseDateLine(allLines[r.1 - 1]))
  {
    var f := FirstNonBlank(allLines);
    if f < |allLines| then
      TrimIdempotent(allLines[f]);
      (ParseDateLine(Trim(allLines[f])), f + 1)
    else ("", |allLines|)
  }

  /** The date line is the first non-blank line, and there is no date only
      when every line is blank. */
  lemma DateScanSpec(allLines: seq<string>)
    ensures var r := DateScan(allLines);
      forall j :: 0 <= j < r.1 - 1 ==> Blank(allLines[j])
    ensures var r := DateScan(allLines);
      r.0 == "" <==> forall j :: 0 <= j < |allLines| ==> Blank(allLines[j])
  {
    FirstNonBlankSpec(allLines);
    var f := FirstNonBlank(allLines);
    if f < |allLines| {
      var r := DateScan(allLines);
      TrimIdempotent(allLines[f]);
      assert r.0 == ParseDateLine(Trim(allLines[f]));
    }
  }

  /** The seal scan (lines 135-145): the last non-blank line at or after
      `startLine`, trimmed, and `endLine`, its index; with no such line, the
      default seal and `endLine` at the end. */
  function SealScan(allLines: seq<string>, startLine: nat): (r: (string, nat))
    requires startLine <= |allLines|
    ensures startLine <= r.1 <= |allLines|
    ensures r.1 < |allLines| ==> r.0 == Trim(allLines[r.1]) && r.0 != ""
    ensures r.1 == |allLines| ==> r.0 == DefaultSeal
  {
    match LastNonBlank(allLines, startLine)
    case Some(k) => (Trim(allLines[k]), k)
    case None => (DefaultSeal, |allLines|)
  }

  /** Only blank lines follow the seal line; with no seal line, every line
      from `startLine` on is blank. */
  lemma SealScanSpec(allLines: seq<string>, startLine: nat)
    requires startLine <= |allLines|
    ensures var r := SealScan(allLines, startLine);
      forall j :: r.1 < j < |allLines| ==> Blank(allLines[j])
    ensures var r := SealScan(allLines, startLine);
      r.1 == |allLines| ==> forall j :: startLine <= j < |allLines| ==> Blank(allLines[j])
  {
    LastNonBlankSpec(allLines, startLine);
  }

  /** What `LetterDisplay` renders for `content`. */
  function LetterOf(content: string): Letter {
    var allLines := Split(content, '\n');
    var (date, startLine) := DateScan(allLines);
    var (seal, endLine) := SealScan(allLines, startLine);
    var c := ParseContent(Join(allLines[startLine..endLine], '\n'), Standard);
    Letter(date, c.greeting, c.paragraphs, c.closing, c.ps, seal)
  }

  // ---------------------------------------------------------------------
  // Properties of the segmentation
  // ---------------------------------------------------------------------

  /** The cuts are complementary slices: the skipped head and the remaining
      lines make up the input, the part before the postscript and the
      postscript make up the remaining lines, and the body and the closing
      make up the part before the postscript. */
  lemma SegmentsPartition(lines: seq<string>, tb: Tables)
    ensures var s := Segment(lines, tb);
      lines[..s.startIdx] + s.remaining == lines &&
      s.beforePs + s.psLines == s.remaining &&
      s.bodyLines + s.closingLines == s.beforePs
  {
    var s := Segment(lines, tb);
    CutAt(lines, Some(s.startIdx));
    CutAt(s.remaining, PsStart(s.remaining, tb));
    CutAt(s.beforePs, LastClosing(s.beforePs, tb));
  }

  /** Cutting a list at an optional index, the whole list going to the
      front when there is none, loses and adds nothing. */
  lemma CutAt(xs: seq<string>, o: Option<nat>)
    requires o.Some? ==> o.value <= |xs|
    ensures (if o.Some? then xs[..o.value] else xs) + (if o.Some? then xs[o.value..] else []) == xs
  {
    if o.Some? {
      assert xs[..o.value] + xs[o.value..] == xs;
    }
  }

  /** When no table entry is empty, the postscript scan decides on the last
      non-blank line alone: that line starts the postscript when it starts
      with a postscript prefix, and otherwise there is none. */
  lemma PsStartIsLastNonBlank(lines: seq<string>, tb: Tables)
    requires NoEmptyEntry(tb)
    ensures PsStart(lines, tb) ==
      match LastNonBlank(lines, 0)
      case Some(k) => if IsPs(Trim(lines[k]), tb) then Some(k) else None
      case None => None
  {
    EmptyMatchesNothing(tb);
    LastNonBlankSpec(lines, 0);
    LastDecisiveSpec(lines, tb);
    match LastNonBlank(lines, 0)
    case Some(k) =>
      assert LastDecisive(lines, tb) == Some(k);
    case None =>
      assert LastDecisive(lines, tb) == None;
  }

  /** One non-blank line followed by blank lines joins to that line,
      trimmed. */
  lemma JoinTrimmedOneLine(ls: seq<string>)
    requires |ls| > 0 && Trim(ls[0]) != ""
    requires forall j :: 1 <= j < |ls| ==> Blank(ls[j])
    ensures JoinTrimmed(ls) == Trim(ls[0])
  {
    assert ls == [ls[0]] + ls[1..];
    NonEmptyTrimAllBlank(ls[1..]);
    NonEmptyTrimAllCons(ls[0], ls[1..]);
  }

  /** The postscript is at most one line: the last non-blank line of the
      remaining lines, trimmed, when it starts with a postscript prefix,
      and the empty string otherwise. */
  lemma PsIsLastLine(lines: seq<string>, tb: Tables)
    requires NoEmptyEntry(tb)
    ensures var rest := Segment(lines, tb).remaining;
      ParseLines(lines, tb).ps ==
        match LastNonBlank(rest, 0)
        case Some(k) => if IsPs(Trim(rest[k]), tb) then Trim(rest[k]) else ""
        case None => ""
  {
    var s := Segment(lines, tb);
    var rest := s.remaining;
    PsStartIsLastNonBlank(rest, tb);
    match PsStart(rest, tb)
    case Some(k) =>
      LastNonBlankSpec(rest, 0);
      EmptyMatchesNothing(tb);
      JoinTrimmedOneLine(rest[k..]);
    case None =>
  }

  /** The postscript holds no line break. */
  lemma PsHasNoLineBreak(content: string, tb: Tables)
    requires NoEmptyEntry(tb)
    ensures '\n' !in ParseContent(content, tb).ps
  {
    var lines := Split(content, '\n');
    var rest := Segment(lines, tb).remaining;
    PsIsLastLine(lines, tb);
    match LastNonBlank(rest, 0)
    case Some(k) =>
      assert rest[k] in lines;
      TrimKeepsOut(rest[k], '\n');
    case None =>
  }

  /** The closing starts at the last line before the postscript that starts
      with a closing keyword, blank lines notwithstanding; with no such line
      the closing is empty and the body is everything before the
      postscript. */
  lemma ClosingStartsAtLastKeyword(lines: seq<string>, tb: Tables)
    requires NoEmptyEntry(tb)
    ensures var s := Segment(lines, tb);
      var closing := ParseLines(lines, tb).closing;
      match LastClosing(s.beforePs, tb)
      case Some(k) =>
        s.bodyLines == s.beforePs[..k] && IsClosing(Trim(s.beforePs[k]), tb) &&
        StartsWith(closing, Trim(s.beforePs[k]))
      case None => closing == "" && s.bodyLines == s.beforePs
  {
    var s := Segment(lines, tb);
    EmptyMatchesNothing(tb);
    match LastClosing(s.beforePs, tb)
    case Some(k) =>
      TrimmedLinesFrom(s.beforePs, k);
      JoinStartsWithFirst(NonEmpty(TrimAll(s.closingLines)), '\n');
    case None =>
  }

  /** Every paragraph is non-empty, has no whitespace at either end, and
      spans no whitespace-only line. */
  lemma ParsedParagraphsAreClean(lines: seq<string>, tb: Tables)
    ensures forall k :: 0 <= k < |ParseLines(lines, tb).paragraphs| ==>
      var p := ParseLines(lines, tb).paragraphs[k];
      p != "" && !IsWs(p[0]) && !IsWs(p[|p| - 1]) &&
      forall a: nat, e: nat :: !SeparatorMatch(p, a, e)
  {
    ParagraphsAreClean(Trim(Join(Segment(lines, tb).bodyLines, '\n')));
  }

  /** A letter without any greeting, closing or postscript line has an
      empty greeting, closing and postscript, and every line from the first
      non-blank one on is body. */
  lemma NoMarkersAllBody(lines: seq<string>, tb: Tables)
    requires forall j :: 0 <= j < |lines| ==>
      !IsGreeting(Trim(lines[j]), tb) && !IsClosing(Trim(lines[j]), tb) && !IsPs(Trim(lines[j]), tb)
    ensures var c := ParseLines(lines, tb);
      c.greeting == "" && c.closing == "" && c.ps == "" &&
      Segment(lines, tb).bodyLines == lines[FirstNonBlank(lines)..]
  {
    var s := Segment(lines, tb);
    assert s.startIdx == FirstNonBlank(lines);
    NoMarkersAfter(lines, s.startIdx, tb);
  }

  /** A tail of a list without marker lines has none either. */
  lemma NoMarkersAfter(lines: seq<string>, f: nat, tb: Tables)
    requires f <= |lines|
    requires forall j :: 0 <= j < |lines| ==>
      !IsGreeting(Trim(lines[j]), tb) && !IsClosing(Trim(lines[j]), tb) && !IsPs(Trim(lines[j]), tb)
    ensures forall j :: 0 <= j < |lines[f..]| ==>
      !IsClosing(Trim(lines[f..][j]), tb) && !IsPs(Trim(lines[f..][j]), tb)
  {
    assert forall j :: 0 <= j < |lines[f..]| ==> lines[f..][j] == lines[f + j];
  }

  /** An interior of whitespace-only lines parses to the empty letter. */
  lemma BlankLinesParseEmpty(lines: seq<string>, tb: Tables)
    requires forall j :: 0 <= j < |lines| ==> Blank(lines[j])
    ensures ParseLines(lines, tb) == Content("", [], "", "")
  {
    FirstNonBlankSpec(lines);
    assert FirstNonBlank(lines) == |lines|;
    assert Segment(lines, tb).remaining == [];
    SplitWithoutLineFeed("");
  }

  /** `LetterDisplay` hands the parser exactly the lines strictly between
      the date line and the seal line. */
  lemma LetterParsesInterior(content: string)
    ensures var allLines := Split(content, '\n');
      var (date, startLine) := DateScan(allLines);
      var (seal, endLine) := SealScan(allLines, startLine);
      var c := ParseLines(allLines[startLine..endLine], Standard);
      LetterOf(content) == Letter(date, c.greeting, c.paragraphs, c.closing, c.ps, seal)
  {
    var allLines := Split(content, '\n');
    var (date, startLine) := DateScan(allLines);
    var (seal, endLine) := SealScan(allLines, startLine);
    InteriorReparses(allLines[startLine..endLine], Standard);
  }

  /** Joining lines that hold no line feed and parsing the result parses
      those lines. */
  lemma InteriorReparses(interior: seq<string>, tb: Tables)
    requires forall k :: 0 <= k < |interior| ==> '\n' !in interior[k]
    ensures ParseContent(Join(interior, '\n'), tb) == ParseLines(interior, tb)
  {
    if |interior| == 0 {
      EmptyReparses(tb);
    } else {
      SplitJoin(interior, '\n');
    }
  }

  /** The empty text parses as no lines at all. */
  lemma EmptyReparses(tb: Tables)
    ensures ParseContent(Join([], '\n'), tb) == ParseLines([], tb)
  {
    assert Split(Join([], '\n'), '\n') == [""];
    BlankLinesParseEmpty([""], tb);
    BlankLinesParseEmpty([], tb);
  }

  /** The cuts of a letter of the usual shape. */
  lemma UsualShapeSegments(g: string, p: string, c: string, ps: string, tb: Tables)
    requires g != "" && Trim(g) == g && IsGreeting(g, tb)
    requires p != "" && Trim(p) == p
    requires Trim(c) == c && IsClosing(c, tb)
    requires ps != "" && Trim(ps) == ps && IsPs(ps, tb)
    ensures var s := Segment([g, p, "", c, ps], tb);
      s.greeting == g && s.bodyLines == [p, ""] && s.closingLines == [c] && s.psLines == [ps]
  {
    var lines := [g, p, "", c, ps];
    assert FirstNonBlank(lines) == 0;
    assert GreetingSplit(lines, tb) == (g, 1);
    EndsClosingPs(lines, 1, tb);
    assert lines[1..3] == [p, ""];
  }

  /** A list whose last two lines are a closing line and a postscript line
      has them as its closing and postscript, and the lines between the
      greeting and them as its body. */
  lemma EndsClosingPs(lines: seq<string>, k: nat, tb: Tables)
    requires k == GreetingSplit(lines, tb).1 && k + 2 <= |lines|
    requires IsClosing(Trim(lines[|lines| - 2]), tb) && IsPs(Trim(lines[|lines| - 1]), tb)
    ensures var s := Segment(lines, tb);
      s.bodyLines == lines[k..|lines| - 2] &&
      s.closingLines == [lines[|lines| - 2]] && s.psLines == [lines[|lines| - 1]]
  {
    TailCuts(lines, k);
    EndsPs(lines, k, tb);
    ClosingLast(lines[k..|lines| - 1], tb);
  }

  /** A list whose last line is a postscript line after the greeting has
      that line as its postscript. */
  lemma EndsPs(lines: seq<string>, k: nat, tb: Tables)
    requires k == GreetingSplit(lines, tb).1 && k + 1 <= |lines|
    requires IsPs(Trim(lines[|lines| - 1]), tb)
    requires lines[k..][..|lines| - k - 1] == lines[k..|lines| - 1]
    requires lines[k..][|lines| - k - 1..] == [lines[|lines| - 1]]
    ensures var s := Segment(lines, tb);
      s.beforePs == lines[k..|lines| - 1] && s.psLines == [lines[|lines| - 1]]
  {
    PsLast(lines[k..], tb);
  }

  /** Cutting the last element, then the one before it, off a suffix. */
  lemma TailCuts<T>(xs: seq<T>, k: nat)
    requires k + 2 <= |xs|
    ensures xs[k..][|xs| - k - 1] == xs[|xs| - 1]
    ensures xs[k..][..|xs| - k - 1] == xs[k..|xs| - 1] && xs[k..][|xs| - k - 1..] == [xs[|xs| - 1]]
    ensures xs[k..|xs| - 1][|xs| - k - 2] == xs[|xs| - 2]
    ensures xs[k..|xs| - 1][..|xs| - k - 2] == xs[k..|xs| - 2] && xs[k..|xs| - 1][|xs| - k - 2..] == [xs[|xs| - 2]]
  {
  }

  /** A list whose last line is a postscript line has its postscript there. */
  lemma PsLast(lines: seq<string>, tb: Tables)
    requires |lines| > 0 && IsPs(Trim(lines[|lines| - 1]), tb)
    ensures PsStart(lines, tb) == Some(|lines| - 1)
  {
  }

  /** A list whose last line is a closing line has its last closing there. */
  lemma ClosingLast(lines: seq<string>, tb: Tables)
    requires |lines| > 0 && IsClosing(Trim(lines[|lines| - 1]), tb)
    ensures LastClosing(lines, tb) == Some(|lines| - 1)
  {
  }

  /** A paragraph line followed by a blank line is one paragraph. */
  lemma OneParagraphLine(p: string)
    requires p != "" && Trim(p) == p && '\n' !in p
    ensures BodyParagraphs([p, ""]) == [p]
  {
    assert Join([p, ""], '\n') == p + "\n";
    TrimmedEnds(p);
    var body := p + "\n";
    assert body[..|body| - 1] == p;
    assert Trim(body) == p;
    SplitWithoutLineFeed(p);
  }

  /** A letter of the usual shape, greeting line, paragraph line, blank
      line, closing line and postscript line, parses into exactly those
      parts. */
  lemma UsualShapeParses(g: string, p: string, c: string, ps: string, tb: Tables)
    requires g != "" && Trim(g) == g && IsGreeting(g, tb)
    requires p != "" && Trim(p) == p && '\n' !in p
    requires Trim(c) == c && IsClosing(c, tb)
    requires ps != "" && Trim(ps) == ps && IsPs(ps, tb)
    ensures ParseLines([g, p, "", c, ps], tb) == Content(g, [p], c, ps)
  {
    UsualShapeSegments(g, p, c, ps, tb);
    OneParagraphLine(p);
    assert TrimAll([c]) == [c] && TrimAll([ps]) == [ps];
  }

  // ---------------------------------------------------------------------
  // The source's loops
  // ---------------------------------------------------------------------

  /** The greeting loop (lines 32-44). */
  method FindGreeting(lines: seq<string>, tb: Tables) returns (greeting: string, startIdx: nat)
    ensures (greeting, startIdx) == GreetingSplit(lines, tb)
  {
    greeting := "";
    startIdx := 0;
    for i := 0 to |lines|
      invariant startIdx == i && greeting == ""
      invariant forall j :: 0 <= j < i ==> Blank(lines[j])
    {
      var trimmed := Trim(lines[i]);
      if trimmed != "" {
        var lower := Lower(trimmed);
        if MatchesFolded(trimmed, lower, tb.greetings) {
          greeting := trimmed;
          startIdx := i + 1;
        }
        FirstNonBlankSpec(lines);
        assert FirstNonBlank(lines) == i;
        return;
      }
      startIdx := i + 1;
    }
    FirstNonBlankSpec(lines);
  }

  /** The postscript loop (lines 48-59): `psStartIdx`, or -1 when there is
      no postscript. */
  method FindPsStart(remainingLines: seq<string>, tb: Tables) returns (psStartIdx: int)
    ensures psStartIdx == match PsStart(remainingLines, tb) case Some(k) => k case None => -1
  {
    psStartIdx := -1;
    LastDecisiveSpec(remainingLines, tb);
    for i := |remainingLines| downto 0
      invariant psStartIdx == -1
      invariant forall j :: i <= j < |remainingLines| ==>
        Trim(remainingLines[j]) == "" && !IsPs(Trim(remainingLines[j]), tb)
    {
      var trimmed := Trim(remainingLines[i]);
      var lower := Lower(trimmed);
      if MatchesLowered(trimmed, lower, tb.postscripts) {
        psStartIdx := i;
        assert LastDecisive(remainingLines, tb) == Some(i);
        return;
      }
      if trimmed != "" && !MatchesLowered(trimmed, lower, tb.postscripts) {
        assert LastDecisive(remainingLines, tb) == Some(i);
        return;
      }
    }
  }

  /** The closing loop (lines 67-83): `closingStartIdx`, or -1 when no line
      starts with a closing keyword, and the trimmed non-blank lines the
      loop passed over on its way up, in their original order. */
  method FindClosingStart(beforePs: seq<string>, tb: Tables)
    returns (closingStartIdx: int, closingLines: seq<string>)
    ensures closingStartIdx == match LastClosing(beforePs, tb) case Some(k) => k case None => -1
    ensures closingLines == NonEmpty(TrimAll(beforePs[closingStartIdx + 1..]))
  {
    closingStartIdx := -1;
    closingLines := [];
    var i := |beforePs|;
    while i > 0
      invariant 0 <= i <= |beforePs| && closingStartIdx == -1
      invariant forall j :: i <= j < |beforePs| ==> !IsClosing(Trim(beforePs[j]), tb)
      invariant closingLines == NonEmpty(TrimAll(beforePs[i..]))
    {
      i := i - 1;
      var trimmed := Trim(beforePs[i]);
      var lower := Lower(trimmed);
      if MatchesFolded(trimmed, lower, tb.closings) {
        closingStartIdx := i;
        LastClosingAt(beforePs, tb, i);
        return;
      }
      TrimmedLinesFrom(beforePs, i);
      // A non-blank line that is not a closing keyword may be a signature.
      if trimmed != "" && closingStartIdx == -1 {
        closingLines := [trimmed] + closingLines;
        continue;
      }
      if trimmed != "" {
        break;
      }
    }
  }


  /** `parseLetterContent`, over the prefix tables `tb`. The lines the
      closing loop gathers are overwritten (lines 85-91). */
  method ParseLetterContent(content: string, tb: Tables) returns (parsed: Content)
    ensures parsed == ParseContent(content, tb)
  {
    var lines := Split(content, '\n');
    var greeting, startIdx := FindGreeting(lines, tb);
    var bodyLines: seq<string> := [];
    var psLines: seq<string> := [];

    var remainingLines := lines[startIdx..];
    var psStartIdx := FindPsStart(remainingLines, tb);
    var beforePs := if psStartIdx >= 0 then remainingLines[..psStartIdx] else remainingLines;
    if psStartIdx >= 0 {
      psLines := remainingLines[psStartIdx..];
    }

    var closingStartIdx, closingLines := FindClosingStart(beforePs, tb);
    if closingStartIdx >= 0 {
      bodyLines := beforePs[..closingStartIdx];
      closingLines := beforePs[closingStartIdx..];
    } else {
      bodyLines := beforePs;
      closingLines := [];
    }

    var bodyText := Trim(Join(bodyLines, '\n'));
    var paragraphs := NonEmpty(TrimAll(RegexSplit(bodyText)));
    parsed := Content(greeting, paragraphs, JoinTrimmed(closingLines), JoinTrimmed(psLines));
  }

  /** The date loop of `LetterDisplay` (lines 123-133). */
  method FindDate(allLines: seq<string>) returns (dateStr: string, startLine: nat)
    ensures (dateStr, startLine) == DateScan(allLines)
  {
    dateStr := "";
    startLine := 0;
    FirstNonBlankSpec(allLines);
    for i := 0 to |allLines|
      invariant startLine == i && dateStr == ""
      invariant forall j :: 0 <= j < i ==> Blank(allLines[j])
    {
      var trimmed := Trim(allLines[i]);
      if trimmed != "" {
        dateStr := ParseDateLine(trimmed);
        startLine := i + 1;
        assert FirstNonBlank(allLines) == i;
        return;
      }
      startLine := i + 1;
    }
  }

  /** The seal loop of `LetterDisplay` (lines 136-145). */
  method FindSeal(allLines: seq<string>, startLine: nat) returns (sealChar: string, endLine: nat)
    requires startLine <= |allLines|
    ensures (sealChar, endLine) == SealScan(allLines, startLine)
  {
    sealChar := DefaultSeal;
    endLine := |allLines|;
    LastNonBlankSpec(allLines, startLine);
    for i := |allLines| downto startLine
      invariant sealChar == DefaultSeal && endLine == |allLines|
      invariant forall j :: i <= j < |allLines| ==> Blank(allLines[j])
    {
      var trimmed := Trim(allLines[i]);
      if trimmed != "" {
        sealChar := trimmed;
        endLine := i;
        assert LastNonBlank(allLines, startLine) == Some(i);
        return;
      }
    }
  }

  /** `LetterDisplay` without its rendering: the date, the seal, and the
      parse of the lines between them with the page's tables. */
  method LetterDisplay(content: string) returns (letter: Letter)
    ensures letter == LetterOf(content)
  {
    var allLines := Split(content, '\n');
    var dateStr, startLine := FindDate(allLines);
    var sealChar, endLine := FindSeal(allLines, startLine);
    var contentForParsing := Join(allLines[startLine..endLine], '\n');
    var parsed := ParseLetterContent(contentForParsing, Standard);
    letter := Letter(dateStr, parsed.greeting, parsed.paragraphs, parsed.closing, parsed.ps, sealChar);
  }
}
