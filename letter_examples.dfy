/** Concrete inputs run through the letter parser model: the date stamps
    and the worked letter of src/components/LetterDisplay.tsx. */
module LetterExamples {
  import opened Text
  import opened Wrappers
  import opened Paragraphs
  import opened LetterParser

  lemma Padded2024()
    ensures Padded(2024, 4) == "2024"
  {
    assert Padded(2, 1) == "2" && Padded(20, 2) == "20" && Padded(202, 3) == "202";
  }

  lemma Show2024()
    ensures ShowNat(2024) == "2024"
  {
    assert ShowNat(2) == "2";
    assert ShowNat(20) == ShowNat(2) + [DigitChar(0)] && DigitChar(0) == '0';
    assert ShowNat(202) == ShowNat(20) + [DigitChar(2)] && DigitChar(2) == '2';
    assert ShowNat(2024) == ShowNat(202) + [DigitChar(4)] && DigitChar(4) == '4';
  }

  /** The decimal form of a two-digit number. */
  lemma ShowTwoDigits(n: nat, hi: char, lo: char)
    requires 10 <= n < 100 && hi == DigitChar(n / 10) && lo == DigitChar(n % 10)
    ensures ShowNat(n) == [hi, lo]
  {
    assert ShowNat(n) == ShowNat(n / 10) + [DigitChar(n % 10)];
  }

  lemma Show13And99()
    ensures ShowNat(13) == "13" && ShowNat(99) == "99"
  {
    ShowTwoDigits(13, DigitChar(1), DigitChar(3));
    ShowTwoDigits(99, DigitChar(9), DigitChar(9));
    assert DigitChar(1) == '1' && DigitChar(3) == '3' && DigitChar(9) == '9';
  }

  lemma Show2And14()
    ensures ShowNat(2) == "2" && ShowNat(14) == "14"
  {
    ShowTwoDigits(14, DigitChar(1), DigitChar(4));
    assert DigitChar(1) == '1' && DigitChar(4) == '4';
  }

  lemma ReadStamp20241399()
    ensures ParseDateLine("20241399") == ShowNat(2024) + "年" + ShowNat(13) + "月" + ShowNat(99) + "日"
  {
    Padded2024();
    assert Padded(13, 2) == "13" && Padded(99, 2) == "99";
    assert "20241399" == Padded(2024, 4) + Padded(13, 2) + Padded(99, 2);
    DateStampReadsBack(2024, 13, 99, "20241399");
  }

  lemma Stamp20241399Parts()
    ensures ParseDateLine("20241399") == "2024" + "年" + "13" + "月" + "99" + "日"
  {
    ReadStamp20241399();
    Show2024();
    Show13And99();
  }

  /** Month and day are not range-checked. */
  lemma DateOutOfRange()
    ensures ParseDateLine("20241399") == "2024年13月99日"
  {
    Stamp20241399Parts();
    SpelledOutOfRange();
  }

  lemma SpelledOutOfRange()
    ensures "2024" + "年" + "13" + "月" + "99" + "日" == "2024年13月99日"
  {
  }

  lemma ReadStamp20240214()
    ensures ParseDateLine("20240214") == ShowNat(2024) + "年" + ShowNat(2) + "月" + ShowNat(14) + "日"
  {
    Padded2024();
    assert Padded(2, 2) == "02" && Padded(14, 2) == "14";
    assert "20240214" == Padded(2024, 4) + Padded(2, 2) + Padded(14, 2);
    DateStampReadsBack(2024, 2, 14, "20240214");
  }

  lemma Stamp20240214Parts()
    ensures ParseDateLine("20240214") == "2024" + "年" + "2" + "月" + "14" + "日"
  {
    ReadStamp20240214();
    Show2024();
    Show2And14();
  }

  /** Leading zeros of the month are dropped. */
  lemma DateValentine()
    ensures ParseDateLine("20240214") == "2024年2月14日"
  {
    Stamp20240214Parts();
    SpelledValentine();
  }

  lemma SpelledValentine()
    ensures "2024" + "年" + "2" + "月" + "14" + "日" == "2024年2月14日"
  {
  }

  /** A line that is not a stamp is returned trimmed. */
  lemma DateNotAStamp()
    ensures ParseDateLine(" 2024-02-14 ") == "2024-02-14"
  {
    assert " 2024-02-14 " == " " + "2024-02-14" + " ";
    PaddedNonStamp(" ", "2024-02-14", " ");
  }

  /** A line whose trimmed text is not eight characters long is returned
      trimmed, whatever whitespace surrounds it. */
  lemma PaddedNonStamp(a: string, t: string, b: string)
    requires Blank(a) && Blank(b) && |t| != 8
    requires t == [] || (!IsWs(t[0]) && !IsWs(t[|t| - 1]))
    ensures ParseDateLine(a + t + b) == t
  {
    TrimAround(a, t, b);
    TrimOfTrimmed(t);
  }

  /** Greeting matching is a plain prefix test: "today" is a greeting
      because it starts with "to". */
  lemma TodayIsAGreeting()
    ensures IsGreeting("today", Standard)
  {
    assert GreetingPrefixes[12] == "to";
    assert StartsWith("today", "to");
    MatchesFoldedEntry("today", Lower("today"), GreetingPrefixes, 12);
  }

  // ---------------------------------------------------------------------
  // The worked letter
  // ---------------------------------------------------------------------

  /** The worked letter, line by line. */
  const Valentine: string :=
    "20240214" + "\n" + "亲爱的小明" + "\n" + "今天是情人节。" + "\n" + "" + "\n" +
    "爱你的，小红" + "\n" + "附言：记得吃饭" + "\n" + "爱"

  const ValentineLines: seq<string> :=
    ["20240214", "亲爱的小明", "今天是情人节。", "", "爱你的，小红", "附言：记得吃饭", "爱"]

  /** Seven lines joined with line feeds. */
  lemma JoinSeven(a: string, b: string, c: string, d: string, e: string, f: string, g: string)
    ensures Join([a, b, c, d, e, f, g], '\n') ==
      a + "\n" + b + "\n" + c + "\n" + d + "\n" + e + "\n" + f + "\n" + g
  {
    var L := [a, b, c, d, e, f, g];
    assert L[6..] == [g];
    assert L[5..] == [f] + L[6..];
    assert L[4..] == [e] + L[5..];
    assert L[3..] == [d] + L[4..];
    assert L[2..] == [c] + L[3..];
    assert L[1..] == [b] + L[2..];
    assert Join(L[5..], '\n') == f + "\n" + g;
    assert Join(L[4..], '\n') == e + "\n" + Join(L[5..], '\n');
    assert Join(L[3..], '\n') == d + "\n" + Join(L[4..], '\n');
    assert Join(L[2..], '\n') == c + "\n" + Join(L[3..], '\n');
    assert Join(L[1..], '\n') == b + "\n" + Join(L[2..], '\n');
  }

  /** Seven lines without line feeds, joined, split back into themselves. */
  lemma SplitSeven(a: string, b: string, c: string, d: string, e: string, f: string, g: string)
    requires '\n' !in a && '\n' !in b && '\n' !in c && '\n' !in d
    requires '\n' !in e && '\n' !in f && '\n' !in g
    ensures Split(a + "\n" + b + "\n" + c + "\n" + d + "\n" + e + "\n" + f + "\n" + g, '\n') ==
      [a, b, c, d, e, f, g]
  {
    JoinSeven(a, b, c, d, e, f, g);
    SplitJoin([a, b, c, d, e, f, g], '\n');
  }

  /** The lines of the worked letter. */
  lemma ValentineSplits()
    ensures Split(Valentine, '\n') == ValentineLines
  {
    NoLf();
    SplitSeven("20240214", "亲爱的小明", "今天是情人节。", "", "爱你的，小红", "附言：记得吃饭", "爱");
  }
  lemma NoLf()
    ensures '\n' !in "20240214" && '\n' !in "亲爱的小明" && '\n' !in "今天是情人节。" && '\n' !in ""
    ensures '\n' !in "爱你的，小红" && '\n' !in "附言：记得吃饭" && '\n' !in "爱"
  {}
  lemma ValentineGreeting()
    ensures IsGreeting("亲爱的小明", Standard)
  {
    assert StartsWith("亲爱的小明", GreetingPrefixes[0]);
    MatchesFoldedEntry("亲爱的小明", Lower("亲爱的小明"), GreetingPrefixes, 0);
  }

  lemma ValentineClosing()
    ensures IsClosing("爱你的，小红", Standard)
  {
    assert StartsWith("爱你的，小红", ClosingKeywords[0]);
    MatchesFoldedEntry("爱你的，小红", Lower("爱你的，小红"), ClosingKeywords, 0);
  }

  lemma ValentinePostscript()
    ensures IsPs("附言：记得吃饭", Standard)
  {
    assert StartsWith("附言：记得吃饭", PsPrefixes[0]);
    MatchesLoweredEntry("附言：记得吃饭", Lower("附言：记得吃饭"), PsPrefixes, 0);
  }

  lemma ValentineTrimmed()
    ensures Trim("亲爱的小明") == "亲爱的小明" && Trim("今天是情人节。") == "今天是情人节。"
    ensures Trim("爱你的，小红") == "爱你的，小红" && Trim("附言：记得吃饭") == "附言：记得吃饭"
    ensures Trim("20240214") == "20240214" && Trim("爱") == "爱"
  {
    TrimOfTrimmed("亲爱的小明");
    TrimOfTrimmed("今天是情人节。");
    TrimOfTrimmed("爱你的，小红");
    TrimOfTrimmed("附言：记得吃饭");
    TrimOfTrimmed("20240214");
    TrimOfTrimmed("爱");
  }

  /** The five lines of the worked letter's interior parse into its parts. */
  lemma ValentineShape()
    ensures ParseLines(["亲爱的小明", "今天是情人节。", "", "爱你的，小红", "附言：记得吃饭"], Standard) ==
      Content("亲爱的小明", ["今天是情人节。"], "爱你的，小红", "附言：记得吃饭")
  {
    ValentineGreeting();
    ValentineClosing();
    ValentinePostscript();
    ValentineTrimmed();
    NoLf();
    UsualShapeParses("亲爱的小明", "今天是情人节。", "爱你的，小红", "附言：记得吃饭", Standard);
  }

  lemma ValentineInteriorLines()
    ensures ValentineLines[1..6] == ["亲爱的小明", "今天是情人节。", "", "爱你的，小红", "附言：记得吃饭"]
  {
  }

  /** The interior of the worked letter: greeting, one paragraph, closing
      and postscript. */
  lemma ValentineInterior()
    ensures ParseLines(ValentineLines[1..6], Standard) ==
      Content("亲爱的小明", ["今天是情人节。"], "爱你的，小红", "附言：记得吃饭")
  {
    ValentineInteriorLines();
    ValentineShape();
  }

  /** A text whose first line is not blank takes its date from that
      line. */
  lemma DateOnFirstLine(lines: seq<string>)
    requires |lines| > 0 && !Blank(lines[0])
    ensures DateScan(lines) == (ParseDateLine(Trim(lines[0])), 1)
  {
    assert FirstNonBlank(lines) == 0;
  }

  /** A text whose last line is not blank takes its seal from that line. */
  lemma SealOnLastLine(lines: seq<string>, startLine: nat)
    requires startLine < |lines| && !Blank(lines[|lines| - 1])
    ensures SealScan(lines, startLine) == (Trim(lines[|lines| - 1]), |lines| - 1)
  {
  }

  /** The date line and the seal line of the worked letter. */
  lemma ValentineEnds()
    ensures DateScan(ValentineLines) == ("2024年2月14日", 1)
    ensures SealScan(ValentineLines, 1) == ("爱", 6)
  {
    var lines := ValentineLines;
    ValentineTrimmed();
    assert !Blank(lines[0]) by { assert !IsWs(lines[0][0]); }
    assert !Blank(lines[6]) by { assert !IsWs(lines[6][0]); }
    DateOnFirstLine(lines);
    SealOnLastLine(lines, 1);
    DateValentine();
  }

  /** The worked letter renders with its date, greeting, single paragraph,
      closing, postscript and seal. */
  lemma ValentineLetter()
    ensures LetterOf(Valentine) ==
      Letter("2024年2月14日", "亲爱的小明", ["今天是情人节。"], "爱你的，小红", "附言：记得吃饭", "爱")
  {
    ValentineSplits();
    LetterParsesInterior(Valentine);
    ValentineEnds();
    ValentineInterior();
  }

  // ---------------------------------------------------------------------
  // A letter without markers
  // ---------------------------------------------------------------------

  /** The split of a text with one blank line in it. */
  lemma TwoParagraphs()
    ensures ParagraphsOf("1\n\n2") == ["1", "2"]
  {
    var t := "1\n\n2";
    assert SeparatorAt(t, 0) == None;
    assert SeparatorAt(t, 1) == Some(3);
    assert SplitFrom(t, 3, 3) == ["2"];
    assert SplitFrom(t, 0, 1) == [t[0..1]] + SplitFrom(t, 3, 3);
    assert t[0..1] == "1";
    assert RegexSplit(t) == ["1", "2"];
    TrimOfTrimmed("1");
    TrimOfTrimmed("2");
    assert TrimAll(["1", "2"]) == ["1", "2"];
  }

  /** Every entry of the table is non-empty and starts with something
      other than an ASCII digit. */
  predicate DigitFree(table: seq<string>) {
    forall k :: 0 <= k < |table| ==> table[k] != "" && !IsDigit(table[k][0])
  }

  /** No entry of the component's tables starts with a digit. */
  lemma StandardIsDigitFree()
    ensures DigitFree(Standard.greetings) && DigitFree(Standard.closings) &&
      DigitFree(Standard.postscripts)
  {
    GreetingsDigitFree();
    ClosingsDigitFree();
    PostscriptsDigitFree();
  }

  lemma GreetingsDigitFree()
    ensures DigitFree(GreetingPrefixes)
  {
  }

  lemma ClosingsDigitFree()
    ensures DigitFree(ClosingKeywords)
  {
  }

  lemma PostscriptsDigitFree()
    ensures DigitFree(PsPrefixes)
  {
  }

  /** A line that starts with a digit starts with no entry of a table
      whose entries do not, lowered or not. */
  lemma DigitLineMatchesNoEntry(line: string, table: seq<string>)
    requires |line| >= 1 && IsDigit(line[0])
    requires DigitFree(table)
    ensures !MatchesFolded(line, Lower(line), table)
    ensures !MatchesLowered(line, Lower(line), table)
  {
    MatchesFoldedSome(line, Lower(line), table);
    MatchesLoweredSome(line, Lower(line), table);
    forall k | 0 <= k < |table|
      ensures !StartsWith(Lower(line), Lower(table[k])) && !StartsWith(line, table[k])
      ensures !StartsWith(Lower(line), table[k])
    {
      assert Lower(line)[0] == line[0];
      assert Lower(table[k])[0] == LowerChar(table[k][0]);
    }
  }

  /** A line of digits, or the empty line, is no greeting, closing or
      postscript under tables with no empty or digit-led entry. */
  lemma DigitLineIsUnmarked(line: string, tb: Tables)
    requires AllDigits(line)
    requires DigitFree(tb.greetings) && DigitFree(tb.closings) && DigitFree(tb.postscripts)
    ensures !IsGreeting(Trim(line), tb) && !IsClosing(Trim(line), tb) && !IsPs(Trim(line), tb)
  {
    if line == "" {
      assert Trim(line) == "";
      EmptyMatchesNothing(tb);
    } else {
      assert IsDigit(line[|line| - 1]);
      TrimOfTrimmed(line);
      DigitLineMatchesNoEntry(line, tb.greetings);
      DigitLineMatchesNoEntry(line, tb.closings);
      DigitLineMatchesNoEntry(line, tb.postscripts);
    }
  }

  /** The body lines `1`, blank, `2` make two paragraphs. */
  lemma DigitBody()
    ensures BodyParagraphs(["1", "", "2"]) == ["1", "2"]
  {
    assert Join(["1", "", "2"], '\n') == "1\n\n2";
    TrimOfTrimmed("1\n\n2");
    TwoParagraphs();
  }

  /** A letter whose lines are digit strings, the first non-empty, has
      no greeting, closing or postscript: every line is body. */
  lemma DigitLinesAllBody(lines: seq<string>, tb: Tables)
    requires |lines| > 0 && lines[0] != ""
    requires forall j :: 0 <= j < |lines| ==> AllDigits(lines[j])
    requires DigitFree(tb.greetings) && DigitFree(tb.closings) && DigitFree(tb.postscripts)
    ensures ParseLines(lines, tb) == Content("", BodyParagraphs(lines), "", "")
  {
    forall j | 0 <= j < |lines|
      ensures !IsGreeting(Trim(lines[j]), tb) && !IsClosing(Trim(lines[j]), tb) &&
        !IsPs(Trim(lines[j]), tb)
    {
      DigitLineIsUnmarked(lines[j], tb);
    }
    assert !Blank(lines[0]) by { assert IsDigit(lines[0][0]); }
    assert FirstNonBlank(lines) == 0;
    NoMarkersAllBody(lines, tb);
    assert lines[0..] == lines;
  }

  /** Lines without any marker still make two paragraphs when a blank
      line separates them: "no markers" does not mean "one paragraph". */
  lemma NoMarkersTwoParagraphs()
    ensures ParseLines(["1", "", "2"], Standard) == Content("", ["1", "2"], "", "")
  {
    var lines := ["1", "", "2"];
    assert forall j :: 0 <= j < |lines| ==> AllDigits(lines[j]);
    StandardIsDigitFree();
    DigitLinesAllBody(lines, Standard);
    DigitBody();
  }
}
