/** What each kind of line of a decklist does, said on the line itself: headings, inline entries, comments, bad lines. */
module DeckLines {
  import opened Integers
  import opened Options
  import opened Text
  import opened DeckParse

  // ----- the words -----

  /** The words that name each section. */
  predicate Names(keyword: string, section: Section) {
    match section
    case Commander => keyword in {"commander", "commanders"}
    case Main => keyword in {"deck", "mainboard", "maindeck", "main"}
    case Ignored => keyword in {"sideboard", "maybeboard", "companion", "sb"}
  }

  /** A letter in any case; the Kelvin sign and the dotted capital I are capitals too. */
  predicate SameLetter(c: char, letter: char) {
    && 'a' <= letter <= 'z'
    && (c == letter || c as int == letter as int - 32
        || (letter == 'k' && c == '\U{212A}') || (letter == 'i' && c == '\U{0130}'))
  }

  /** The word is the keyword, in any letter case. */
  predicate Spells(word: string, keyword: string) {
    |word| == |keyword| > 0 && forall i | 0 <= i < |word| :: SameLetter(word[i], keyword[i])
  }

  ghost predicate Opens(word: string, section: Section) {
    exists keyword :: Names(keyword, section) && Spells(word, keyword)
  }

  /** No white space and no mark that a heading is parsed by. */
  predicate Plainly(word: string) {
    word != [] && forall i | 0 <= i < |word| ::
      !IsSpace(word[i]) && word[i] != '(' && word[i] != ')' && word[i] != ':' && word[i] != '/' && word[i] != '#' && word[i] != BOM
  }

  lemma OpensMeans(word: string, section: Section)
    requires Opens(word, section)
    ensures SectionForKeyword(Lower(word)) == Some(section) && Plainly(word)
  {
    var keyword :| Names(keyword, section) && Spells(word, keyword);
    assert Lower(word) == keyword;
  }

  // ----- the forms of a heading -----

  /** A word, with or without a count in parentheses behind it. */
  ghost predicate Title(title: string, word: string) {
    title == word || exists count: string :: '(' !in count && ':' !in count && title == word + " (" + count + ")"
  }

  ghost predicate Heading(line: string, word: string) {
    exists title | Title(title, word) :: IsHeading(line, title)
  }

  predicate IsHeading(line: string, title: string) {
    line == "// " + title || line == "//" + title || line == title + ":"
  }

  lemma TitleMeans(title: string, word: string)
    requires Title(title, word) && Plainly(word)
    ensures title != [] && title[0] == word[0] && !IsSpace(title[|title| - 1]) && ':' !in title
    ensures Trim(title) == title && NormalizeHeaderLabel(title) == Lower(word)
  {
    hide Trim, NormalizeHeaderLabel, Lower, IsSpace;
    if title == word {
      LabelOfKeyword(word);
    } else {
      var count :| '(' !in count && ':' !in count && title == word + " (" + count + ")";
      CountedTitle(word, count);
      CountedChars(word, count);
    }
  }

  lemma CountedChars(word: string, count: string)
    requires Plainly(word) && ':' !in count
    ensures var title := word + " (" + count + ")"; title[0] == word[0] && ':' !in title && !IsSpace(title[|title| - 1])
  {
    var title := word + " (" + count + ")";
    assert title[0] == word[0] && title[|title| - 1] == ')';
  }

  lemma CountedTitle(word: string, count: string)
    requires Plainly(word) && '(' !in count
    ensures var title := word + " (" + count + ")"; Trim(title) == title && NormalizeHeaderLabel(title) == Lower(word)
  {
    hide Trim, LastIndex, Lower;
    var title := word + " (" + count + ")";
    CountIsLast(word, count);
    assert title[0] == word[0] && title[|title| - 1] == ')' && !IsSpace(')');
    TrimDropsLast(word + " ");
    assert (word + " ")[..|word|] == word;
    assert TrimSuffix(word, ':') == word;
  }

  lemma CountIsLast(word: string, count: string)
    requires Plainly(word) && '(' !in count
    ensures var title := word + " (" + count + ")";
            LastIndex(title, '(') == |word| + 1 && title[..|word| + 1] == word + " "
  {
    hide LastIndex, Plainly;
    var title := word + " (" + count + ")";
    assert title[|word| + 1] == '(';
    forall j | |word| + 2 <= j < |title| ensures title[j] != '(' {
      if j < |title| - 1 {
        assert title[j] == count[j - |word| - 2];
      }
    }
  }

  lemma HeadingParses(line: string, word: string, section: Section)
    requires Opens(word, section) && Heading(line, word)
    ensures Trim(line) == line && line != [] && line[0] != BOM && ParseHeader(line) == Some(Header(section, ""))
  {
    OpensMeans(word, section);
    var title :| Title(title, word) && IsHeading(line, title);
    TitleMeans(title, word);
    hide Lower, SectionForKeyword, NormalizeHeaderLabel;
    if line == title + ":" {
      ColonHeading(title, word, section);
    } else {
      SlashedHeading(line, title, word, section);
    }
  }

  lemma ColonHeading(title: string, word: string, section: Section)
    requires Plainly(word) && title != [] && title[0] == word[0] && ':' !in title
    requires Trim(title) == title && SectionForKeyword(NormalizeHeaderLabel(title)) == Some(section)
    ensures var line := title + ":"; Trim(line) == line && ParseHeader(line) == Some(Header(section, ""))
  {
    hide Trim, NormalizeHeaderLabel, SectionForKeyword, Index, Lower;
    var line := title + ":";
    assert line[|title|] == ':' && forall j | 0 <= j < |title| :: line[j] == title[j];
    assert Index(line, ':') == |title| && line[..|title|] == title && line[|title| + 1..] == "";
    assert !IsSpace(':');
  }

  lemma SlashedHeading(line: string, title: string, word: string, section: Section)
    requires line == "// " + title || line == "//" + title
    requires title != [] && !IsSpace(title[|title| - 1])
    requires Trim(title) == title && SectionForKeyword(NormalizeHeaderLabel(title)) == Some(section)
    ensures Trim(line) == line && ParseHeader(line) == Some(Header(section, ""))
  {
    hide SectionForKeyword, Trim, NormalizeHeaderLabel;
    assert line[0] == '/' && line[|line| - 1] == title[|title| - 1];
    BehindTheSlashes(line, title);
  }

  lemma BehindTheSlashes(line: string, title: string)
    requires line == "// " + title || line == "//" + title
    requires Trim(title) == title
    ensures "//" <= line && NormalizeHeaderLabel(line[2..]) == NormalizeHeaderLabel(title)
  {
    hide Trim, WithoutCount, Lower, TrimSuffix;
    if line == "// " + title {
      assert line[2..] == " " + title && (" " + title)[1..] == title;
      TrimSkipsSpace(" " + title);
    } else {
      assert line[2..] == title;
    }
  }

  // ----- what the lines do -----

  /** A heading of any section, in any of its forms and any letter case, opens that section and does nothing else. */
  lemma HeadingOpens(p: Progress, line: string, word: string, section: Section, cleanName: string -> string)
    requires Opens(word, section) && Heading(line, word)
    ensures Step(p, line, cleanName) == p.(line := p.line + 1, section := section)
  {
    HeadingParses(line, word, section);
    hide Trim, ParseHeader, ParseEntry, ParseEntryLoose;
  }

  lemma {:induction false} StepsConcat(p: Progress, one: seq<string>, other: seq<string>, cleanName: string -> string)
    ensures Steps(p, one + other, cleanName) == Steps(Steps(p, one, cleanName), other, cleanName)
    decreases |one|
  {
    hide Step;
    if one == [] {
      assert one + other == other;
    } else {
      StepsConcat(Step(p, one[0], cleanName), one[1..], other, cleanName);
      assert (one + other)[1..] == one[1..] + other;
    }
  }

  /** None of the lines is a heading. */
  predicate Headless(lines: seq<string>) {
    forall i | 0 <= i < |lines| :: ParseHeader(Trim(WithoutBOM(lines[i]))) == None
  }

  /** Behind a sideboard heading nothing is read, and no error reported, until the next heading. */
  lemma SidelineIsSilent(
    before: seq<string>, line: string, word: string, lines: seq<string>, after: seq<string>, cleanName: string -> string)
    requires Opens(word, Ignored) && Heading(line, word) && Headless(lines)
    ensures var read, all := Steps(START, before, cleanName), Steps(START, before + [line] + lines, cleanName);
            all.commander == read.commander && all.cards == read.cards && all.errors == read.errors
    ensures Steps(START, before + [line] + lines + after, cleanName)
         == Steps(Steps(START, before, cleanName).(line := |before| + 1 + |lines|, section := Ignored), after, cleanName)
  {
    hide Step, Steps, Opens, Heading, Headless;
    var read := Steps(START, before, cleanName);
    StepsCount(START, before, cleanName);
    AfterSideline(read, line, word, lines, cleanName);
    assert before + [line] + lines == before + ([line] + lines);
    StepsConcat(START, before, [line] + lines, cleanName);
    StepsConcat(START, before + [line] + lines, after, cleanName);
  }

  lemma AfterSideline(p: Progress, line: string, word: string, lines: seq<string>, cleanName: string -> string)
    requires Opens(word, Ignored) && Heading(line, word) && Headless(lines)
    ensures Steps(p, [line] + lines, cleanName) == p.(line := p.line + 1 + |lines|, section := Ignored)
  {
    hide Step, Opens, Heading;
    HeadingOpens(p, line, word, Ignored, cleanName);
    assert ([line] + lines)[1..] == lines;
    IgnoredSectionIsSilent(p.(line := p.line + 1, section := Ignored), lines, cleanName);
  }

  /** Every line is counted. */
  lemma {:induction false} StepsCount(p: Progress, lines: seq<string>, cleanName: string -> string)
    ensures Steps(p, lines, cleanName).line == p.line + |lines|
    decreases |lines|
  {
    if lines != [] {
      StepCounts(p, lines[0], cleanName);
      StepsCount(Step(p, lines[0], cleanName), lines[1..], cleanName);
    }
  }

  lemma StepCounts(p: Progress, line: string, cleanName: string -> string)
    ensures Step(p, line, cleanName).line == p.line + 1
  {
    hide Trim, ParseHeader, ParseEntry, ParseEntryLoose;
  }

  /** A keyword with text behind its colon: the text is its inline entry, and the section in force stays. */
  lemma InlineParses(word: string, section: Section, inline: string)
    requires Opens(word, section) && inline != [] && Trim(inline) == inline
    ensures var line := word + ": " + inline;
            Trim(line) == line && line[0] != BOM && ParseHeader(line) == Some(Header(section, inline))
  {
    OpensMeans(word, section);
    assert Trim(word) == word;
    assert '(' !in word && ':' !in word && '/' !in word && word[0] != BOM;
    InlineHeader(word, section, inline);
  }

  /** Behind a sideboard keyword nothing is added, whatever stands there. */
  lemma SidelineEntryIsDropped(p: Progress, word: string, inline: string, cleanName: string -> string)
    requires Opens(word, Ignored) && inline != [] && Trim(inline) == inline
    ensures Step(p, word + ": " + inline, cleanName) == p.(line := p.line + 1)
  {
    hide Step, Trim, ParseHeader, Opens;
    InlineParses(word, Ignored, inline);
    DroppedStep(p, word + ": " + inline, Header(Ignored, inline), cleanName);
  }

  lemma DroppedStep(p: Progress, line: string, h: Header, cleanName: string -> string)
    requires line != [] && line[0] != BOM && Trim(line) == line && ParseHeader(line) == Some(h)
    requires h.inlineName != [] && h.section == Ignored
    ensures Step(p, line, cleanName) == p.(line := p.line + 1)
  {
    hide Trim, ParseHeader, ParseEntryLoose, ParseEntry;
  }

  /** Behind any other keyword an entry goes to that keyword's list, with its quantity... */
  lemma InlineEntryStep(p: Progress, word: string, section: Section, e: Entry, cleanName: string -> string)
    requires Opens(word, section) && section != Ignored && Plain(e, cleanName)
    ensures var q := Step(p, word + ": " + EntryLine(e), cleanName);
            && q == p.(line := p.line + 1, commander := q.commander, cards := q.cards)
            && q.commander == p.commander + (if section == Commander then [e] else [])
            && q.cards == p.cards + (if section == Main then [e] else [])
  {
    EntryLineParts(e, cleanName);
    hide StartsAsNumber;
    InlineParses(word, section, EntryLine(e));
    LooseEntry(e, cleanName);
    hide Step, Trim, ParseHeader, ParseEntryLoose, EntryLine, Opens, Plain;
    InlineAdds(p, word + ": " + EntryLine(e), Header(section, EntryLine(e)), e, cleanName);
  }

  lemma InlineAdds(p: Progress, line: string, h: Header, e: Entry, cleanName: string -> string)
    requires line != [] && line[0] != BOM && Trim(line) == line && ParseHeader(line) == Some(h)
    requires h.inlineName != [] && h.section != Ignored && ParseEntryLoose(h.inlineName, cleanName) == Some(e)
    ensures var q := Step(p, line, cleanName);
            && q == p.(line := p.line + 1, commander := q.commander, cards := q.cards)
            && q.commander == p.commander + (if h.section == Commander then [e] else [])
            && q.cards == p.cards + (if h.section == Main then [e] else [])
  {
    hide Step, Trim, ParseHeader, ParseEntryLoose;
    InlineStep(p, line, h, e, cleanName);
  }

  lemma LooseEntry(e: Entry, cleanName: string -> string)
    requires Plain(e, cleanName)
    ensures ParseEntryLoose(EntryLine(e), cleanName) == Some(e)
  {
    EntryLineSplits(e, cleanName);
    QuantityRoundTrip(e.quantity);
    hide FirstField, Itoa, ParseQuantity, EntryLine, Trim;
  }

  lemma EntryLineSplits(e: Entry, cleanName: string -> string)
    requires Plain(e, cleanName)
    ensures var field := FirstField(EntryLine(e));
            field == Itoa(e.quantity) != [] && |field| <= |EntryLine(e)| && Trim(EntryLine(e)[|field|..]) == e.name
  {
    hide FirstField, Itoa, Trim;
    EntryLineParts(e, cleanName);
    ItoaIsAWord(e.quantity);
    TrimKeepsWord(Itoa(e.quantity), " " + e.name);
    assert EntryLine(e) == Itoa(e.quantity) + (" " + e.name);
    TrimSkipsSpace(" " + e.name);
    assert (" " + e.name)[1..] == e.name;
  }

  /** ... and a bare name is one card of that section, or nothing behind a sideboard keyword. */
  lemma InlineNameStep(p: Progress, word: string, section: Section, name: string, cleanName: string -> string)
    requires Opens(word, section)
    requires name != [] && Trim(name) == name && cleanName(name) == name && ParseQuantity(FirstField(name)) == None
    ensures var q := Step(p, word + ": " + name, cleanName);
            && q == p.(line := p.line + 1, commander := q.commander, cards := q.cards)
            && q.commander == p.commander + (if section == Commander then [Entry(1, name)] else [])
            && q.cards == p.cards + (if section == Main then [Entry(1, name)] else [])
  {
    hide Step, Trim, ParseHeader, ParseEntryLoose, Opens, FirstField, ParseQuantity;
    if section == Ignored {
      SidelineEntryIsDropped(p, word, name, cleanName);
    } else {
      InlineParses(word, section, name);
      LooseName(name, cleanName);
      InlineAdds(p, word + ": " + name, Header(section, name), Entry(1, name), cleanName);
    }
  }

  /** The same on a text that the scanner reads to its end. */
  predicate Scannable(lines: seq<string>) {
    forall i | 0 <= i < |lines| :: '\n' !in lines[i] && TrimSuffix(lines[i], '\r') == lines[i] && Fits(lines[i])
  }

  lemma SidelineOfText(before: seq<string>, line: string, word: string, lines: seq<string>, cleanName: string -> string)
    requires Opens(word, Ignored) && Heading(line, word) && Headless(lines)
    requires Scannable(before + [line] + lines)
    ensures var text := Unlines(before + [line] + lines);
            var read, all := Steps(START, Lines(Unlines(before)), cleanName), Steps(START, Lines(text), cleanName);
            ScansToEnd(text) && all.commander == read.commander && all.cards == read.cards && all.errors == read.errors
  {
    hide Steps, Opens, Heading, Headless, Fits, TrimSuffix, Lines, Unlines, ScansToEnd;
    SidelineIsSilent(before, line, word, lines, [], cleanName);
    LinesOfUnlines(before + [line] + lines);
    assert forall i | 0 <= i < |before| :: before[i] == (before + [line] + lines)[i];
    LinesOfUnlines(before);
  }

  // ----- comments -----

  /** A comment, unless it is a heading, does nothing but end the commander section. */
  lemma CommentStep(p: Progress, line: string, cleanName: string -> string)
    requires Trim(line) == line && ("#" <= line || ("//" <= line && ParseHeader(line) == None))
    ensures Step(p, line, cleanName) == p.(line := p.line + 1, section := if p.section == Commander then Main else p.section)
  {
    if "#" <= line {
      HashIsNoHeader(line);
    }
    assert line[0] != BOM;
    assert WithoutBOM(line) == line;
    hide Step, Trim, ParseHeader;
    SkippedStep(p, line, cleanName);
  }

  lemma SkippedStep(p: Progress, line: string, cleanName: string -> string)
    requires Trim(line) == line && line != [] && WithoutBOM(line) == line
    requires ("#" <= line || "//" <= line) && ParseHeader(line) == None
    ensures Step(p, line, cleanName) == p.(line := p.line + 1, section := if p.section == Commander then Main else p.section)
  {
    hide WithoutBOM, Trim, ParseHeader, ParseEntry, ParseEntryLoose;
  }

  lemma HashIsNoHeader(line: string)
    requires "#" <= line
    ensures ParseHeader(line) == None
  {
    hide NormalizeHeaderLabel, SectionForKeyword, Trim;
    var i := Index(line, ':');
    if i > 0 {
      assert line[..i][0] == '#';
      HashLabel(line[..i]);
      HashIsNoKeyword(NormalizeHeaderLabel(line[..i]));
    }
  }

  lemma HashIsNoKeyword(keyword: string)
    requires keyword != [] && keyword[0] == '#'
    ensures SectionForKeyword(keyword) == None
  {
  }

  lemma HashLabel(heading: string)
    requires heading != [] && heading[0] == '#'
    ensures var title := NormalizeHeaderLabel(heading); title != [] && title[0] == '#'
  {
    hide Trim, LastIndex;
    TrimKeepsHead(heading);
    var s := Trim(heading);
    var i := LastIndex(s, '(');
    if i >= 0 && s[|s| - 1] == ')' {
      assert s[..i][0] == s[0];
      TrimKeepsHead(s[..i]);
    }
    TrimKeepsHead(TrimSuffix(WithoutCount(s), ':'));
  }

  // ----- bad lines and byte order marks -----

  /** Why a line is no entry. */
  function Fault(line: string, cleanName: string -> string): Option<string> {
    var field := FirstField(line);
    var quantity := ParseQuantity(field);
    if quantity == None then Some("missing or invalid quantity")
    else if quantity.value <= 0 then Some("quantity must be positive")
    else if |field| <= |line| && cleanName(Trim(line[|field|..])) == "" then Some("missing card name")
    else None
  }

  /** A line that is no heading, comment or blank reports its fault, if it has one, with its number and its text as it stood. */
  lemma BadLineIsReported(p: Progress, text: string, reason: string, cleanName: string -> string)
    requires text != [] && text[0] != BOM && p.section != Ignored
    requires var line := Trim(text);
             && line != [] && ParseHeader(line) == None && !("//" <= line) && !("#" <= line)
             && Fault(line, cleanName) == Some(reason)
    ensures Step(p, text, cleanName) == p.(line := p.line + 1, errors := p.errors + [ParseError(p.line + 1, text, reason)])
  {
    var line := Trim(text);
    hide Step, Trim, ParseHeader, ParseEntry, Fault;
    assert Trim(line) == line;
    FaultIsRejected(line, reason, cleanName);
    assert WithoutBOM(text) == text;
    RejectedStep(p, text, reason, cleanName);
  }

  lemma RejectedStep(p: Progress, text: string, reason: string, cleanName: string -> string)
    requires WithoutBOM(text) == text && p.section != Ignored
    requires var line := Trim(text);
             && line != [] && ParseHeader(line) == None && !("//" <= line) && !("#" <= line)
             && ParseEntry(line, cleanName) == Rejected(reason)
    ensures Step(p, text, cleanName) == p.(line := p.line + 1, errors := p.errors + [ParseError(p.line + 1, text, reason)])
  {
    hide WithoutBOM, Trim, ParseHeader, ParseEntry, ParseEntryLoose;
  }

  /** White space around a line matters only to the text an error repeats. */
  lemma PaddingIsIgnored(p: Progress, text: string, cleanName: string -> string)
    requires WithoutBOM(text) == text && WithoutBOM(Trim(text)) == Trim(text)
    ensures var q, trimmed := Step(p, text, cleanName), Step(p, Trim(text), cleanName);
            && q.commander == trimmed.commander && q.cards == trimmed.cards && q.section == trimmed.section
            && q.line == trimmed.line && |q.errors| == |trimmed.errors|
  {
    hide Step;
    assert Trim(Trim(text)) == Trim(text);
    SameLine(p, text, Trim(text), cleanName);
  }

  lemma SameLine(p: Progress, text: string, line: string, cleanName: string -> string)
    requires WithoutBOM(text) == text && WithoutBOM(line) == line && Trim(text) == Trim(line)
    ensures var q, trimmed := Step(p, text, cleanName), Step(p, line, cleanName);
            && q.commander == trimmed.commander && q.cards == trimmed.cards && q.section == trimmed.section
            && q.line == trimmed.line && |q.errors| == |trimmed.errors|
  {
    hide WithoutBOM, Trim, ParseHeader, ParseEntry, ParseEntryLoose;
  }

  lemma FaultIsRejected(line: string, reason: string, cleanName: string -> string)
    requires Trim(line) == line && line != [] && Fault(line, cleanName) == Some(reason)
    ensures ParseEntry(line, cleanName) == Rejected(reason)
  {
    FirstFieldOfTrimmed(line);
    hide Trim, FirstField, ParseQuantity;
  }

  /** A byte order mark in front of a line changes nothing. */
  lemma MarkIsDropped(p: Progress, line: string, cleanName: string -> string)
    requires line != [] && line[0] != BOM
    ensures Step(p, [BOM] + line, cleanName) == Step(p, line, cleanName)
  {
    hide WithoutBOM, Trim, ParseHeader, ParseEntry, ParseEntryLoose;
    WithoutMark(line);
  }

  lemma WithoutMark(line: string)
    requires line != [] && line[0] != BOM
    ensures WithoutBOM([BOM] + line) == WithoutBOM(line)
  {
    assert ([BOM] + line)[1..] == line;
  }

  /** Of plain ASCII, the scanner takes lines of up to 65,535 characters. */
  lemma {:induction false} AsciiFits(line: string)
    requires forall i | 0 <= i < |line| :: line[i] < '\U{0080}'
    ensures Bytes(line) == |line|
    ensures Fits(line) <==> |line| <= 65535
  {
    if line != [] {
      AsciiFits(line[..|line| - 1]);
    }
  }

  // ----- quantities -----

  /** A quantity may carry a plus sign... */
  lemma PlusIsAllowed(n: nat)
    requires n < TWO_63
    ensures ParseQuantity("+" + Digits(n)) == Some(n)
  {
    ValueOfDigits(n);
    var s := "+" + Digits(n);
    assert s[1..] == Digits(n);
    assert IsDigit(s[|s| - 1]);
    assert TrimSuffix(TrimSuffix(s, 'x'), 'X') == s;
    hide Digits, Value;
  }

  /** ... but nothing else beside its digits and one "x" and one "X" behind them. */
  lemma OnlyDigitsCount(token: string)
    requires ParseQuantity(token).Some?
    ensures var number := TrimSuffix(TrimSuffix(token, 'x'), 'X');
            number != [] && forall i | 0 <= i < |number| :: IsDigit(number[i]) || (i == 0 && number[i] in "+-")
  {
    NumberOnly(TrimSuffix(TrimSuffix(token, 'x'), 'X'));
    hide Atoi, TrimSuffix;
  }

  lemma NumberOnly(number: string)
    requires Atoi(number).Some?
    ensures number != [] && forall i | 0 <= i < |number| :: IsDigit(number[i]) || (i == 0 && number[i] in "+-")
  {
    hide Value;
    var digits := Unsigned(number);
    assert forall i | 1 <= i < |number| :: number[i] == digits[i - (|number| - |digits|)];
  }
}
