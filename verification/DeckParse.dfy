/** Decklists in the Commander text form: the parser's section machine, and the rendering it inverts. */
module DeckParse {
  import opened Integers
  import opened Options
  import opened Text

  datatype Entry = Entry(quantity: int64, name: string)

  datatype Section = Main | Commander | Ignored

  datatype Header = Header(section: Section, inlineName: string)

  datatype ParseError = ParseError(line: nat, text: string, reason: string)

  datatype EntryResult = Parsed(entry: Entry) | Rejected(reason: string)

  // ----- lines -----

  /** strings.LastIndexByte and strings.IndexByte, -1 when the byte is missing. */
  function LastIndex(s: string, c: char): (i: int)
    ensures -1 <= i < |s|
    ensures i >= 0 ==> s[i] == c
    ensures forall j | i < j < |s| :: s[j] != c
  {
    if s == [] then -1
    else if s[|s| - 1] == c then |s| - 1
    else LastIndex(s[..|s| - 1], c)
  }

  function Index(s: string, c: char): (i: int)
    ensures -1 <= i < |s|
    ensures i >= 0 ==> s[i] == c
    ensures forall j | 0 <= j < (if i < 0 then |s| else i) :: s[j] != c
  {
    if s == [] then -1
    else if s[0] == c then 0
    else var i := Index(s[1..], c); if i < 0 then -1 else i + 1
  }

  function TrimSuffix(s: string, c: char): string {
    if s != [] && s[|s| - 1] == c then s[..|s| - 1] else s
  }

  /** The first line of a non-empty text as it stands, and the text behind its newline. */
  function RawLine(text: string): (r: (string, string))
    requires text != []
    ensures |r.1| < |text|
  {
    var i := Index(text, '\n');
    if i < 0 then (text, []) else (text[..i], text[i + 1..])
  }

  /** The scanner drops one carriage return at the end of a line. */
  function FirstLine(text: string): (r: (string, string))
    requires text != []
    ensures |r.1| < |text|
  {
    (TrimSuffix(RawLine(text).0, '\r'), RawLine(text).1)
  }

  /** The number of bytes of a text in UTF-8. */
  function Bytes(s: string): nat {
    if s == [] then 0 else Bytes(s[..|s| - 1]) + CharBytes(s[|s| - 1])
  }

  function CharBytes(c: char): nat {
    if c < '\U{0080}' then 1 else if c < '\U{0800}' then 2 else if c < '\U{10000}' then 3 else 4
  }

  /** bufio.MaxScanTokenSize: the scanner gives up when its buffer is full and holds no newline. */
  const MAX_SCAN_TOKEN_SIZE := 64 * 1024

  predicate Fits(line: string) {
    Bytes(line) < MAX_SCAN_TOKEN_SIZE
  }

  /** The lines the scanner delivers, and whether it reached the end of the text. */
  function Lines(text: string): seq<string>
    decreases |text|
  {
    if text == [] || !Fits(RawLine(text).0) then [] else [FirstLine(text).0] + Lines(FirstLine(text).1)
  }

  predicate ScansToEnd(text: string)
    decreases |text|
  {
    text == [] || (Fits(RawLine(text).0) && ScansToEnd(FirstLine(text).1))
  }

  // ----- headers -----

  /** unicode.ToLower, as far as it decides whether a label is one of the ASCII keywords. */
  function LowerChar(c: char): char {
    if 'A' <= c <= 'Z' then c - 'A' + 'a'
    else if c == '\U{212A}' then 'k'
    else if c == '\U{0130}' then 'i'
    else c
  }

  function Lower(s: string): string {
    seq(|s|, i requires 0 <= i < |s| => LowerChar(s[i]))
  }

  function NormalizeHeaderLabel(heading: string): string {
    Lower(Trim(TrimSuffix(WithoutCount(Trim(heading)), ':')))
  }

  /** Without a trailing "(30)". */
  function WithoutCount(s: string): string {
    var i := LastIndex(s, '(');
    if i >= 0 && s[|s| - 1] == ')' then Trim(s[..i]) else s
  }

  function SectionForKeyword(keyword: string): Option<Section> {
    if keyword in ["commander", "commanders"] then Some(Commander)
    else if keyword in ["deck", "mainboard", "maindeck", "main"] then Some(Main)
    else if keyword in ["sideboard", "maybeboard", "companion", "sb"] then Some(Ignored)
    else None
  }

  function ParseHeader(line: string): Option<Header> {
    if "//" <= line then
      match SectionForKeyword(NormalizeHeaderLabel(line[2..]))
      case Some(section) => Some(Header(section, ""))
      case None => None
    else
      var i := Index(line, ':');
      if i <= 0 then None else
      match SectionForKeyword(NormalizeHeaderLabel(line[..i]))
      case Some(section) => Some(Header(section, Trim(line[i + 1..])))
      case None => None
  }

  // ----- entries -----

  predicate IsDigit(c: char) {
    '0' <= c <= '9'
  }

  function DigitValue(c: char): nat
    requires IsDigit(c)
  {
    c as int - '0' as int
  }

  function Value(digits: string): nat
    requires forall i | 0 <= i < |digits| :: IsDigit(digits[i])
  {
    if digits == [] then 0 else 10 * Value(digits[..|digits| - 1]) + DigitValue(digits[|digits| - 1])
  }

  predicate AllDigits(s: string) {
    forall i | 0 <= i < |s| :: IsDigit(s[i])
  }

  function Unsigned(s: string): string {
    if s != [] && s[0] in "+-" then s[1..] else s
  }

  /** strconv.Atoi: an optional sign and decimal digits, within the machine integers. */
  function Atoi(s: string): Option<int64> {
    var digits := Unsigned(s);
    if digits == [] || !AllDigits(digits) then None else
    var size: int := Value(digits);
    var n := if s[0] == '-' then -size else size;
    if -TWO_63 <= n < TWO_63 then Some(n) else None
  }

  /** "4", "4x" and "4X". */
  function ParseQuantity(token: string): Option<int64> {
    Atoi(TrimSuffix(TrimSuffix(token, 'x'), 'X'))
  }

  function ParseEntry(s: string, cleanName: string -> string): EntryResult {
    var field := FirstField(s);
    if field == [] then Rejected("empty entry") else
    match ParseQuantity(field)
    case None => Rejected("missing or invalid quantity")
    case Some(quantity) =>
      if quantity <= 0 then Rejected("quantity must be positive") else
      var name := cleanName(Trim(s[|field|..]));
      if name == [] then Rejected("missing card name") else Parsed(Entry(quantity, name))
  }

  /** An inline entry behind a keyword, where the quantity may be missing. */
  function ParseEntryLoose(s: string, cleanName: string -> string): Option<Entry> {
    var field := FirstField(s);
    if field == [] then None else
    var quantity := ParseQuantity(field);
    if quantity.Some? && quantity.value <= 0 then None else
    var name := cleanName(Trim(if quantity.Some? then s[|field|..] else s));
    if name == [] then None else Some(Entry(if quantity.Some? then quantity.value else 1, name))
  }

  // ----- the section machine -----

  /** What has been read so far. */
  datatype Progress = Progress(commander: seq<Entry>, cards: seq<Entry>, section: Section, line: nat, errors: seq<ParseError>) {
    function Add(to: Section, entry: Entry): Progress {
      match to
      case Commander => this.(commander := commander + [entry])
      case Main => this.(cards := cards + [entry])
      case Ignored => this
    }

    /** A blank line or an unrecognized comment ends the commander section. */
    function LeaveCommander(): Progress {
      if section == Commander then this.(section := Main) else this
    }
  }

  const START := Progress([], [], Main, 0, [])
  const BOM: char := '\U{FEFF}'

  function WithoutBOM(text: string): string {
    if text != [] && text[0] == BOM then text[1..] else text
  }

  function Step(before: Progress, text: string, cleanName: string -> string): Progress {
    var p := before.(line := before.line + 1);
    var raw := WithoutBOM(text);
    var line := Trim(raw);
    if line == [] then p.LeaveCommander() else
    match ParseHeader(line)
    case Some(h) =>
      if h.inlineName == [] then p.(section := h.section) else
      (match ParseEntryLoose(h.inlineName, cleanName)
       case Some(entry) => p.Add(h.section, entry)
       case None => p)
    case None =>
      if "//" <= line || "#" <= line then p.LeaveCommander()
      else if p.section == Ignored then p
      else
        match ParseEntry(line, cleanName)
        case Parsed(entry) => p.Add(p.section, entry)
        case Rejected(reason) => p.(errors := p.errors + [ParseError(p.line, raw, reason)])
  }

  function Steps(before: Progress, lines: seq<string>, cleanName: string -> string): Progress
    decreases |lines|
  {
    if lines == [] then before else Steps(Step(before, lines[0], cleanName), lines[1..], cleanName)
  }

  class Decklist {
    var commander: seq<Entry>
    var cards: seq<Entry>

    constructor ()
      ensures commander == [] && cards == []
    {
      commander, cards := [], [];
    }

    method Add(section: Section, entry: Entry)
      modifies this
      ensures commander == if section == Commander then old(commander) + [entry] else old(commander)
      ensures cards == if section == Main then old(cards) + [entry] else old(cards)
    {
      match section
      case Commander => commander := commander + [entry];
      case Main => cards := cards + [entry];
      case Ignored =>
    }
  }

  /** A nil error or the joined line errors, unless the scanner failed: its error takes the place of all others. */
  datatype ParseOutcome = Read(errors: seq<ParseError>) | LineTooLong

  method Parse(text: string, cleanName: string -> string) returns (d: Decklist, outcome: ParseOutcome)
    ensures fresh(d)
    ensures var read := Steps(START, Lines(text), cleanName);
            && d.commander == read.commander && d.cards == read.cards
            && outcome == if ScansToEnd(text) then Read(read.errors) else LineTooLong
  {
    hide ParseHeader, ParseEntry, ParseEntryLoose, Trim, WithoutBOM, RawLine, Fits;
    d := new Decklist();
    var errors := [];
    var current, lineNum, rest := Main, 0, text;
    while rest != []
      invariant fresh(d)
      invariant Steps(START, Lines(text), cleanName)
             == Steps(Progress(d.commander, d.cards, current, lineNum, errors), Lines(rest), cleanName)
      invariant ScansToEnd(text) == ScansToEnd(rest)
      decreases |rest|
    {
      if !Fits(RawLine(rest).0) {
        return d, LineTooLong;
      }
      var next := FirstLine(rest);
      ghost var before, lines := Progress(d.commander, d.cards, current, lineNum, errors), Lines(rest);
      assert lines[0] == next.0 && lines[1..] == Lines(next.1);
      rest := next.1;
      lineNum := lineNum + 1;
      var raw := WithoutBOM(next.0);
      var line := Trim(raw);
      if line == [] {
        if current == Commander {
          current := Main;
        }
      } else {
        var header := ParseHeader(line);
        if header.Some? {
          if header.value.inlineName == [] {
            current := header.value.section;
          } else {
            var entry := ParseEntryLoose(header.value.inlineName, cleanName);
            if entry.Some? {
              d.Add(header.value.section, entry.value);
            }
          }
        } else if "//" <= line || "#" <= line {
          if current == Commander {
            current := Main;
          }
        } else if current != Ignored {
          var entry := ParseEntry(line, cleanName);
          match entry
          case Rejected(reason) => errors := errors + [ParseError(lineNum, raw, reason)];
          case Parsed(e) => d.Add(current, e);
        }
      }
      assert Progress(d.commander, d.cards, current, lineNum, errors) == Step(before, next.0, cleanName);
    }
    return d, Read(errors);
  }

  // ----- the text form -----

  /** strconv.Itoa. */
  function Digits(n: nat): (s: string)
    ensures s != [] && forall i | 0 <= i < |s| :: IsDigit(s[i])
  {
    (if n < 10 then "" else Digits(n / 10)) + [('0' as int + n % 10) as char]
  }

  function Itoa(n: int): string {
    if n < 0 then "-" + Digits(-n) else Digits(n)
  }

  function EntryLine(e: Entry): string {
    Itoa(e.quantity) + " " + e.name
  }

  function EntryLines(entries: seq<Entry>): seq<string> {
    seq(|entries|, i requires 0 <= i < |entries| => EntryLine(entries[i]))
  }

  function Unlines(lines: seq<string>): string {
    if lines == [] then "" else lines[0] + "\n" + Unlines(lines[1..])
  }

  /** A Commander header, the commanders, a Deck header or a blank line, and the main deck. */
  function Render(commander: seq<Entry>, separator: string, cards: seq<Entry>): string {
    Unlines(["// Commander"] + EntryLines(commander) + [separator] + EntryLines(cards))
  }

  /** The entries the text form can carry: a positive quantity and a trimmed single-line name cleanName leaves alone. */
  predicate Plain(e: Entry, cleanName: string -> string) {
    && e.quantity > 0
    && e.name != [] && Trim(e.name) == e.name && '\n' !in e.name
    && cleanName(e.name) == e.name
  }

  predicate AllPlain(entries: seq<Entry>, cleanName: string -> string) {
    forall i | 0 <= i < |entries| :: Plain(entries[i], cleanName)
  }

  // ----- numbers -----

  lemma {:induction false} ValueOfDigits(n: nat)
    ensures Value(Digits(n)) == n
  {
    var last := [('0' as int + n % 10) as char];
    if n >= 10 {
      ValueOfDigits(n / 10);
      assert Digits(n)[..|Digits(n)| - 1] == Digits(n / 10);
    } else {
      assert Digits(n) == last && last[..0] == "";
    }
  }

  lemma AtoiOfItoa(n: int64)
    ensures Atoi(Itoa(n)) == Some(n)
    ensures IsDigit(Itoa(n)[|Itoa(n)| - 1])
  {
    hide Value, Digits;
    var s, m: int := Itoa(n), n;
    var size := if m < 0 then -m else m;
    ValueOfDigits(size);
    assert Unsigned(s) == Digits(size);
  }

  /** A rendered number is one word that starts with a digit or a sign. */
  lemma ItoaIsAWord(n: int)
    ensures Itoa(n) != [] && StartsAsNumber(Itoa(n))
    ensures forall i | 0 <= i < |Itoa(n)| :: !IsSpace(Itoa(n)[i]) && Itoa(n)[i] != '\n' && Itoa(n)[i] != '\r'
  {
    hide Digits;
  }

  /** A rendered number reads back as itself, bare or with an "x" behind it. */
  lemma QuantityRoundTrip(n: int64)
    ensures ParseQuantity(Itoa(n)) == Some(n)
    ensures ParseQuantity(Itoa(n) + "x") == Some(n) && ParseQuantity(Itoa(n) + "X") == Some(n)
  {
    hide Atoi, Itoa;
    AtoiOfItoa(n);
    var s := Itoa(n);
    assert (s + "x")[..|s|] == s && (s + "X")[..|s|] == s;
  }

  // ----- one line -----

  predicate StartsAsNumber(line: string) {
    line != [] && (IsDigit(line[0]) || line[0] == '-')
  }

  /** A line that starts with a number is no header, whatever colons and parentheses follow. */
  lemma NumberIsNoHeader(line: string)
    requires StartsAsNumber(line)
    ensures ParseHeader(line) == None
  {
    hide NormalizeHeaderLabel, SectionForKeyword, Trim;
    var i := Index(line, ':');
    if i > 0 {
      LabelKeepsHead(line[..i]);
      KeywordsStartWithLetters(NormalizeHeaderLabel(line[..i]));
    }
  }

  lemma KeywordsStartWithLetters(keyword: string)
    requires StartsAsNumber(keyword)
    ensures SectionForKeyword(keyword) == None
  {
  }

  lemma LabelKeepsHead(heading: string)
    requires StartsAsNumber(heading)
    ensures StartsAsNumber(NormalizeHeaderLabel(heading))
  {
    hide Trim, LastIndex;
    TrimKeepsHead(heading);
    var s := Trim(heading);
    var i := LastIndex(s, '(');
    if i >= 0 {
      assert s[..i][0] == s[0];
      TrimKeepsHead(s[..i]);
    }
    TrimKeepsHead(TrimSuffix(WithoutCount(s), ':'));
  }

  /**
   * An entry survives rendering and parsing exactly when its quantity is positive and its name is what cleanName makes
   * of it once trimmed.
   */
  lemma EntryRoundTrip(e: Entry, cleanName: string -> string)
    ensures ParseEntry(Trim(EntryLine(e)), cleanName) == Parsed(e)
       <==> e.quantity > 0 && e.name != [] && cleanName(Trim(e.name)) == e.name
  {
    hide FirstField, Itoa, ParseQuantity;
    QuantityRoundTrip(e.quantity);
    ItoaIsAWord(e.quantity);
    TrimKeepsWord(Itoa(e.quantity), " " + e.name);
    assert EntryLine(e) == Itoa(e.quantity) + (" " + e.name);
    assert Trim(" " + e.name) == Trim(e.name) by {
      assert (" " + e.name)[1..] == e.name;
    }
  }

  lemma EntryLineParts(e: Entry, cleanName: string -> string)
    requires Plain(e, cleanName)
    ensures var line := EntryLine(e); StartsAsNumber(line) && Trim(line) == line && line[0] != '/' && line[0] != '#' && line[0] != BOM
  {
    hide Itoa, Trim;
    ItoaIsAWord(e.quantity);
    var line := EntryLine(e);
    assert line[0] == Itoa(e.quantity)[0] && line[|line| - 1] == e.name[|e.name| - 1];
  }

  /** In a section that is kept, the line of a plain entry adds that entry and nothing else. */
  lemma EntryStep(p: Progress, e: Entry, cleanName: string -> string)
    requires Plain(e, cleanName) && p.section != Ignored
    ensures Step(p, EntryLine(e), cleanName) == p.(line := p.line + 1).Add(p.section, e)
  {
    EntryLineParts(e, cleanName);
    NumberIsNoHeader(EntryLine(e));
    EntryRoundTrip(e, cleanName);
    hide EntryLine, ParseHeader, ParseEntry, Trim, StartsAsNumber;
  }

  function AddAll(p: Progress, entries: seq<Entry>): Progress {
    var q := p.(line := p.line + |entries|);
    if p.section == Commander then q.(commander := q.commander + entries) else q.(cards := q.cards + entries)
  }

  lemma {:induction false} EntrySteps(p: Progress, entries: seq<Entry>, rest: seq<string>, cleanName: string -> string)
    requires AllPlain(entries, cleanName) && p.section != Ignored
    ensures Steps(p, EntryLines(entries) + rest, cleanName) == Steps(AddAll(p, entries), rest, cleanName)
    decreases |entries|
  {
    hide Step, EntryLine;
    var lines := EntryLines(entries) + rest;
    if entries == [] {
      assert lines == rest;
      assert AddAll(p, []) == p;
    } else {
      hide Plain;
      EntryStep(p, entries[0], cleanName);
      FirstEntryLine(entries, rest);
      AddAllFirst(p, entries);
      var next := p.(line := p.line + 1).Add(p.section, entries[0]);
      EntrySteps(next, entries[1..], rest, cleanName);
      hide AddAll, EntryLines, AllPlain;
    }
  }

  lemma FirstEntryLine(entries: seq<Entry>, rest: seq<string>)
    requires entries != []
    ensures var lines := EntryLines(entries) + rest;
            lines != [] && lines[0] == EntryLine(entries[0]) && lines[1..] == EntryLines(entries[1..]) + rest
  {
    hide EntryLine;
  }

  lemma AddAllFirst(p: Progress, entries: seq<Entry>)
    requires entries != [] && p.section != Ignored
    ensures AddAll(p, entries) == AddAll(p.(line := p.line + 1).Add(p.section, entries[0]), entries[1..])
  {
    assert p.commander + [entries[0]] + entries[1..] == p.commander + entries;
    assert p.cards + [entries[0]] + entries[1..] == p.cards + entries;
  }

  lemma TrimSkipsSpace(s: string)
    requires s != [] && IsSpace(s[0])
    ensures Trim(s) == Trim(s[1..])
  {
  }

  lemma SlashHeading(word: string, section: Section)
    requires word != [] && Trim(word) == word && '(' !in word && ':' !in word
    requires SectionForKeyword(Lower(word)) == Some(section)
    ensures Trim("// " + word) == "// " + word && ParseHeader("// " + word) == Some(Header(section, ""))
  {
    hide Trim, Lower, SectionForKeyword;
    var rest := " " + word;
    assert ("// " + word)[2..] == rest && rest[1..] == word;
    TrimSkipsSpace(rest);
    assert LastIndex(word, '(') < 0;
    assert TrimSuffix(word, ':') == word;
  }

  lemma HeadingKeywords()
    ensures SectionForKeyword(Lower("Commander")) == Some(Commander)
    ensures SectionForKeyword(Lower("Deck")) == Some(Main)
  {
    assert Lower("Commander") == "commander" && Lower("Deck") == "deck";
  }

  /** The two headings: one opens the commander section; the other, or a blank line, closes it. */
  lemma HeadingSteps(p: Progress, cleanName: string -> string)
    ensures Step(p, "// Commander", cleanName) == p.(line := p.line + 1, section := Commander)
    ensures Step(p, "// Deck", cleanName) == p.(line := p.line + 1, section := Main)
    ensures Step(p, "", cleanName) == p.(line := p.line + 1).LeaveCommander()
  {
    hide Trim, ParseEntry, ParseEntryLoose, FirstField, ParseHeader, Lower, SectionForKeyword;
    HeadingKeywords();
    assert "// " + "Commander" == "// Commander" && "// " + "Deck" == "// Deck";
    SlashHeading("Commander", Commander);
    SlashHeading("Deck", Main);
  }

  // ----- the whole text -----

  /** The scanner gives back the lines a text was put together from, or stops at one that is too long. */
  lemma {:induction false} LinesOfUnlines(lines: seq<string>)
    requires forall i | 0 <= i < |lines| :: '\n' !in lines[i] && TrimSuffix(lines[i], '\r') == lines[i]
    ensures ScansToEnd(Unlines(lines)) <==> forall i | 0 <= i < |lines| :: Fits(lines[i])
    ensures ScansToEnd(Unlines(lines)) ==> Lines(Unlines(lines)) == lines
  {
    hide FirstLine, RawLine, TrimSuffix, Fits;
    if lines != [] {
      LinesOfUnlines(lines[1..]);
      FirstLineIs(lines[0], Unlines(lines[1..]));
      assert forall i | 1 <= i < |lines| :: lines[i] == lines[1..][i - 1];
    }
  }

  lemma FirstLineIs(line: string, rest: string)
    requires '\n' !in line && TrimSuffix(line, '\r') == line
    ensures RawLine(line + "\n" + rest).0 == line && FirstLine(line + "\n" + rest) == (line, rest)
  {
    hide Index, TrimSuffix;
    var text := line + "\n" + rest;
    var i := Index(text, '\n');
    assert text[|line|] == '\n';
    assert forall j | 0 <= j < |line| :: text[j] == line[j];
    assert text[..i] == line && text[i + 1..] == rest;
  }

  ghost predicate AllFit(entries: seq<Entry>) {
    forall i | 0 <= i < |entries| :: Fits(EntryLine(entries[i]))
  }

  lemma RenderedLines(commander: seq<Entry>, separator: string, cards: seq<Entry>, cleanName: string -> string)
    requires AllPlain(commander, cleanName) && AllPlain(cards, cleanName)
    requires separator in ["// Deck", ""]
    ensures var text := Render(commander, separator, cards);
            && (ScansToEnd(text) <==> AllFit(commander) && AllFit(cards))
            && (ScansToEnd(text) ==>
                  Lines(text) == ["// Commander"] + (EntryLines(commander) + ([separator] + EntryLines(cards))))
  {
    hide EntryLine, Lines, Unlines, Plain, Fits, ScansToEnd;
    var lines := ["// Commander"] + (EntryLines(commander) + ([separator] + EntryLines(cards)));
    assert ["// Commander"] + EntryLines(commander) + [separator] + EntryLines(cards) == lines;
    forall i | 0 <= i < |lines| ensures '\n' !in lines[i] && TrimSuffix(lines[i], '\r') == lines[i] {
      if 1 <= i <= |commander| {
        EntryLineIsALine(commander[i - 1], cleanName);
      } else if i > |commander| + 1 {
        EntryLineIsALine(cards[i - |commander| - 2], cleanName);
      }
    }
    LinesOfUnlines(lines);
    HeadingsFit();
    LinesFit(commander, separator, cards);
  }

  lemma LinesFit(commander: seq<Entry>, separator: string, cards: seq<Entry>)
    requires Fits("// Commander") && Fits(separator)
    ensures var lines := ["// Commander"] + (EntryLines(commander) + ([separator] + EntryLines(cards)));
            (forall i | 0 <= i < |lines| :: Fits(lines[i])) <==> AllFit(commander) && AllFit(cards)
  {
    hide EntryLine, Fits;
    var lines := ["// Commander"] + (EntryLines(commander) + ([separator] + EntryLines(cards)));
    assert forall i | 0 <= i < |commander| :: lines[i + 1] == EntryLine(commander[i]);
    assert forall i | 0 <= i < |cards| :: lines[|commander| + 2 + i] == EntryLine(cards[i]);
  }

  lemma HeadingsFit()
    ensures Fits("// Commander") && Fits("// Deck") && Fits("")
  {
    BytesAtMost("// Commander");
    BytesAtMost("// Deck");
  }

  lemma {:induction false} BytesAtMost(s: string)
    ensures Bytes(s) <= 4 * |s|
  {
    if s != [] {
      BytesAtMost(s[..|s| - 1]);
    }
  }

  /**
   * Parsing inverts rendering, with either separator and whatever punctuation the names hold, exactly when every line
   * fits the scanner.
   */
  lemma RoundTrip(commander: seq<Entry>, separator: string, cards: seq<Entry>, cleanName: string -> string)
    requires AllPlain(commander, cleanName) && AllPlain(cards, cleanName)
    requires separator in ["// Deck", ""]
    ensures var text := Render(commander, separator, cards);
            && (ScansToEnd(text) <==> AllFit(commander) && AllFit(cards))
            && (ScansToEnd(text) ==>
                  var read := Steps(START, Lines(text), cleanName);
                  read.commander == commander && read.cards == cards && read.errors == [])
  {
    RenderedLines(commander, separator, cards, cleanName);
    RenderedSteps(commander, separator, cards, cleanName);
  }

  lemma RenderedSteps(commander: seq<Entry>, separator: string, cards: seq<Entry>, cleanName: string -> string)
    requires AllPlain(commander, cleanName) && AllPlain(cards, cleanName)
    requires separator in ["// Deck", ""]
    ensures var lines := ["// Commander"] + (EntryLines(commander) + ([separator] + EntryLines(cards)));
            var read := Steps(START, lines, cleanName);
            read.commander == commander && read.cards == cards && read.errors == []
  {
    hide Step, EntryLine, Plain;
    var tail := [separator] + EntryLines(cards);
    var lines := ["// Commander"] + (EntryLines(commander) + tail);
    HeadingSteps(START, cleanName);
    var p := START.(line := 1, section := Commander);
    assert lines[1..] == EntryLines(commander) + tail;
    EntrySteps(p, commander, tail, cleanName);
    p := p.(line := 1 + |commander|, commander := commander);
    assert [] + commander == commander && [] + cards == cards;
    HeadingSteps(p, cleanName);
    assert tail[1..] == EntryLines(cards) + [];
    p := p.(line := p.line + 1, section := Main);
    assert Step(p.(line := p.line - 1, section := Commander), separator, cleanName) == p;
    EntrySteps(p, cards, [], cleanName);
  }

  lemma EntryLineIsALine(e: Entry, cleanName: string -> string)
    requires Plain(e, cleanName)
    ensures '\n' !in EntryLine(e) && TrimSuffix(EntryLine(e), '\r') == EntryLine(e)
  {
    hide Itoa, Trim;
    ItoaIsAWord(e.quantity);
    var line := EntryLine(e);
    assert line[|line| - 1] == e.name[|e.name| - 1];
  }

  // ----- best effort -----

  predicate Sound(entries: seq<Entry>) {
    forall i | 0 <= i < |entries| :: entries[i].quantity > 0 && entries[i].name != []
  }

  lemma StepIsSound(p: Progress, line: string, cleanName: string -> string)
    requires Sound(p.commander) && Sound(p.cards)
    ensures Sound(Step(p, line, cleanName).commander) && Sound(Step(p, line, cleanName).cards)
  {
    hide ParseHeader, FirstField, ParseQuantity, Trim;
  }

  /** Whatever the text, a parsed entry has a positive quantity and a name. */
  lemma {:induction false} ParsedEntriesAreSound(p: Progress, lines: seq<string>, cleanName: string -> string)
    requires Sound(p.commander) && Sound(p.cards)
    ensures Sound(Steps(p, lines, cleanName).commander) && Sound(Steps(p, lines, cleanName).cards)
    decreases |lines|
  {
    hide Step, Sound;
    if lines != [] {
      StepIsSound(p, lines[0], cleanName);
      ParsedEntriesAreSound(Step(p, lines[0], cleanName), lines[1..], cleanName);
    }
  }

  predicate Fails(p: Progress, line: string, cleanName: string -> string) {
    |Step(p, line, cleanName).errors| > |p.errors|
  }

  /** The lines that parse, given what was read before them. */
  function Kept(p: Progress, lines: seq<string>, cleanName: string -> string): seq<string>
    decreases |lines|
  {
    if lines == [] then []
    else (if Fails(p, lines[0], cleanName) then [] else [lines[0]]) + Kept(Step(p, lines[0], cleanName), lines[1..], cleanName)
  }

  predicate SameDeck(p: Progress, q: Progress) {
    p.commander == q.commander && p.cards == q.cards && p.section == q.section
  }

  lemma StepsAgree(p: Progress, q: Progress, line: string, cleanName: string -> string)
    requires SameDeck(p, q)
    ensures Fails(p, line, cleanName) == Fails(q, line, cleanName)
    ensures SameDeck(Step(p, line, cleanName), Step(q, line, cleanName))
    ensures if Fails(p, line, cleanName) then
              SameDeck(Step(p, line, cleanName), p) && |Step(p, line, cleanName).errors| == |p.errors| + 1
            else
              Step(p, line, cleanName).errors == p.errors && Step(q, line, cleanName).errors == q.errors
  {
    hide ParseHeader, ParseEntry, ParseEntryLoose, Trim;
  }

  /**
   * Best effort: the decklist is what the text without its unparsable lines gives, error-free, and there is one error
   * for each line left out.
   */
  lemma {:induction false} BadLinesAreSkipped(p: Progress, q: Progress, lines: seq<string>, cleanName: string -> string)
    requires SameDeck(p, q)
    ensures var kept := Kept(p, lines, cleanName);
            && SameDeck(Steps(p, lines, cleanName), Steps(q, kept, cleanName))
            && Steps(q, kept, cleanName).errors == q.errors
            && |Steps(p, lines, cleanName).errors| == |p.errors| + |lines| - |kept|
    decreases |lines|
  {
    hide Step, Fails;
    if lines != [] {
      var p', q' := Step(p, lines[0], cleanName), Step(q, lines[0], cleanName);
      StepsAgree(p, q, lines[0], cleanName);
      var rest := Kept(p', lines[1..], cleanName);
      if Fails(p, lines[0], cleanName) {
        assert SameDeck(p', q);
        BadLinesAreSkipped(p', q, lines[1..], cleanName);
        assert Kept(p, lines, cleanName) == rest;
      } else {
        BadLinesAreSkipped(p', q', lines[1..], cleanName);
        assert Kept(p, lines, cleanName) == [lines[0]] + rest;
        assert ([lines[0]] + rest)[1..] == rest;
      }
    }
  }

  // ----- sideboards, inline entries and letter case -----

  /** Under a sideboard header nothing is read, nor any error reported, until the next header. */
  lemma {:induction false} IgnoredSectionIsSilent(p: Progress, lines: seq<string>, cleanName: string -> string)
    requires p.section == Ignored
    requires forall i | 0 <= i < |lines| :: ParseHeader(Trim(WithoutBOM(lines[i]))) == None
    ensures Steps(p, lines, cleanName) == p.(line := p.line + |lines|)
    decreases |lines|
  {
    hide ParseHeader, Trim, ParseEntry, WithoutBOM;
    if lines != [] {
      IgnoredSectionIsSilent(p.(line := p.line + 1), lines[1..], cleanName);
    }
  }

  /** Any keyword line with an inline entry that parses. */
  lemma InlineStep(p: Progress, line: string, h: Header, entry: Entry, cleanName: string -> string)
    requires line != [] && line[0] != BOM && Trim(line) == line && ParseHeader(line) == Some(h)
    requires h.inlineName != [] && ParseEntryLoose(h.inlineName, cleanName) == Some(entry)
    ensures Step(p, line, cleanName) == p.(line := p.line + 1).Add(h.section, entry)
  {
    hide Trim, ParseHeader, ParseEntryLoose, ParseEntry;
  }

  lemma LooseName(name: string, cleanName: string -> string)
    requires name != [] && Trim(name) == name && cleanName(name) == name && ParseQuantity(FirstField(name)) == None
    ensures ParseEntryLoose(name, cleanName) == Some(Entry(1, name))
  {
    FirstFieldOfTrimmed(name);
    hide Trim, FirstField, ParseQuantity;
  }

  lemma FirstFieldOfTrimmed(s: string)
    requires s != [] && Trim(s) == s
    ensures FirstField(s) != []
  {
  }

  lemma ColonSplits(word: string, name: string)
    requires ':' !in word
    ensures var line := word + ": " + name;
            Index(line, ':') == |word| && line[..|word|] == word && line[|word| + 1..] == " " + name
  {
    hide Index;
    var line := word + ": " + name;
    assert line[|word|] == ':' && forall j | 0 <= j < |word| :: line[j] == word[j];
  }

  lemma InlineHeader(word: string, section: Section, name: string)
    requires word != [] && Trim(word) == word && '(' !in word && ':' !in word && '/' !in word
    requires SectionForKeyword(Lower(word)) == Some(section) && name != [] && Trim(name) == name
    ensures Trim(word + ": " + name) == word + ": " + name
    ensures ParseHeader(word + ": " + name) == Some(Header(section, name))
  {
    hide Trim, Lower, SectionForKeyword, Index, NormalizeHeaderLabel;
    ColonSplits(word, name);
    LabelOfKeyword(word);
    TrimSkipsSpace(" " + name);
    assert (" " + name)[1..] == name;
    KeywordLine(word, name);
  }

  lemma LabelOfKeyword(word: string)
    requires word != [] && Trim(word) == word && '(' !in word && ':' !in word
    ensures NormalizeHeaderLabel(word) == Lower(word)
  {
    hide Trim, Lower, LastIndex;
    assert LastIndex(word, '(') < 0 && TrimSuffix(word, ':') == word;
  }

  lemma KeywordLine(word: string, name: string)
    requires word != [] && Trim(word) == word && '/' !in word && name != [] && Trim(name) == name
    ensures var line := word + ": " + name; Trim(line) == line && !("//" <= line)
  {
    hide Trim;
    var line := word + ": " + name;
    assert line[0] == word[0] && word[0] in word;
    assert line[|line| - 1] == name[|name| - 1];
  }

  lemma SameCase(a: char, b: char)
    requires LowerChar(a) == LowerChar(b)
    ensures IsSpace(a) == IsSpace(b) && (a == '(' <==> b == '(') && (a == ')' <==> b == ')') && (a == ':' <==> b == ':')
  {
  }

  predicate SameUpToCase(a: string, b: string) {
    |a| == |b| && forall i | 0 <= i < |a| :: LowerChar(a[i]) == LowerChar(b[i])
  }

  lemma {:induction false} TrimKeepsCase(a: string, b: string)
    requires SameUpToCase(a, b)
    ensures SameUpToCase(Trim(a), Trim(b))
    decreases |a|
  {
    hide LowerChar, IsSpace;
    if a != [] {
      SameCase(a[0], b[0]);
      SameCase(a[|a| - 1], b[|b| - 1]);
      if IsSpace(a[0]) {
        TrimKeepsCase(a[1..], b[1..]);
      } else if IsSpace(a[|a| - 1]) {
        TrimKeepsCase(a[..|a| - 1], b[..|b| - 1]);
      }
    }
  }

  lemma {:induction false} LastIndexKeepsCase(a: string, b: string)
    requires SameUpToCase(a, b)
    ensures LastIndex(a, '(') == LastIndex(b, '(')
  {
    if a != [] {
      SameCase(a[|a| - 1], b[|b| - 1]);
      LastIndexKeepsCase(a[..|a| - 1], b[..|b| - 1]);
    }
  }

  /** Headings that differ only in letter case mean the same section. */
  lemma CaseDoesNotMatter(a: string, b: string)
    requires SameUpToCase(a, b)
    ensures NormalizeHeaderLabel(a) == NormalizeHeaderLabel(b)
  {
    hide Trim, LowerChar, LastIndex, WithoutCount, TrimSuffix;
    TrimKeepsCase(a, b);
    CountKeepsCase(Trim(a), Trim(b));
    SuffixKeepsCase(WithoutCount(Trim(a)), WithoutCount(Trim(b)));
    TrimKeepsCase(TrimSuffix(WithoutCount(Trim(a)), ':'), TrimSuffix(WithoutCount(Trim(b)), ':'));
  }

  lemma CountKeepsCase(a: string, b: string)
    requires SameUpToCase(a, b)
    ensures SameUpToCase(WithoutCount(a), WithoutCount(b))
  {
    hide Trim, LowerChar, LastIndex;
    LastIndexKeepsCase(a, b);
    var i := LastIndex(a, '(');
    if i >= 0 {
      SameCase(a[|a| - 1], b[|b| - 1]);
      TrimKeepsCase(a[..i], b[..i]);
    }
  }

  lemma SuffixKeepsCase(a: string, b: string)
    requires SameUpToCase(a, b)
    ensures SameUpToCase(TrimSuffix(a, ':'), TrimSuffix(b, ':'))
  {
    hide LowerChar;
    if a != [] {
      SameCase(a[|a| - 1], b[|b| - 1]);
    }
  }
}
