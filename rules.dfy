/** The formatting rules stated as functions: what an indentation level renders to (`Indent`), what
    formatting one trimmed line does to the output buffer, the log buffer and the indentation level
    (`ParseLine`), and what reading a whole document does to them (`Run`). The methods of module
    Formatter are proved against these functions. */
module Rules {
  import opened Prelude
  import opened Text
  import opened Config

  const COLON_ERROR: string := "Parsing Error: Colon without an identifier in front of it."
  const READ_ERROR_PREFIX: string := "Error reading line from file: "

  function Repeat(c: char, n: nat): (r: string)
    ensures |r| == n
    ensures forall i :: 0 <= i < n ==> r[i] == c
  {
    seq(n, _ => c)
  }

  /** The text of `level` indentation units. */
  function Indent(indentation: Indentation, level: u32): string {
    match indentation
    case Tabs(_) => Repeat('\t', level as nat)
    case Spaces(amount) => Repeat(' ', WrappingMul(amount, level) as nat)
  }

  /** The line starts with the eight characters `section ` (lower case, one space). */
  predicate StartsWithSection(s: string) {
    |s| >= 8 && s[..8] == "section "
  }

  /** A header is a line that starts with `section ` or, failing that, holds a colon after its
      first character; the first makes a section header, the second a label. A `section ` prefix
      is recognised before any colon further on, since no colon can come before the eighth
      character of such a line. */
  predicate IsHeader(value: string) {
    value != [] && value[0] != ':' && (StartsWithSection(value) || IndexOf(value, ':').Some?)
  }

  /** Splits s after its first line feed: the part copied verbatim behind a section header and
      what is left over. Without a line feed all of s is copied. */
  function SplitAfterNewline(s: string): (r: (string, string))
    ensures r.0 + r.1 == s
  {
    match IndexOf(s, '\n')
    case None => (s, [])
    case Some(m) => (s[..m + 1], s[m + 1..])
  }

  /** The text a header line puts out verbatim (the label and its colon, or `section ` and what
      is copied behind it), which is a prefix of the line, and the trimmed text left after it. */
  function Header(value: string): (r: (string, string))
    requires IsHeader(value)
    ensures 0 < |r.0| <= |value| && r.0 == value[..|r.0|]
    ensures r.1 == Trim(value[|r.0|..])
    ensures |r.1| < |value|
  {
    if StartsWithSection(value) then
      var (copied, left) := SplitAfterNewline(value[8..]);
      assert value[..8] + copied == value[..8 + |copied|] && left == value[8 + |copied|..] by {
        assert value == value[..8] + copied + left;
      }
      (value[..8] + copied, Trim(left))
    else
      var i := IndexOf(value, ':').value;
      (value[..i + 1], Trim(value[i + 1..]))
  }

  /** The output buffer, the log buffer and the indentation level. */
  datatype Emit = Emit(out: string, log: string, level: u32)

  /** Formatting one trimmed line, starting from the buffers and the level in `acc`. */
  function ParseLine(value: string, acc: Emit, settings: Settings): (after: Emit)
    ensures after.level == if IsHeader(value) then 1 else acc.level
    decreases |value|
  {
    if value == [] then Emit(acc.out + "\n", acc.log, acc.level)
    else if value[0] == ':' then
      Emit(acc.out + Indent(settings.indentation, acc.level) + ":" + "\n", acc.log + COLON_ERROR, acc.level)
    else if IsHeader(value) then
      var (head, rest) := Header(value);
      var next := Emit(acc.out + head + "\n", acc.log, 1);
      if rest == [] then next
      else
        assert |rest| < |value| by { assert |rest| <= |value[|head|..]|; }
        ParseLine(rest, next, settings)
    else Emit(acc.out + Indent(settings.indentation, acc.level) + value + "\n", acc.log, acc.level)
  }

  /** One line as the buffered reader delivers it: its text, or the reason it could not be read. */
  datatype LineRead = Read(text: string) | ReadFailed(reason: string)

  /** Reading one more line: its text is trimmed and formatted, an unreadable line is only logged. */
  function Feed(before: Emit, line: LineRead, settings: Settings): Emit {
    match line
    case ReadFailed(reason) => Emit(before.out, before.log + READ_ERROR_PREFIX + reason, before.level)
    case Read(text) => ParseLine(Trim(text), before, settings)
  }

  /** Reading the given lines in order, starting from `before`. */
  function Run(before: Emit, lines: seq<LineRead>, settings: Settings): Emit
    decreases |lines|
  {
    if lines == [] then before else Run(Feed(before, lines[0], settings), lines[1..], settings)
  }

  /** A header line whose verbatim part ends at index p: that part and a line feed are put out
      with no indentation, the level becomes 1, and the trimmed rest of the line is formatted at
      level 1. */
  lemma HeaderLine(value: string, p: nat, acc: Emit, settings: Settings)
    requires p <= |value| && IsHeader(value)
    requires Header(value) == (value[..p], Trim(value[p..]))
    ensures var next := Emit(acc.out + value[..p] + "\n", acc.log, 1);
      ParseLine(value, acc, settings) ==
        if Trim(value[p..]) == [] then next else ParseLine(Trim(value[p..]), next, settings)
  {
  }

  /** A line whose first colon is at index i > 0 and that does not start with `section ` is a
      label, whose verbatim part is the label and the colon. */
  lemma LabelLine(value: string, i: nat)
    requires 0 < i < |value| && value[i] == ':' && !StartsWithSection(value)
    requires forall j :: 0 <= j < i ==> value[j] != ':'
    ensures IsHeader(value) && Header(value) == (value[..i + 1], Trim(value[i + 1..]))
  {
    IndexOfAt(value, ':', i);
  }

  /** Where the copy behind `section ` stops. */
  lemma SectionSplit(value: string, p: nat)
    requires StartsWithSection(value) && 8 <= p <= |value|
    requires if '\n' in value[8..] then p > 8 && value[p - 1] == '\n' && forall j :: 8 <= j < p - 1 ==> value[j] != '\n'
             else p == |value|
    ensures SplitAfterNewline(value[8..]) == (value[8..p], value[p..])
  {
    var s := value[8..];
    if '\n' in s {
      IndexOfAt(s, '\n', p - 9);
      assert s[..p - 8] == value[8..p];
      assert s[p - 8..] == value[p..];
    } else {
      assert forall j :: 0 <= j < |s| ==> s[j] != '\n';
      assert value[p..] == [] && value[8..p] == s;
    }
  }

  /** A line that starts with `section ` is a section header, whose verbatim part runs up to and
      including its first line feed, or to its end when it has none. */
  lemma SectionLine(value: string, p: nat)
    requires StartsWithSection(value) && 8 <= p <= |value|
    requires if '\n' in value[8..] then p > 8 && value[p - 1] == '\n' && forall j :: 8 <= j < p - 1 ==> value[j] != '\n'
             else p == |value|
    ensures IsHeader(value) && Header(value) == (value[..p], Trim(value[p..]))
  {
    SectionSplit(value, p);
    assert value[..8] + value[8..p] == value[..p];
  }

  /** An empty line puts out a lone line feed and changes neither the log nor the level. */
  lemma BlankLine(acc: Emit, settings: Settings)
    ensures ParseLine([], acc, settings) == Emit(acc.out + "\n", acc.log, acc.level)
  {
  }

  /** A line that starts with a colon puts out the indentation and the colon alone, whatever
      follows it, logs the stray-colon message and keeps the level. */
  lemma StrayColonLine(value: string, acc: Emit, settings: Settings)
    requires value != [] && value[0] == ':'
    ensures ParseLine(value, acc, settings) ==
      Emit(acc.out + Indent(settings.indentation, acc.level) + ":\n", acc.log + COLON_ERROR, acc.level)
  {
    Assoc(acc.out + Indent(settings.indentation, acc.level), ":", "\n");
  }

  /** A non-empty line with no colon that does not start with `section ` is not a header; it is
      put out verbatim behind the indentation, and neither the log nor the level changes. */
  lemma InstructionLine(value: string, acc: Emit, settings: Settings)
    requires !StartsWithSection(value)
    requires forall j :: 0 <= j < |value| ==> value[j] != ':'
    ensures !IsHeader(value)
    ensures value != [] ==>
      ParseLine(value, acc, settings) == Emit(acc.out + Indent(settings.indentation, acc.level) + value + "\n", acc.log, acc.level)
  {
    IndexOfFirst(value, ':');
  }
}
