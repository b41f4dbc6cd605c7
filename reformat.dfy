/** Formatting is idempotent: reading the output back line by line and formatting it again gives
    the same output. */
module Reformat {
  import opened Prelude
  import opened Text
  import opened Config
  import opened Rules
  import opened Properties

  /** The lines a reader yields for the given texts, all read successfully. */
  function ReadAll(texts: seq<string>): (lines: seq<LineRead>)
    ensures |lines| == |texts|
  {
    if texts == [] then [] else [Read(texts[0])] + ReadAll(texts[1..])
  }

  lemma {:induction false} ReadAllAppend(a: seq<string>, b: seq<string>)
    ensures ReadAll(a + b) == ReadAll(a) + ReadAll(b)
  {
    if a == [] {
      assert a + b == b;
    } else {
      assert (a + b)[1..] == a[1..] + b;
      ReadAllAppend(a[1..], b);
    }
  }

  /** A section header line without a line feed is copied whole. */
  lemma SectionWhole(value: string)
    requires StartsWithSection(value) && '\n' !in value
    ensures IsHeader(value) && Header(value) == (value, [])
  {
    SectionLine(value, |value|);
    assert value[..|value|] == value;
  }

  /** A label line whose only colon ends it is a label with nothing after it. */
  lemma LabelAlone(head: string, i: nat)
    requires 0 < i && |head| == i + 1 && head[i] == ':' && !StartsWithSection(head)
    requires forall j :: 0 <= j < i ==> head[j] != ':'
    ensures IsHeader(head) && Header(head) == (head, [])
  {
    assert head[..i + 1] == head && head[i + 1..] == [] && Trim([]) == [];
    assert IsHeader(head) && Header(head) == (head[..i + 1], Trim(head[i + 1..])) by {
      LabelLine(head, i);
    }
  }

  /** The verbatim part of a label line is a label line with nothing after the colon. */
  lemma LabelReparses(value: string, i: nat)
    requires 0 < i < |value| && value[i] == ':' && !StartsWithSection(value)
    requires forall j :: 0 <= j < i ==> value[j] != ':'
    ensures IsHeader(value[..i + 1]) && Header(value[..i + 1]) == (value[..i + 1], [])
  {
    var head := value[..i + 1];
    assert !StartsWithSection(head) by {
      if |head| >= 8 {
        assert head[..8] == value[..8];
      }
    }
    LabelAlone(head, i);
  }

  /** The verbatim part of a trimmed header line without a line feed is a trimmed header line
      of its own with nothing after it. */
  lemma HeaderReparses(value: string)
    requires IsHeader(value) && IsTrimmed(value) && '\n' !in value
    ensures var head := Header(value).0;
      IsPlainLine(head) && Trim(head) == head && IsHeader(head) && Header(head) == (head, [])
  {
    if StartsWithSection(value) {
      SectionWhole(value);
      TrimmedIsPlain(value);
    } else {
      LabelHeadReparses(value);
    }
  }

  /** The verbatim part of a trimmed header line without a line feed, taken as a one-line
      document, is plain. */
  lemma HeadPlainLines(value: string)
    requires IsHeader(value) && IsTrimmed(value) && '\n' !in value
    ensures AllPlain([Header(value).0])
  {
    var head := Header(value).0;
    assert IsPlainLine(head) by {
      HeaderReparses(value);
    }
    OnePlain([head]);
  }

  /** The label case of HeaderReparses: the label and its colon. */
  lemma LabelHeadReparses(value: string)
    requires IsHeader(value) && IsTrimmed(value) && '\n' !in value && !StartsWithSection(value)
    ensures var head := Header(value).0;
      IsPlainLine(head) && Trim(head) == head && IsHeader(head) && Header(head) == (head, [])
  {
    var i := FirstColon(value);
    assert Header(value).0 == value[..i + 1] by {
      LabelLine(value, i);
    }
    LabelReparses(value, i);
    LabelPlain(value, i);
  }

  /** A header that does not start with `section ` has its first colon at some index i > 0. */
  lemma FirstColon(value: string) returns (i: nat)
    requires IsHeader(value) && !StartsWithSection(value)
    ensures 0 < i < |value| && value[i] == ':'
    ensures forall j :: 0 <= j < i ==> value[j] != ':'
  {
    i := IndexOf(value, ':').value;
    IndexOfFirst(value, ':');
  }

  /** A label with its colon, cut from a trimmed line without a line feed, is plain and
      trimmed. */
  lemma LabelPlain(value: string, i: nat)
    requires 0 < i < |value| && value[i] == ':' && '\n' !in value
    requires value != [] && !IsWhitespace(value[0])
    ensures IsPlainLine(value[..i + 1]) && Trim(value[..i + 1]) == value[..i + 1]
  {
    var head := value[..i + 1];
    assert head[0] == value[0] && head[i] == ':';
    AsciiWhitespace(':');
    assert '\n' !in head by {
      assert forall k :: 0 <= k < |head| ==> head[k] == value[k];
    }
    TrimmedIsPlain(head);
  }

  /** Reading one line is formatting its trimmed text. */
  lemma RunOne(acc: Emit, l: string, settings: Settings)
    ensures Run(acc, ReadAll([l]), settings) == ParseLine(Trim(l), acc, settings)
  {
    assert ReadAll([l]) == [Read(l)];
  }

  /** The line a non-header line is put out as is plain and trims back to the line, or to a lone
      colon when the line starts with one. */
  lemma SingleLineTrims(value: string, level: u32, settings: Settings)
    requires !IsHeader(value) && IsTrimmed(value) && '\n' !in value
    ensures |LineText(value, level, settings)| == 1
    ensures IsPlainLine(LineText(value, level, settings)[0])
    ensures Trim(LineText(value, level, settings)[0]) == if value != [] && value[0] == ':' then ":" else value
  {
    var indent := Indent(settings.indentation, level);
    IndentBlank(settings.indentation, level);
    if value == [] {
      assert LineText(value, level, settings) == [[]];
    } else if value[0] == ':' {
      AsciiWhitespace(':');
      PaddedPlain(indent, ":");
    } else {
      PaddedPlain(indent, value);
    }
  }

  /** The lines one trimmed line without a line feed is put out as are plain lines. */
  lemma {:induction false} LineTextPlain(value: string, level: u32, settings: Settings)
    requires IsTrimmed(value) && '\n' !in value
    ensures AllPlain(LineText(value, level, settings))
    decreases |value|, 1
  {
    if !IsHeader(value) {
      SingleLineTrims(value, level, settings);
      OnePlain(LineText(value, level, settings));
    } else {
      HeaderTextPlain(value, level, settings);
    }
  }

  /** The header case of LineTextPlain: the verbatim part is a plain line, and so are the lines
      of the rest. */
  lemma {:induction false} HeaderTextPlain(value: string, level: u32, settings: Settings)
    requires IsHeader(value) && IsTrimmed(value) && '\n' !in value
    ensures AllPlain(LineText(value, level, settings))
    decreases |value|, 0
  {
    var head := Header(value).0;
    var rest := Header(value).1;
    HeadPlainLines(value);
    if rest == [] {
      assert LineText(value, level, settings) == [head] by {
        HeaderLineText(value, level, settings);
      }
    } else {
      assert LineText(value, level, settings) == [head] + LineText(rest, 1, settings) by {
        HeaderLineText(value, level, settings);
      }
      assert |rest| < |value| && '\n' !in rest && IsTrimmed(rest) by {
        HeaderRest(value);
      }
      assert AllPlain(LineText(rest, 1, settings)) by {
        LineTextPlain(rest, 1, settings);
      }
      PlainLinesAppend([head], LineText(rest, 1, settings));
    }
  }

  /** A line that is not a header is put out as one line, which formats again to itself. */
  lemma RereadSingle(value: string, acc: Emit, settings: Settings)
    requires !IsHeader(value) && IsTrimmed(value) && '\n' !in value
    ensures Run(acc, ReadAll(LineText(value, acc.level, settings)), settings) == ParseLine(value, acc, settings)
    ensures ParseLine(value, acc, settings).out == acc.out + Unlines(LineText(value, acc.level, settings))
  {
    var lines := LineText(value, acc.level, settings);
    var l := lines[0];
    assert lines == [l];
    SingleLineTrims(value, acc.level, settings);
    RunOne(acc, l, settings);
    SingleLineText(value, acc, settings);
    if value != [] && value[0] == ':' {
      StrayColonLine(value, acc, settings);
      StrayColonLine(":", acc, settings);
    }
  }

  /** The first line a header line is put out as formats again to itself and sets level 1. */
  lemma RereadHead(value: string, acc: Emit, settings: Settings)
    requires IsHeader(value) && IsTrimmed(value) && '\n' !in value
    ensures Run(acc, ReadAll([Header(value).0]), settings) == Emit(acc.out + Header(value).0 + "\n", acc.log, 1)
    ensures acc.out + Header(value).0 + "\n" == acc.out + Unlines([Header(value).0])
  {
    var head := Header(value).0;
    assert Trim(head) == head && IsHeader(head) && Header(head) == (head, []) by {
      HeaderReparses(value);
    }
    assert Run(acc, ReadAll([head]), settings) == ParseLine(head, acc, settings) by {
      RunOne(acc, head, settings);
    }
    HeaderAlone(head, acc, settings);
    UnlinesOne(head);
    Assoc(acc.out, head, "\n");
  }

  /** A header with nothing after its verbatim part puts out that part and a line feed and sets
      level 1. */
  lemma HeaderAlone(head: string, acc: Emit, settings: Settings)
    requires IsHeader(head) && Header(head) == (head, [])
    ensures ParseLine(head, acc, settings) == Emit(acc.out + head + "\n", acc.log, 1)
  {
  }

  /** What follows a header is shorter than the line and, like the line, has no line feed. */
  lemma HeaderRest(value: string)
    requires IsHeader(value) && '\n' !in value
    ensures |Header(value).1| < |value| && '\n' !in Header(value).1
  {
    var (head, rest) := Header(value);
    assert |rest| <= |value[|head|..]|;
    TrimKeeps(value[|head|..], '\n');
  }

  /** Lines that read back to themselves, followed by more such lines, read back to the whole. */
  lemma RereadJoin(acc: Emit, front: seq<string>, tail: seq<string>, settings: Settings)
    requires Run(acc, ReadAll(front), settings).out == acc.out + Unlines(front)
    requires Run(Run(acc, ReadAll(front), settings), ReadAll(tail), settings).out ==
      Run(acc, ReadAll(front), settings).out + Unlines(tail)
    ensures Run(acc, ReadAll(front + tail), settings) == Run(Run(acc, ReadAll(front), settings), ReadAll(tail), settings)
    ensures Run(acc, ReadAll(front + tail), settings).out == acc.out + Unlines(front + tail)
  {
    ReadAllAppend(front, tail);
    RunAppend(acc, ReadAll(front), ReadAll(tail), settings);
    UnlinesAppend(front, tail);
    Assoc(acc.out, Unlines(front), Unlines(tail));
  }

  /** Formatting again, at the same level, the lines one trimmed line without a line feed is
      put out as puts out the same lines and leaves the same level. */
  lemma {:induction false} RereadLine(value: string, acc: Emit, settings: Settings)
    requires IsTrimmed(value) && '\n' !in value
    ensures Run(acc, ReadAll(LineText(value, acc.level, settings)), settings).out ==
      acc.out + Unlines(LineText(value, acc.level, settings))
    ensures Run(acc, ReadAll(LineText(value, acc.level, settings)), settings).level ==
      if IsHeader(value) then 1 else acc.level
    decreases |value|, 1
  {
    if IsHeader(value) {
      RereadHeader(value, acc, settings);
    } else {
      RereadSingle(value, acc, settings);
    }
  }

  /** The header case of RereadLine: the verbatim part reads back to itself and sets level 1,
      and the rest reads back to itself at level 1. */
  lemma {:induction false} RereadHeader(value: string, acc: Emit, settings: Settings)
    requires IsHeader(value) && IsTrimmed(value) && '\n' !in value
    ensures Run(acc, ReadAll(LineText(value, acc.level, settings)), settings).out ==
      acc.out + Unlines(LineText(value, acc.level, settings))
    ensures Run(acc, ReadAll(LineText(value, acc.level, settings)), settings).level == 1
    decreases |value|, 0
  {
    var (head, rest) := Header(value);
    HeaderLineText(value, acc.level, settings);
    RereadHead(value, acc, settings);
    if rest != [] {
      HeaderRest(value);
      RereadLine(rest, Emit(acc.out + head + "\n", acc.log, 1), settings);
      RereadJoin(acc, [head], LineText(rest, 1, settings), settings);
    }
  }

  /** No line the reader delivers contains a line feed. */
  predicate SingleLines(lines: seq<LineRead>) {
    forall i :: 0 <= i < |lines| && lines[i].Read? ==> '\n' !in lines[i].text
  }

  lemma SingleLinesTail(lines: seq<LineRead>)
    requires lines != [] && SingleLines(lines)
    ensures SingleLines(lines[1..])
  {
    forall i | 0 <= i < |lines[1..]| && lines[1..][i].Read?
      ensures '\n' !in lines[1..][i].text
    {
      assert lines[1..][i] == lines[i + 1];
    }
  }

  /** The lines a document whose lines hold no line feed is put out as are plain lines. */
  lemma {:induction false} DocTextPlain(lines: seq<LineRead>, level: u32, settings: Settings)
    requires SingleLines(lines)
    ensures AllPlain(DocText(lines, level, settings))
    decreases |lines|
  {
    if lines != [] {
      SingleLinesTail(lines);
      match lines[0]
      case ReadFailed(_) =>
        DocTextPlain(lines[1..], level, settings);
      case Read(t) =>
        var value := Trim(t);
        TrimKeeps(t, '\n');
        LineTextPlain(value, level, settings);
        var next := if IsHeader(value) then 1 else level;
        DocTextPlain(lines[1..], next, settings);
        PlainLinesAppend(LineText(value, level, settings), DocText(lines[1..], next, settings));
    }
  }

  /** Formatting again, from the same level, the lines a document is put out as puts out the
      same lines. */
  lemma {:induction false} RereadDocument(lines: seq<LineRead>, acc: Emit, settings: Settings)
    requires SingleLines(lines)
    ensures Run(acc, ReadAll(DocText(lines, acc.level, settings)), settings).out ==
      acc.out + Unlines(DocText(lines, acc.level, settings))
    decreases |lines|
  {
    if lines == [] {
      assert acc.out + [] == acc.out;
    } else {
      SingleLinesTail(lines);
      match lines[0]
      case ReadFailed(_) =>
        RereadDocument(lines[1..], acc, settings);
      case Read(t) =>
        var value := Trim(t);
        TrimKeeps(t, '\n');
        var here := LineText(value, acc.level, settings);
        RereadLine(value, acc, settings);
        var mid := Run(acc, ReadAll(here), settings);
        RereadDocument(lines[1..], mid, settings);
        RereadJoin(acc, here, DocText(lines[1..], mid.level, settings), settings);
    }
  }

  /** Formatting is idempotent: formatting a document whose lines hold no line feed, reading the
      output back through the line reader and formatting that again gives the same output, with
      any log buffer. */
  lemma FormatIdempotent(lines: seq<LineRead>, log: string, log2: string, settings: Settings)
    requires SingleLines(lines)
    ensures var output := Run(Emit([], log, 0), lines, settings).out;
      Run(Emit([], log2, 0), ReadAll(Lines(output)), settings).out == output
  {
    var text := DocText(lines, 0, settings);
    RunText(Emit([], log, 0), lines, settings);
    DocTextPlain(lines, 0, settings);
    RereadDocument(lines, Emit([], log2, 0), settings);
    LinesOfUnlines(text);
    assert [] + Unlines(text) == Unlines(text);
  }
}
