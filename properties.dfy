/** What the formatting rules guarantee: the output is a sequence of whole lines, the log buffer
    and the output buffer are only appended to, the indentation level is 1 exactly when a header
    has been seen, an unreadable line affects only the log, and formatting the output again gives
    the same output. */
module Properties {
  import opened Prelude
  import opened Text
  import opened Config
  import opened Rules

  /** The lines one trimmed line is put out as, each without its line feed. */
  function LineText(value: string, level: u32, settings: Settings): (lines: seq<string>)
    ensures |lines| >= 1
    decreases |value|
  {
    if value == [] then [""]
    else if value[0] == ':' then [Indent(settings.indentation, level) + ":"]
    else if IsHeader(value) then
      var (head, rest) := Header(value);
      if rest == [] then [head]
      else
        assert |rest| < |value| by { assert |rest| <= |value[|head|..]|; }
        [head] + LineText(rest, 1, settings)
    else [Indent(settings.indentation, level) + value]
  }

  /** A line that is not a header is put out as a single line. */
  lemma SingleLineText(value: string, acc: Emit, settings: Settings)
    requires !IsHeader(value)
    ensures ParseLine(value, acc, settings).out == acc.out + Unlines(LineText(value, acc.level, settings))
  {
    var l := LineText(value, acc.level, settings)[0];
    assert LineText(value, acc.level, settings) == [l];
    assert Unlines([l]) == l + "\n";
  }

  /** The lines of a header line: its verbatim part, then the lines of the trimmed rest. */
  lemma HeaderLineText(value: string, level: u32, settings: Settings)
    requires IsHeader(value)
    ensures var (head, rest) := Header(value);
      LineText(value, level, settings) == if rest == [] then [head] else [head] + LineText(rest, 1, settings)
  {
  }

  /** Formatting one line appends exactly its lines, each followed by a line feed. */
  lemma {:induction false} ParseLineText(value: string, acc: Emit, settings: Settings)
    ensures ParseLine(value, acc, settings).out == acc.out + Unlines(LineText(value, acc.level, settings))
    decreases |value|
  {
    if !IsHeader(value) {
      SingleLineText(value, acc, settings);
    } else {
      var (head, rest) := Header(value);
      var next := Emit(acc.out + head + "\n", acc.log, 1);
      if rest == [] {
        assert Unlines([head]) == head + "\n";
      } else {
        assert |rest| < |value| by { assert |rest| <= |value[|head|..]|; }
        var tail := LineText(rest, 1, settings);
        HeaderLine(value, |head|, acc, settings);
        HeaderLineText(value, acc.level, settings);
        assert C: Unlines([head] + tail) == head + "\n" + Unlines(tail) by {
          assert ([head] + tail)[1..] == tail;
        }
        ParseLineText(rest, next, settings);
        Regroup(acc.out, head, "\n", Unlines(tail));
      }
    }
  }

  /** Formatting one line logs at most one message, the stray-colon message, and none at all
      for a line without a colon. */
  lemma {:induction false} ParseLineLog(value: string, acc: Emit, settings: Settings)
    ensures var log := ParseLine(value, acc, settings).log;
      log == acc.log || log == acc.log + COLON_ERROR
    ensures ':' !in value ==> ParseLine(value, acc, settings).log == acc.log
    ensures value != [] && value[0] == ':' ==> ParseLine(value, acc, settings).log == acc.log + COLON_ERROR
    decreases |value|
  {
    if IsHeader(value) {
      var (head, rest) := Header(value);
      if rest != [] {
        assert |rest| < |value| by { assert |rest| <= |value[|head|..]|; }
        ParseLineLog(rest, Emit(acc.out + head + "\n", acc.log, 1), settings);
        if ':' !in value {
          TrimKeeps(value[|head|..], ':');
        }
      }
    }
  }

  /** Formatting one line only appends: the old output is a proper prefix of the new one, which
      ends in a line feed, and the old log is a prefix of the new log. */
  lemma ParseLineAppends(value: string, acc: Emit, settings: Settings)
    ensures acc.out < ParseLine(value, acc, settings).out
    ensures EndsWithLineFeed(ParseLine(value, acc, settings).out)
    ensures acc.log <= ParseLine(value, acc, settings).log
  {
    ParseLineText(value, acc, settings);
    ParseLineLog(value, acc, settings);
    var added := Unlines(LineText(value, acc.level, settings));
    assert ParseLine(value, acc, settings).out[|acc.out|..] == added;
  }

  /** The lines a document is put out as, each without its line feed; an unreadable line puts
      out nothing. */
  function DocText(lines: seq<LineRead>, level: u32, settings: Settings): seq<string>
    decreases |lines|
  {
    if lines == [] then []
    else
      match lines[0]
      case ReadFailed(_) => DocText(lines[1..], level, settings)
      case Read(text) =>
        var value := Trim(text);
        LineText(value, level, settings) + DocText(lines[1..], if IsHeader(value) then 1 else level, settings)
  }

  /** Reading a document appends exactly its lines to the output, each followed by a line feed. */
  lemma {:induction false} RunText(acc: Emit, lines: seq<LineRead>, settings: Settings)
    ensures Run(acc, lines, settings).out == acc.out + Unlines(DocText(lines, acc.level, settings))
    decreases |lines|
  {
    if lines == [] {
      assert acc.out + [] == acc.out;
    } else {
      var after := Feed(acc, lines[0], settings);
      RunText(after, lines[1..], settings);
      match lines[0]
      case ReadFailed(_) =>
      case Read(text) =>
        var value := Trim(text);
        ParseLineText(value, acc, settings);
        var here := LineText(value, acc.level, settings);
        var later := DocText(lines[1..], after.level, settings);
        assert DocText(lines, acc.level, settings) == here + later;
        UnlinesAppend(here, later);
        Assoc(acc.out, Unlines(here), Unlines(later));
    }
  }

  /** The line is read and its trimmed text is a label or a section header. */
  predicate ReadsHeader(line: LineRead) {
    line.Read? && IsHeader(Trim(line.text))
  }

  /** The indentation level after a document is 1 if a header has been read and otherwise the
      level it started with. */
  lemma {:induction false} RunLevel(acc: Emit, lines: seq<LineRead>, settings: Settings)
    ensures Run(acc, lines, settings).level ==
      if exists i :: 0 <= i < |lines| && ReadsHeader(lines[i]) then 1 else acc.level
    decreases |lines|
  {
    if lines != [] {
      var after := Feed(acc, lines[0], settings);
      RunLevel(after, lines[1..], settings);
      assert after.level == if ReadsHeader(lines[0]) then 1 else acc.level;
      if exists j :: 0 <= j < |lines[1..]| && ReadsHeader(lines[1..][j]) {
        var j :| 0 <= j < |lines[1..]| && ReadsHeader(lines[1..][j]);
        assert ReadsHeader(lines[j + 1]);
      }
      if exists i :: 0 <= i < |lines| && ReadsHeader(lines[i]) {
        var i :| 0 <= i < |lines| && ReadsHeader(lines[i]);
        if i > 0 {
          assert ReadsHeader(lines[1..][i - 1]);
        }
      }
    }
  }

  /** Formatting from level zero only ever sees levels zero and one, and once a header has
      raised the level to one no later line lowers it. */
  lemma LevelSticks(acc: Emit, xs: seq<LineRead>, ys: seq<LineRead>, settings: Settings)
    requires acc.level <= 1
    ensures Run(acc, xs + ys, settings).level <= 1
    ensures Run(acc, xs, settings).level == 1 ==> Run(acc, xs + ys, settings).level == 1
  {
    RunAppend(acc, xs, ys, settings);
    RunLevel(acc, xs, settings);
    RunLevel(Run(acc, xs, settings), ys, settings);
  }

  /** Reading two documents one after the other is reading their concatenation. */
  lemma {:induction false} RunAppend(acc: Emit, xs: seq<LineRead>, ys: seq<LineRead>, settings: Settings)
    ensures Run(acc, xs + ys, settings) == Run(Run(acc, xs, settings), ys, settings)
    decreases |xs|
  {
    if xs == [] {
      assert xs + ys == ys;
    } else {
      assert (xs + ys)[1..] == xs[1..] + ys;
      RunAppend(Feed(acc, xs[0], settings), xs[1..], ys, settings);
    }
  }

  /** The log buffer is only appended to. */
  lemma {:induction false} RunLog(acc: Emit, lines: seq<LineRead>, settings: Settings)
    ensures acc.log <= Run(acc, lines, settings).log
    decreases |lines|
  {
    if lines != [] {
      var after := Feed(acc, lines[0], settings);
      RunLog(after, lines[1..], settings);
      if lines[0].Read? {
        ParseLineLog(Trim(lines[0].text), acc, settings);
      }
    }
  }

  /** An unreadable line changes only the log: the output and the level are those of the
      document without it. */
  lemma UnreadableLine(acc: Emit, xs: seq<LineRead>, reason: string, ys: seq<LineRead>, settings: Settings)
    ensures Run(acc, xs + [ReadFailed(reason)] + ys, settings).out == Run(acc, xs + ys, settings).out
    ensures Run(acc, xs + [ReadFailed(reason)] + ys, settings).level == Run(acc, xs + ys, settings).level
  {
    var mid := Run(acc, xs, settings);
    var logged := Feed(mid, ReadFailed(reason), settings);
    assert xs + [ReadFailed(reason)] + ys == xs + ([ReadFailed(reason)] + ys);
    RunAppend(acc, xs, [ReadFailed(reason)] + ys, settings);
    RunAppend(acc, xs, ys, settings);
    assert ([ReadFailed(reason)] + ys)[1..] == ys;
    assert Run(mid, [ReadFailed(reason)] + ys, settings) == Run(logged, ys, settings);
    RunText(logged, ys, settings);
    RunText(mid, ys, settings);
    RunLevel(logged, ys, settings);
    RunLevel(mid, ys, settings);
  }

  /** An indentation is `level` tabs, whatever the configured tab width, or the wrapped product
      of the configured width and `level` spaces. */
  lemma IndentShape(indentation: Indentation, level: u32)
    ensures indentation.Tabs? ==> Indent(indentation, level) == Repeat('\t', level as nat)
    ensures indentation.Spaces? ==>
      |Indent(indentation, level)| == (indentation.amount as int * level as int) % 0x1_0000_0000 &&
      forall i :: 0 <= i < |Indent(indentation, level)| ==> Indent(indentation, level)[i] == ' '
  {
  }

  /** An indentation holds only tabs or spaces: whitespace, and no line feed. */
  lemma IndentBlank(indentation: Indentation, level: u32)
    ensures AllWhitespace(Indent(indentation, level))
    ensures '\n' !in Indent(indentation, level)
  {
    var s := Indent(indentation, level);
    assert IsWhitespace('\t') && IsWhitespace(' ');
    assert forall i :: 0 <= i < |s| ==> s[i] == '\t' || s[i] == ' ';
  }

  /** At the levels a document reaches, 0 and 1, the width product never wraps around. */
  lemma IndentNoWrap(amount: u32, level: u32)
    requires level <= 1
    ensures |Indent(Spaces(amount), level)| == amount as int * level as int
  {
  }

  /** With the default settings every level of indentation is one tab. */
  lemma DefaultIndent(level: u32)
    ensures Indent(DefaultSettings().indentation, level) == Repeat('\t', level as nat)
  {
  }
}
