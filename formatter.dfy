/** The formatter's operations, written the way the source performs them: each appends to
    buffers it is given and returns the extended buffers, and each is proved to produce what the
    functions of module Rules describe. */
module Formatter {
  import opened Prelude
  import opened Text
  import opened Config
  import opened Rules

  /** `write_indent`: appends `indentAmount` indentation units to the output. */
  method WriteIndent(indentation: Indentation, indentAmount: u32, output: string) returns (output': string)
    ensures output' == output + Indent(indentation, indentAmount)
  {
    output' := output;
    match indentation
    case Tabs(_) =>
      for i := 0 to indentAmount as nat
        invariant output' == output + Repeat('\t', i)
      {
        output' := output' + ['\t'];
      }
    case Spaces(amount) =>
      for i := 0 to WrappingMul(amount, indentAmount) as nat
        invariant output' == output + Repeat(' ', i)
      {
        output' := output' + [' '];
      }
  }

  /** `parse_str`: formats one trimmed line, appending to the output and the log buffers and
      updating the indentation level; the text after a label or a section header is formatted by a
      recursive call. */
  method ParseStr(value: string, output: string, log: string, indentAmount: u32, settings: Settings)
    returns (output': string, log': string, indentAmount': u32)
    ensures Emit(output', log', indentAmount') == ParseLine(value, Emit(output, log, indentAmount), settings)
    decreases |value|
  {
    output', log', indentAmount' := output, log, indentAmount;
    if value == [] {
      output' := output' + ['\n'];
      return;
    }
    var firstChar := value[0];
    if firstChar == ':' {
      log' := log' + COLON_ERROR;
      output' := WriteIndent(settings.indentation, indentAmount', output');
      output' := output' + [':'];
      output' := output' + ['\n'];
      return;
    }
    var instruction := [firstChar];
    var pos := 1;
    while pos < |value|
      invariant 1 <= pos <= |value|
      invariant instruction == value[..pos]
      invariant forall j :: 0 <= j < pos ==> value[j] != ':'
      invariant pos >= 8 ==> value[..8] != "section "
      invariant output' == output && log' == log && indentAmount' == indentAmount
    {
      var next := value[pos];
      pos := pos + 1;
      assert value[..pos] == value[..pos - 1] + [next];
      instruction := instruction + [next];
      if next == ':' || instruction == "section " {
        indentAmount' := 1;
        output' := output' + instruction;
        assert output' == output + value[..pos];
        if next != ':' {
          assert pos == 8 && StartsWithSection(value);
          while pos < |value|
            invariant 8 <= pos <= |value|
            invariant output' == output + value[..pos]
            invariant forall j :: 8 <= j < pos ==> value[j] != '\n'
          {
            var c := value[pos];
            pos := pos + 1;
            assert value[..pos] == value[..pos - 1] + [c];
            output' := output' + [c];
            if c == '\n' {
              break;
            }
          }
          assert IsHeader(value) && Header(value) == (value[..pos], Trim(value[pos..])) by {
            assert if '\n' in value[8..] then pos > 8 && value[pos - 1] == '\n' && forall j :: 8 <= j < pos - 1 ==> value[j] != '\n'
                   else pos == |value| by {
              if '\n' in value[8..] {
                var k :| 0 <= k < |value| - 8 && value[8..][k] == '\n';
                assert value[8 + k] == '\n';
              }
            }
            SectionLine(value, pos);
          }
        } else {
          assert IsHeader(value) && Header(value) == (value[..pos], Trim(value[pos..])) by {
            LabelLine(value, pos - 1);
          }
        }
        ghost var outputBefore := output';
        assert outputBefore == output + value[..pos];
        var theRest := Trim(value[pos..]);
        output' := output' + ['\n'];
        assert output' == outputBefore + "\n";
        ghost var next := Emit(output + value[..pos] + "\n", log', 1);
        assert ParseLine(value, Emit(output, log, indentAmount), settings) ==
          if theRest == [] then next else ParseLine(theRest, next, settings) by {
          HeaderLine(value, pos, Emit(output, log, indentAmount), settings);
        }
        if theRest != [] {
          output', log', indentAmount' := ParseStr(theRest, output', log', indentAmount', settings);
        }
        return;
      }
    }
    assert instruction == value;
    InstructionLine(value, Emit(output, log, indentAmount), settings);
    output' := WriteIndent(settings.indentation, indentAmount', output');
    output' := output' + instruction;
    output' := output' + ['\n'];
  }

  /** `format`: reads a document line by line, trimming and formatting each line, with one
      indentation level that starts at 0 and is threaded through all lines; returns the output,
      and the log buffer, which is the caller's, extended. */
  method Format(lines: seq<LineRead>, log: string, settings: Settings) returns (output: string, log': string)
    ensures output == Run(Emit([], log, 0), lines, settings).out
    ensures log' == Run(Emit([], log, 0), lines, settings).log
  {
    var indentAmount: u32 := 0;
    output, log' := [], log;
    for i := 0 to |lines|
      invariant Run(Emit(output, log', indentAmount), lines[i..], settings) == Run(Emit([], log, 0), lines, settings)
    {
      assert lines[i..][1..] == lines[i + 1..];
      match lines[i]
      case ReadFailed(reason) =>
        log' := log' + READ_ERROR_PREFIX + reason;
      case Read(text) =>
        var line := Trim(text);
        output, log', indentAmount := ParseStr(line, output, log', indentAmount, settings);
    }
  }
}
