# nasm_formatter in Dafny

A model of the line formatter of `nasm_formatter`, a style formatter for NASM assembly listings,
and proofs about it.

The formatter reads a file line by line and trims each line. It hands each line to `parse_str`,
which appends the formatted text to an output buffer and any diagnostics to a log buffer. All
lines share one indentation counter. `parse_str` handles four kinds of line:

- An empty line becomes a lone line feed.
- A line that starts with a colon logs "Parsing Error: Colon without an identifier in front of
  it." Its output is the current indentation, a colon and a line feed; the rest of the line is
  dropped.
- A label or section header sets the indentation counter to 1.
  - A label is everything up to and including the first colon. A section header is the text
    `section ` together with everything after it, up to and including the first line feed.
  - That text is copied verbatim, followed by a line feed.
  - Whatever follows it is trimmed and, when not empty, formatted as a line of its own.
- Any other line is written behind the current indentation, followed by a line feed.

`write_indent` renders one level as one tab or as `amount` spaces.

The project has these modules:

- `Prelude`: the `u32` type, `Option`, and `u32` multiplication with wrap-around.
- `Text`: the character operations the code relies on.
  - `str::trim`, using Unicode White_Space.
  - Finding one character.
  - `BufRead::lines` (`Lines`) and its inverse for plain lines (`Unlines`).
- `Config`: `Indentation`, `Settings` and `Settings::default`.
- `Rules`: the formatting rules as functions.
  - `ParseLine` is what `parse_str` does to the output buffer, the log buffer and the level.
    It is written in accumulator style: it takes the buffers and the level as an `Emit` value and
    returns them extended.
  - `Run` is the driver loop of `format` over a sequence of read results.
  - Lemmas for each kind of line.
- `Formatter`: the source's three procedures as imperative methods.
  - `WriteIndent`, `ParseStr` and `Format`.
  - They use the same loops and the same branches as the source.
  - Each is proved to produce exactly what `Indent`, `ParseLine` or `Run` describe.
- `Properties`: what formatting guarantees.
  - The output is only appended to, and consists of whole lines.
  - The log gains only the expected messages.
  - The level is 1 exactly when a header has been seen.
  - An unreadable line leaves the output alone.
  - The shape of the indentation.
- `Reformat`: formatting is idempotent. Formatting a document, reading the output back through
  the line reader and formatting it again gives the same output.

## Model

| member | source | states |
|---|---|---|
| Formatter.WriteIndent | src/main.rs:149-162 | the output gains exactly `Indent(indentation, indentAmount)`: `indentAmount` tabs, or `amount * indentAmount` (mod 2^32) spaces; the loops push one character per step |
| Formatter.ParseStr | src/main.rs:92-146 | the new output buffer, log buffer and indentation level are exactly those `Rules.ParseLine` gives for the line and the old buffers and level; covers the empty line, the stray colon, the character scan for `:` or `section `, the verbatim copy up to the first line feed, and the recursive call on the trimmed rest |
| Formatter.Format | src/main.rs:66-89 | the returned output and the extended log buffer are exactly `Rules.Run` over the read results, starting from an empty output and level 0; a read error appends the error message to the log and skips the line |
| Prelude.WrappingMul | src/main.rs:157 | multiplying by 0 gives 0 and multiplying by 1 gives the other factor, even though the product wraps modulo 2^32 |
| Text.Trim | src/main.rs:73 | the result has no whitespace at either end, is no longer than the input, and is the input itself when the input is already trimmed |
| Text.TrimSplit | src/main.rs:73 | trimming removes only whitespace and only at the two ends: the input is whitespace, then the trimmed text, then whitespace |
| Text.LinesOfUnlines | src/main.rs:71 | reading back with the line reader a text made of plain lines, each followed by a line feed, gives exactly those lines |
| Rules.Header | src/main.rs:121-138 | the verbatim part of a header line is a non-empty prefix of the line, and the remainder is the trimmed text after that prefix, so it is strictly shorter than the line and the recursion on it terminates |
| Rules.ParseLine | src/main.rs:99-145 | after formatting a line, the level is 1 if the line is a label or section header, and otherwise it is unchanged |
| Rules.BlankLine | src/main.rs:99-106 | an empty line appends a single line feed and changes neither the log nor the level |
| Rules.StrayColonLine | src/main.rs:108-117 | a line starting with `:` appends the current indentation, a colon and a line feed, whatever follows the colon; it logs the stray-colon message and keeps the level |
| Rules.InstructionLine | src/main.rs:119-145 | a line with no colon that does not start with `section ` is not a header; when non-empty, it is appended verbatim behind the current indentation plus a line feed, with log and level unchanged |
| Rules.LabelLine | src/main.rs:121-126 | a line whose first colon is at index i > 0, not starting with `section `, is a header whose verbatim part is the text through that colon and whose rest is the trimmed text after it |
| Rules.SectionLine | src/main.rs:121-135 | a line starting with `section ` is a header whose verbatim part runs through the first line feed after the keyword, or to the end of the line when there is none; the rest is the trimmed remainder |
| Rules.HeaderLine | src/main.rs:123-140 | for a header, formatting appends the verbatim part and a line feed and sets the level to 1; it then either stops (empty rest) or formats the rest from there |
| Properties.ParseLineText | src/main.rs:92-146 | formatting one line appends exactly its output lines (`LineText`), each followed by a line feed, to the old output |
| Properties.ParseLineAppends | src/main.rs:92-146 | the old output is a proper prefix of the new output, which ends in a line feed, and the old log is a prefix of the new log |
| Properties.ParseLineLog | src/main.rs:108-117 | formatting one line appends to the log either nothing or the stray-colon message once; nothing for a line without a colon; the message for a line that starts with one |
| Properties.RunText | src/main.rs:66-89 | formatting a document appends to the output exactly the lines of all its readable lines, in order, each followed by a line feed |
| Properties.RunLevel | src/main.rs:67-87 | after a document, the level is 1 if some readable line was a label or section header, and otherwise the starting level |
| Properties.LevelSticks | src/main.rs:123-124 | starting from level 0 or 1, the level stays within 0 and 1, and once it is 1 no later line sets it back |
| Properties.RunAppend | src/main.rs:71-87 | formatting two documents one after the other is formatting their concatenation, with the level and both buffers carried over |
| Properties.RunLog | src/main.rs:71-87 | the log buffer is only appended to |
| Properties.UnreadableLine | src/main.rs:74-77 | inserting an unreadable line anywhere in a document changes neither the output nor the final level |
| Properties.IndentShape | src/main.rs:149-162 | tab indentation is `level` tabs; space indentation consists only of spaces, `amount * level` of them modulo 2^32 |
| Properties.IndentBlank | src/main.rs:149-162 | an indentation consists only of whitespace and holds no line feed |
| Properties.IndentNoWrap | src/main.rs:156-159 | at the levels the formatter reaches (0 and 1) the number of spaces is exactly `amount * level`, without wrap-around |
| Properties.DefaultIndent | src/main.rs:37-54 | with the default settings every indentation level is one tab |
| Reformat.HeaderReparses | src/main.rs:121-138 | the verbatim part of a trimmed header line without a line feed is itself a plain, trimmed header line whose verbatim part is all of it, with nothing after it |
| Reformat.RereadLine | src/main.rs:92-146 | formatting again, at the same level, the lines one trimmed line was put out as appends those same lines, and leaves the level the line itself leaves |
| Reformat.FormatIdempotent | src/main.rs:66-89 | for a document whose lines hold no line feed, reading the output back through the line reader and formatting it again gives the same output, with any log buffer |

## Left out

- File and `BufReader` I/O. The input of `Format` is the sequence of results the reader yields: `Read(text)` is a line read successfully and `ReadFailed(reason)` is a read error. `reason` stands for the error's display text.
- The console echo in the `log!` macro (`println!`). Only the append to the log buffer is modelled.
- `unlikely` and `probably_not`. They are branch-prediction hints with no effect on the result.
- The settings fields other than `indentation`. No code reads them, so they are carried but play no part. `Tabs.charlen` is not read either.
- Lower-casing, comma spacing, operand handling and inline labels. The `Settings` fields `inline_labels` and `lowercase_*` (src/main.rs:23-35) declare these features, but no code reads them, so the model follows the code. `mov eax,1` is copied unchanged, and a header is always followed by a line feed.
- WriteIndent: a debug build of the source panics when `amount * indent_amount` overflows `u32`. The model wraps modulo 2^32, as a release build does. `Properties.IndentNoWrap` shows the product never overflows at the levels the formatter reaches.
- Text.Trim: `str::trim` works on Unicode scalar values. The model works on Dafny `char` values with the White_Space code point table, and has no notion of encoding.
- Text.Lines: the model of `BufRead::lines` splits at line feeds and drops one carriage return that ends a line. Invalid UTF-8, which the real reader reports as an error, is represented only through `ReadFailed`.
- FormatIdempotent: idempotence is stated for documents whose lines hold no line feed. The line reader never yields such lines, so this covers every document `format` receives from a file.
- `main` and the test module.
