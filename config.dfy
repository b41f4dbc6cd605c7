/** The style configuration of the formatter. */
module Config {
  import opened Prelude

  /** How one indentation unit is rendered. `charlen` documents the width a tab is meant to have;
      no code reads it. */
  datatype Indentation = Tabs(charlen: u32) | Spaces(amount: u32)

  /** The formatting options. Only `indentation` influences the output; the other fields are
      declared and carried but no code reads them. */
  datatype Settings = Settings(
    indentation: Indentation,
    inlineLabels: bool,
    lowercaseInstructions: bool,
    lowercaseRegisters: bool,
    lowercaseCustomNames: bool,
    lineLengthLimit: Option<u32>,
    allowMultilineInstructions: bool,
    alignAssemblerDirectives: bool,
    alignLabelsToStartOfLine: bool,
    alignInstructionStatements: bool,
    allowDoubleSlashComments: bool)

  /** `Settings::default`: tabs of width 4, labels on their own line, everything lower case,
      lines of at most 120 characters, alignment and double-slash comments on. */
  function DefaultSettings(): Settings {
    Settings(
      indentation := Tabs(4),
      inlineLabels := false,
      lowercaseInstructions := true,
      lowercaseRegisters := true,
      lowercaseCustomNames := true,
      lineLengthLimit := Some(120),
      allowMultilineInstructions := false,
      alignAssemblerDirectives := true,
      alignLabelsToStartOfLine := true,
      alignInstructionStatements := true,
      allowDoubleSlashComments := true)
  }
}
