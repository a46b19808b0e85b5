# Presentation formatter: HackMD writer and CSV reader

This project models the core of the presentation formatter, a small converter.
It reads "presentation content" and writes one Markdown document for HackMD.
The content is a document (`UserData`: a title and an ordered list of
sections). Each `Section` has a title, an introduction, the path of a code
file and details.

Two parts are modelled, each with a proof of what it computes:

- `HackMD` (`hackmd.dfy`) models the writer. When the document title is
  non-empty, the text starts with a `# title` line. Then each section gives
  one block, in order. A block holds a `## ` heading, the introduction, a
  ```` ```rust= ```` fence around the full text of the referenced code file,
  and the details. Each of these parts is present only when its field is
  non-empty. Every block ends with the separator `"\n----\n\n"`, the last one
  included. `FormatSections` is the Rust implementation's loop with its string
  accumulator. Its invariant ties the accumulator to `SectionsText` applied
  to the sections processed so far. `Writer` adds the title line and the
  file-system steps.
- `CsvFormat` (`csv_format.dfy`) models the reader's accumulation loop. It
  starts from a document with an empty title. It pushes every decoded row as
  a section, in row order. It returns the error of the first row that fails
  to decode.
- `Formatter` (`formatter.dfy`) holds the shared data model: `Section`,
  `UserData`, the `Error` kinds, `Result`, and the readability precondition
  for code files.

The file system is a parameter throughout:

- Readable code files are a `map<string, string>` from path to contents.
- Creating and writing the output file are outcomes given as parameters (`IoOutcome`).
- Opening the CSV file and decoding its rows together are one
  parameter: an open error, or the per-row decoder results in file order.

`Writer` returns the text that reaches the file instead of `()`.

A code file that is missing or unreadable makes the Rust implementation
panic through `unwrap` (presentation-formatter/src/hackmd_formater.rs:34-36);
it does not return an `Err`. The model therefore requires that every
non-empty `code` path is readable. It requires this only when creating the
output file succeeded, because the Rust implementation returns a creation
error before it reads any code file.

## Model

| member | source | states |
|---|---|---|
| HackMD.FormatSections | presentation-formatter/src/hackmd_formater.rs:23-46 | the accumulator loop returns exactly the concatenation, in order, of one block per section (`SectionsText`); proved by a loop invariant over the processed prefix |
| HackMD.Writer | presentation-formatter/src/hackmd_formater.rs:10-20 | a failed output-file creation returns its error before any code file is read; a failed write returns its error; otherwise the written text is the title line followed by the sections' text, and starts with `"# " + title + "\n"` when the title is non-empty |
| HackMD.SectionsTextAppend | presentation-formatter/src/hackmd_formater.rs:25-44 | processing one more section appends exactly that section's block to the text so far |
| HackMD.SectionsTextConcat | presentation-formatter/src/hackmd_formater.rs:24-45 | the text of two section lists in a row is the text of the first followed by that of the second: no section is reordered, merged or dropped |
| HackMD.SectionsTextAt | presentation-formatter/src/hackmd_formater.rs:25-44 | the k-th section's block sits between the text of the sections before it and the text of the sections after it |
| HackMD.SectionsTextEndsWithSeparator | presentation-formatter/src/hackmd_formater.rs:43 | for a non-empty section list the text ends with the separator, because the last block does too |
| HackMD.BlockEndsWithSeparator | presentation-formatter/src/hackmd_formater.rs:43 | every block ends with `"\n----\n\n"`, whatever the section's fields |
| HackMD.BlockLength | presentation-formatter/src/hackmd_formater.rs:26-43 | a block's length is the sum of the lengths of its present parts (field plus framing) and the separator |
| HackMD.BlockIsSeparatorIff | presentation-formatter/src/hackmd_formater.rs:26-43 | a block is exactly `"\n----\n\n"` if and only if all four fields are empty: then there is no heading and no code fence |
| HackMD.BlockLayout | presentation-formatter/src/hackmd_formater.rs:26-43 | the parts come in a fixed order: heading `"## " + title + "\n"`, introduction line, fence ```` "```rust=\n" + contents + "\n```\n" ```` around the file's full text, details line, separator. Each part is empty if and only if its field is empty |
| HackMD.DocumentTitle | presentation-formatter/src/hackmd_formater.rs:11-17 | with a non-empty title the text starts with `"# " + title + "\n"` and the rest is the sections' text; with an empty title there is no title line |
| HackMD.DocumentBlockAt | presentation-formatter/src/hackmd_formater.rs:11-45 | the document is the title line, then the blocks before section k, then section k's block, then the blocks after it |
| HackMD.EmptyDocument | presentation-formatter/src/hackmd_formater.rs:11-45 | an empty title with no sections gives the empty string |
| HackMD.DemoDocument | presentation-formatter/src/hackmd_formater.rs:12-43 | title `Demo` with one section `{title: "Intro", introduction: "Hello"}` gives `"# Demo\n## Intro\nHello\n\n----\n\n"` |
| CsvFormat.Read | presentation-formatter/src/csv_format.rs:8-21 | an open error is returned before any row is looked at; on success the title is empty and there is exactly one section per row, each the row's own section, in row order; otherwise the error is that of the first failed row, and no partial document is returned |
| CsvFormat.CollectAppend | presentation-formatter/src/csv_format.rs:12-17 | a decoded row is pushed at the end and leaves the sections collected so far unchanged; a failed row turns the result into its error; after a failure further rows change nothing |
| CsvFormat.CollectKeepsError | presentation-formatter/src/csv_format.rs:15 | once a row has failed, the rows after it make no difference to the result |
| CsvFormat.CollectOk | presentation-formatter/src/csv_format.rs:12-20 | collecting succeeds if and only if every row decodes, and then it yields one section per row, in row order |
| CsvFormat.CollectFirstError | presentation-formatter/src/csv_format.rs:15 | when row k is the first that fails, the result is that row's error, whatever the later rows hold |
| CsvFormat.CollectPrefix | presentation-formatter/src/csv_format.rs:16 | the sections collected from the first i rows are a prefix of those collected from the first j >= i rows |

## Left out

- presentation-formatter/src/main.rs (argument parsing, choosing a reader and a writer by name, `unimplemented!()` on unknown names) is not part of this model: it is process plumbing.
- presentation-formatter/src/json_format.rs is not part of this model: it only reads a file and calls `serde_json`, whose parsing is library behaviour.
- `get_links` (presentation-formatter/src/formatter.rs:30-39) is not modelled. It wraps a regular expression from the `regex` crate, and modelling it would mean modelling regex semantics.
- The `#[serde(default)]` fill-in of missing fields, CSV header matching, quoting and column-count checks are done by serde and the csv crate. The model receives their per-row results as given.
- The file system: opening, creating and writing files are parameters, and code files are a path-to-contents map. A code file whose bytes are not valid UTF-8 counts as unreadable, i.e. absent from the map.
- HackMD.Writer: the model does not capture that the output file is created, and left empty, before a code file read panics. A partial write by `write_all` is not captured either. Both are file-system behaviour.
