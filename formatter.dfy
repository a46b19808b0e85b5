/** The shared data model of the presentation formatter: a document (`UserData`)
    is a title and an ordered list of sections; every field is plain text and
    an empty string means "absent". Errors that the readers and the writer
    surface are values of `Error`. */
module Formatter {

  /** One section of a presentation. `code` is a PATH to a source file whose
      contents the writer embeds, not the code itself. */
  datatype Section = Section(title: string, introduction: string, code: string, details: string)

  /** A whole document: an optional title (empty means no title line) and the
      sections in the order they are presented. */
  datatype UserData = UserData(title: string, sections: seq<Section>)

  /** The failures the readers and the writer report: an I/O failure of the
      file system, or a row the CSV decoder rejected. */
  datatype Error = Io(reason: string) | Csv(reason: string)

  datatype Result<T> = Ok(value: T) | Err(error: Error)

  /** The outcome of one file-system step that yields no value
      (creating the output file, writing its bytes). */
  datatype IoOutcome = Done | Failed(error: Error)

  /** The readable text files, by path. A path absent from the map cannot be
      opened or read as text. */
  type Files = map<string, string>

  /** A section can be written when it names no code file, or names one that is readable. */
  predicate CodeReadable(s: Section, files: Files) {
    s.code == "" || s.code in files
  }

  predicate AllCodeReadable(sections: seq<Section>, files: Files) {
    forall i :: 0 <= i < |sections| ==> CodeReadable(sections[i], files)
  }
}
