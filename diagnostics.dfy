/** What the generator reports: console warnings (non-fatal) and the one fatal error. */
module Diagnostics {

  datatype Warning =
    | UnknownType(typ: string)         // a field whose type is not supported is skipped
    | MissingSection(anchor: string)   // a marker comment is missing from a file to splice
    | MigrationExists(fileName: string) // the migration file name is already taken

  /** `InvalidArgumentException`: a field argument without exactly three `:`-separated parts. */
  datatype FormatError = InvalidFieldFormat(arg: string)

  /** A run that threw: the warnings already printed before it did, then the error. */
  datatype Aborted = Aborted(warned: seq<Warning>, error: FormatError)
}
