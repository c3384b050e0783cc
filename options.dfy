/** The optional value used wherever the importer "finds nothing" or "parses nothing". */
module Options {
  datatype Option<T> = None | Some(value: T)
}
