/** The optional value used for sub-nodes of a listing row that may be absent. */
module Options {

  datatype Option<+T> = None | Some(value: T)
}
