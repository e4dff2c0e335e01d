/** An optional value: a property that may be absent from a JavaScript
    object, a map lookup that may miss, or a search that may find nothing. */
module Options {

  datatype Option<+T> = None | Some(value: T)
}
