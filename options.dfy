/** The optional value used where the JavaScript code tests for
    `undefined`, `null` or `false`. */
module Options {

  datatype Option<T> = None | Some(value: T)
}
