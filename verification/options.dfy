/** The optional value returned by a cursor query that may have no answer
    (a Java `null` return). */
module Options {

  datatype Option<+T> = None | Some(value: T)
}
