/** An optional value. For the readers of app/webutil.js, `None` stands for
    JavaScript's `null` (a missing result) and for an `undefined` or `null`
    default argument. */
module Optional {

  datatype Option<T> = None | Some(value: T)

}
