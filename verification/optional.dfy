/** A value that JavaScript may leave `undefined` or `null`: a form field, an
    image's alt text, a session's user, a lookup that finds nothing. */
module Optional {

  datatype Option<+T> = None | Some(value: T)
}
