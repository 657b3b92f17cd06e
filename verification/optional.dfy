/** An optional value: a missing token, a missing role, a missing persisted blob,
    the result of `Array.prototype.find`. */
module Optional {

  datatype Option<+T> = None | Some(value: T)
}
