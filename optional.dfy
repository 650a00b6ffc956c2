/** An optional value, the model of a PHP lookup that may find nothing. */
module Optional {

  datatype Option<+T> = None | Some(value: T)
}
