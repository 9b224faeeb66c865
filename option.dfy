/** The optional value that stands for Swift's `T?`. */
module Optional {

  datatype Option<+T> = None | Some(value: T)
}
