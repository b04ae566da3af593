/** The optional value used wherever the container holds something that may be
    absent: the parent view of the container (nil until a view is attached) and
    the position of a widget among the children. */
module Wrappers {

  datatype Option<+T> = None | Some(value: T)
}
