/** The Option type that stands for the source's NULL-able results and fields, and a choice of one element. */
module Options {
  datatype Option<+T> = None | Some(value: T)

  /** Some element of a set. */
  ghost function Pick<T(!new)>(xs: set<T>): (x: T)
    requires xs != {}
    ensures x in xs
  {
    var x :| x in xs; x
  }
}
