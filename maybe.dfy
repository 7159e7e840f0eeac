/** The optional value used for JavaScript's `null` / `undefined`. */
module Maybe {

  datatype Option<+T> = None | Some(value: T)

  /** `o ?? d` */
  function OrElse<T>(o: Option<T>, d: T): T
  {
    match o
    case Some(v) => v
    case None => d
  }
}
