/** A value the page may not have: a payload field the transport left out,
    a setting that is not stored, or a number `parseInt` could not read. */
module Options {

  datatype Option<+T> = None | Some(value: T) {

    /** The field of a progress payload, or the row's current value when the
        payload does not carry it (the `??` of the merge). */
    function GetOr(current: T): T
    {
      match this
      case Some(v) => v
      case None => current
    }
  }
}
