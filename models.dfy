/** The records the staff screens receive from the fetch hook. */
module Models {
  import opened Wrappers

  /**
   * A student on the roster.  The roll state is kept as the string the
   * server sends ("present", "late", "absent", ...), or `None` when the
   * student has none yet; the screens only ever compare it with literals.
   */
  datatype Person = Person(id: int, firstName: string, lastName: string, roll: Option<string>)

  /** The fetch hook's progress, which the screens branch on. */
  datatype LoadState = Idle | Loading | Loaded | Error
}
