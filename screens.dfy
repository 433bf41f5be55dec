/** Screen values and the optional-value wrapper shared by every module. */
module Screens {

  /** Kotlin's nullable `T?`: `None` stands for `null`. */
  datatype Option<+T> = None | Some(value: T)

  /**
   * An application-defined navigation destination, compared by value.
   * `NullScreen` is the library's sentinel "no screen"; every other
   * destination the application declares is one `Destination`.
   */
  datatype Screen = NullScreen | Destination(name: string)
}
