/** Shared value types of the input components. */
module Types {

  /** A value that may be missing: the model of a TypeScript `T | undefined`. */
  datatype Maybe<+T> = Absent | Present(value: T) {

    /** `x ?? default` */
    function GetOr(default: T): T {
      match this
      case Present(v) => v
      case Absent => default
    }
  }

  /** One selectable entry of a combobox or a faceted filter. The optional
      `icon` and `withCount` members are presentation only and are dropped.
      Dafny reserves the word `label`, so the source's `label` is `caption` here. */
  datatype Option = Option(caption: string, value: string)
}
