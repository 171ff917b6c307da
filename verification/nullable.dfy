/** A C# reference that may be `null`: `Null` stands for the null reference and
    `NonNull(value)` for an actual object. */
module Nullable {

  datatype Nullable<+T> = Null | NonNull(value: T)
}
