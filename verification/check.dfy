/** The guard clauses of `Mt.Utilities.Check`. Each one returns its argument
    unchanged or reports the exception it would throw: an
    `ArgumentNullException` (`NullArg`) or an `ArgumentException` (`InvalidArg`).

    Before throwing, every failure path except the malformed-interval one first
    validates `parameterName` itself by calling `NotEmpty(parameterName,
    "parameterName")`. That nested call names the literal "parameterName", so
    its own nested call always succeeds and the recursion stops there. */
module Check {
  import opened Nullable
  import opened Text
  import opened Decimal

  type Int32 = x: int | -0x8000_0000 <= x < 0x8000_0000
  type Int64 = x: int | -0x8000_0000_0000_0000 <= x < 0x8000_0000_0000_0000

  /** Outcome of a guard clause. */
  datatype Checked<+T> =
    | Ok(value: T)
      /** `new ArgumentNullException(paramName, message)` */
    | NullArg(paramName: string, message: string)
      /** `new ArgumentException(message)` */
    | InvalidArg(message: string)
  {
    /** The same failure as the result of a guard over another type. */
    function Retype<U>(): (r: Checked<U>)
      requires !Ok?
      ensures !r.Ok?
      ensures NullArg? <==> r.NullArg?
      ensures r.message == message
      ensures NullArg? ==> r.paramName == paramName
    {
      match this
      case NullArg(p, m) => NullArg(p, m)
      case InvalidArg(m) => InvalidArg(m)
    }

    /** The exception's `Message` property: `ArgumentException` appends
        " (Parameter '<name>')" when it was given a non-empty parameter name. */
    function Text(): (t: string)
      requires !Ok?
      ensures NullArg? && |paramName| > 0 ==> t == message + " (Parameter '" + paramName + "')"
      ensures NullArg? && |paramName| == 0 ==> t == message
      ensures InvalidArg? ==> t == message
    {
      match this
      case NullArg(p, m) => if |p| > 0 then m + " (Parameter '" + p + "')" else m
      case InvalidArg(m) => m
    }
  }

  /** `nameof(parameterName)`, the name the nested check reports. */
  const ParameterNameLiteral: string := "parameterName"

  lemma ParameterNameLiteralHasText()
    ensures HasText(NonNull(ParameterNameLiteral))
  {
    HasTextAt(ParameterNameLiteral, 0);
  }

  const NullDefault: string := "Checked parameter is null."

  function EmptyDefault(name: string): string {
    "Checked parameter '" + name + "' is empty."
  }

  function ZeroDefault(name: string): string {
    "Input parameter '" + name + "' is zero value."
  }

  /** Message of the malformed-interval failure, kept in Russian as the guard
      writes it ("the interval of values for checking the parameter is set
      incorrectly"). */
  function BadIntervalMessage(min: int, max: int): (m: string)
    ensures HasText(NonNull(m))
  {
    var m := "Интервал значений для проверки параметра задан неверно [min:" + IntToString(min)
      + "; max:" + IntToString(max) + "].";
    HasTextAt(m, |m| - 1);
    m
  }

  /** Message of the out-of-interval failure, in Russian ("parameter") as written. */
  function OutOfIntervalMessage(name: string, value: int, min: int, max: int): (m: string)
    ensures HasText(NonNull(m))
  {
    var m := "Параметр '" + name + "':" + IntToString(value) + "∉[min:" + IntToString(min)
      + "; max:" + IntToString(max) + "].";
    HasTextAt(m, |m| - 1);
    m
  }

  /** `string.IsNullOrWhiteSpace(message) ? default : message`. */
  function PickMessage(message: Nullable<string>, default: string): (m: string)
    ensures HasText(message) ==> m == message.value
    ensures IsNullOrWhiteSpace(message) ==> m == default
    ensures HasText(NonNull(default)) ==> HasText(NonNull(m))
  {
    if IsNullOrWhiteSpace(message) then default else message.value
  }

  /** The failure the nested `NotEmpty(parameterName, "parameterName", nestedMessage)`
      reports for a null or blank `parameterName`: a reference definition that
      does not recurse. */
  function NameFailure<T>(parameterName: Nullable<string>, nestedMessage: Nullable<string>): (r: Checked<T>)
    requires !HasText(parameterName)
    ensures r.NullArg? <==> parameterName.Null?
    ensures r.InvalidArg? <==> parameterName.NonNull?
    ensures r.NullArg? ==> r.paramName == ParameterNameLiteral
    ensures !r.Ok? && HasText(NonNull(r.message))
    ensures HasText(nestedMessage) ==> r.message == nestedMessage.value
  {
    HasTextAt(NullDefault, 0);
    HasTextAt(EmptyDefault(ParameterNameLiteral), 0);
    if parameterName.Null? then NullArg(ParameterNameLiteral, PickMessage(nestedMessage, NullDefault))
    else InvalidArg(PickMessage(nestedMessage, EmptyDefault(ParameterNameLiteral)))
  }

  /** `Check.NotEmpty(string value, string parameterName, string message = null)`. */
  function NotEmpty(value: Nullable<string>, parameterName: Nullable<string>, message: Nullable<string>): (r: Checked<string>)
    ensures r.Ok? <==> HasText(value)
    ensures r.Ok? ==> r.value == value.value
    ensures !HasText(value) && !HasText(parameterName) ==> r == NameFailure(parameterName, Null)
    ensures value.Null? && HasText(parameterName) ==>
      r == NullArg(parameterName.value, PickMessage(message, NullDefault))
    ensures value.NonNull? && IsBlank(value.value) && HasText(parameterName) ==>
      r == InvalidArg(PickMessage(message, EmptyDefault(parameterName.value)))
    decreases if parameterName == NonNull(ParameterNameLiteral) then 0 else 1,
      if value.NonNull? && |Trim(value.value)| != 0 then 0 else 1
  {
    if value.Null? then
      match NotEmpty(parameterName, NonNull(ParameterNameLiteral), Null)
      case Ok(_) => NullArg(parameterName.value, PickMessage(message, NullDefault))
      case failure => failure
    else if |Trim(value.value)| == 0 then
      TrimEmptyIffBlank(value.value);
      match NotEmpty(parameterName, NonNull(ParameterNameLiteral), Null)
      case Ok(_) => InvalidArg(PickMessage(message, EmptyDefault(parameterName.value)))
      case failure => failure
    else
      TrimEmptyIffBlank(value.value);
      Ok(value.value)
  }

  /** `Check.NotEmpty<T>(IEnumerable<T> value, ...)`: emptiness is `!value.Any()`. */
  function NotEmptySeq<T>(value: Nullable<seq<T>>, parameterName: Nullable<string>, message: Nullable<string>): (r: Checked<seq<T>>)
    ensures r.Ok? <==> value.NonNull? && |value.value| > 0
    ensures r.Ok? ==> r.value == value.value
    ensures !r.Ok? && !HasText(parameterName) ==> r == NameFailure(parameterName, Null)
    ensures value.Null? && HasText(parameterName) ==>
      r == NullArg(parameterName.value, PickMessage(message, NullDefault))
    ensures value.NonNull? && |value.value| == 0 && HasText(parameterName) ==>
      r == InvalidArg(PickMessage(message, EmptyDefault(parameterName.value)))
  {
    if value.Null? then
      match NotEmpty(parameterName, NonNull(ParameterNameLiteral), Null)
      case Ok(_) => NullArg(parameterName.value, PickMessage(message, NullDefault))
      case failure => failure.Retype()
    else if |value.value| == 0 then
      match NotEmpty(parameterName, NonNull(ParameterNameLiteral), Null)
      case Ok(_) => InvalidArg(PickMessage(message, EmptyDefault(parameterName.value)))
      case failure => failure.Retype()
    else
      Ok(value.value)
  }

  /** `Check.NotNull<T>(T value, ...)`. Its nested name check passes `message` on. */
  function NotNull<T>(value: Nullable<T>, parameterName: Nullable<string>, message: Nullable<string>): (r: Checked<T>)
    ensures r.Ok? <==> value.NonNull?
    ensures r.Ok? ==> r.value == value.value
    ensures value.Null? && !HasText(parameterName) ==> r == NameFailure(parameterName, message)
    ensures value.Null? && HasText(parameterName) ==>
      r == NullArg(parameterName.value, PickMessage(message, NullDefault))
  {
    if value.Null? then
      ParameterNameLiteralHasText();
      match NotEmpty(parameterName, NonNull(ParameterNameLiteral), message)
      case Ok(_) => NullArg(parameterName.value, PickMessage(message, NullDefault))
      case failure => failure.Retype()
    else
      Ok(value.value)
  }

  /** `Check.NotZero<T>(T value, ...) where T : struct`, for a type whose
      `default(T)` is `zero`. The failure message is chosen with `message ??`, so
      an empty or white-space `message` is kept as given. */
  function NotZero<T(==)>(value: T, zero: T, parameterName: Nullable<string>, message: Nullable<string>): (r: Checked<T>)
    ensures r.Ok? <==> value != zero
    ensures r.Ok? ==> r.value == value
    ensures value == zero && !HasText(parameterName) ==> r == NameFailure(parameterName, message)
    ensures value == zero && HasText(parameterName) && message.NonNull? ==> r == InvalidArg(message.value)
    ensures value == zero && HasText(parameterName) && message.Null? ==>
      r == InvalidArg(ZeroDefault(parameterName.value))
  {
    if value == zero then
      ParameterNameLiteralHasText();
      match NotEmpty(parameterName, NonNull(ParameterNameLiteral), message)
      case Ok(_) =>
        InvalidArg(if message.NonNull? then message.value else ZeroDefault(parameterName.value))
      case failure => failure.Retype()
    else
      Ok(value)
  }

  /** `NotZero` with the message rule of the other guards
      (`IsNullOrWhiteSpace(message) ? default : message`), which is what the
      zero-value tests expect. */
  function NotZeroIntended<T(==)>(value: T, zero: T, parameterName: Nullable<string>, message: Nullable<string>): (r: Checked<T>)
    ensures r.Ok? <==> value != zero
    ensures r.Ok? ==> r.value == value
    ensures value == zero && !HasText(parameterName) ==> r == NameFailure(parameterName, message)
    ensures value == zero && HasText(parameterName) ==>
      r == InvalidArg(PickMessage(message, ZeroDefault(parameterName.value)))
  {
    if value == zero then
      ParameterNameLiteralHasText();
      match NotEmpty(parameterName, NonNull(ParameterNameLiteral), message)
      case Ok(_) => InvalidArg(PickMessage(message, ZeroDefault(parameterName.value)))
      case failure => failure.Retype()
    else
      Ok(value)
  }

  /** `Check.FromInterval(int value, string parameterName, int minValue, int maxValue)`.
      The interval is checked first, on the 64-bit difference `(long)maxValue - minValue`,
      and that check looks at neither `value` nor `parameterName`. */
  function FromInterval(value: Int32, parameterName: Nullable<string>, min: Int32, max: Int32): (r: Checked<Int32>)
    ensures max <= min ==> r == InvalidArg(BadIntervalMessage(min, max))
    ensures r.Ok? <==> min < max && min <= value <= max
    ensures r.Ok? ==> r.value == value
    ensures min < max && !(min <= value <= max) && !HasText(parameterName) ==>
      r == NameFailure(parameterName, Null)
    ensures min < max && !(min <= value <= max) && HasText(parameterName) ==>
      r == InvalidArg(OutOfIntervalMessage(parameterName.value, value, min, max))
  {
    var span: Int64 := max as int - min as int;
    if span <= 0 then
      InvalidArg(BadIntervalMessage(min, max))
    else if !(min <= value && value <= max) then
      match NotEmpty(parameterName, NonNull(ParameterNameLiteral), Null)
      case Ok(_) => InvalidArg(OutOfIntervalMessage(parameterName.value, value, min, max))
      case failure => failure.Retype()
    else
      Ok(value)
  }
}
