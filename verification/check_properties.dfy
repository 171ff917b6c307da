/** Properties of the guard clauses that relate several calls, and the outcomes
    the unit tests of `Check` expect. */
module CheckProperties {
  import opened Nullable
  import opened Text
  import opened Decimal
  import opened Check

  /** `NotEmpty` on a null string under a valid name. */
  lemma NullOutcome(parameterName: Nullable<string>, message: Nullable<string>)
    requires HasText(parameterName)
    ensures NotEmpty(Null, parameterName, message)
      == NullArg(parameterName.value, PickMessage(message, NullDefault))
  {
  }

  /** `NotEmpty` on a blank string under a valid name. */
  lemma BlankOutcome(value: string, parameterName: Nullable<string>, message: Nullable<string>)
    requires IsBlank(value) && HasText(parameterName)
    ensures NotEmpty(NonNull(value), parameterName, message)
      == InvalidArg(PickMessage(message, EmptyDefault(parameterName.value)))
  {
  }

  /** The observable text of a null failure of `NotEmpty` and `NotNull`: the chosen
      message followed by the parameter suffix, whether or not a custom message
      was given. */
  lemma NullTextHasSuffix(parameterName: Nullable<string>, message: Nullable<string>)
    requires HasText(parameterName)
    ensures NotEmpty(Null, parameterName, message).Text()
      == PickMessage(message, NullDefault) + " (Parameter '" + parameterName.value + "')"
    ensures NotNull<int>(Null, parameterName, message).Text()
      == PickMessage(message, NullDefault) + " (Parameter '" + parameterName.value + "')"
  {
    assert |parameterName.value| > 0;
  }

  /** The invalid-argument text of `NotEmpty` carries no parameter suffix. */
  lemma EmptyTextHasNoSuffix(value: string, parameterName: Nullable<string>, message: Nullable<string>)
    requires IsBlank(value) && HasText(parameterName)
    ensures NotEmpty(NonNull(value), parameterName, message).Text()
      == PickMessage(message, EmptyDefault(parameterName.value))
  {
  }

  /** The nested name check ends the recursion: checking the literal
      "parameterName" under its own name succeeds. */
  lemma NestedCheckSucceeds(message: Nullable<string>)
    ensures NotEmpty(NonNull(ParameterNameLiteral), NonNull(ParameterNameLiteral), message)
      == Ok(ParameterNameLiteral)
  {
    ParameterNameLiteralHasText();
  }

  /** Null-string test of `NotEmpty` with a white-space message: the default is used. */
  lemma NotEmptyNullBlankMessageCase()
    ensures NotEmpty(Null, NonNull("value"), NonNull("\t")) == NullArg("value", NullDefault)
  {
    HasTextAt("value", 0);
    assert IsBlank("\t");
    NullOutcome(NonNull("value"), NonNull("\t"));
  }

  /** Null-string test of `NotEmpty` with a custom message, which replaces the default
      (the suffix of `NullTextHasSuffix` is still appended). */
  lemma NotEmptyNullCustomMessageCase()
    ensures NotEmpty(Null, NonNull("value"), NonNull("Test message.")) == NullArg("value", "Test message.")
  {
    HasTextAt("value", 0);
    HasTextAt("Test message.", 0);
    NullOutcome(NonNull("value"), NonNull("Test message."));
  }

  /** White-space-string test of `NotEmpty` without a custom message. */
  lemma NotEmptyBlankValueCase()
    ensures NotEmpty(NonNull(" "), NonNull("value"), Null) == InvalidArg(EmptyDefault("value"))
  {
    HasTextAt("value", 0);
    assert IsBlank(" ");
    BlankOutcome(" ", NonNull("value"), Null);
  }

  /** Empty-string test of `NotEmpty` with a custom message: it replaces the text. */
  lemma NotEmptyEmptyCustomMessageCase()
    ensures NotEmpty(NonNull(""), NonNull("value"), NonNull("Test message.")) == InvalidArg("Test message.")
  {
    HasTextAt("value", 0);
    HasTextAt("Test message.", 0);
    BlankOutcome("", NonNull("value"), NonNull("Test message."));
  }

  /** `NotNull` accepts "" and white space: only null fails. */
  lemma NotNullAcceptsBlankStrings(parameterName: Nullable<string>, message: Nullable<string>)
    ensures NotNull(NonNull(""), parameterName, message) == Ok("")
    ensures NotNull(NonNull(" \t"), parameterName, message) == Ok(" \t")
  {
  }

  /** `NotZero` on the zero value under a valid name, as written and as intended. */
  lemma ZeroOutcome<T>(zero: T, parameterName: Nullable<string>, message: Nullable<string>)
    requires HasText(parameterName)
    ensures NotZero(zero, zero, parameterName, message)
      == InvalidArg(if message.NonNull? then message.value else ZeroDefault(parameterName.value))
    ensures NotZeroIntended(zero, zero, parameterName, message)
      == InvalidArg(PickMessage(message, ZeroDefault(parameterName.value)))
  {
  }

  /** `NotZero` as written keeps a white-space custom message, so the zero-value
      test with message " " sees " " rather than the default text. */
  lemma NotZeroKeepsBlankMessage()
    ensures NotZero(0, 0, NonNull("test parameter"), NonNull(" ")) == InvalidArg(" ")
  {
    HasTextAt("test parameter", 0);
    ZeroOutcome(0, NonNull("test parameter"), NonNull(" "));
  }

  /** The corrected rule gives the default text the zero-value test expects. */
  lemma NotZeroIntendedBlankMessageCase()
    ensures NotZeroIntended(0, 0, NonNull("test parameter"), NonNull(" "))
      == InvalidArg(ZeroDefault("test parameter"))
  {
    HasTextAt("test parameter", 0);
    assert IsBlank(" ");
    ZeroOutcome(0, NonNull("test parameter"), NonNull(" "));
  }

  /** With the intended message rule, a zero-value failure never carries a blank
      message. */
  lemma NotZeroIntendedMessageHasText<T>(zero: T, parameterName: Nullable<string>, message: Nullable<string>)
    requires HasText(parameterName)
    ensures var r := NotZeroIntended(zero, zero, parameterName, message);
      r.InvalidArg? && !IsBlank(r.message)
  {
    var m := PickMessage(message, ZeroDefault(parameterName.value));
    if IsNullOrWhiteSpace(message) {
      assert m[0] == 'I';
    }
  }

  /** The interval message for the inverted interval [300; 200], with the bounds
      written in decimal. */
  lemma BadIntervalMessageText()
    ensures BadIntervalMessage(300, 200)
      == "Интервал значений для проверки параметра задан неверно [min:300; max:200]."
  {
    assert IntToString(300) == "300" && IntToString(200) == "200";
  }

  /** Inverted-interval test. */
  lemma FromIntervalInvertedCase()
    ensures FromInterval(100, NonNull("test parameter"), 300, 200) == InvalidArg(BadIntervalMessage(300, 200))
  {
    DegenerateOrInvertedIntervalRejected(100, NonNull("test parameter"), 300, 200);
  }

  /** Out-of-interval test. */
  lemma FromIntervalOutsideCase()
    ensures FromInterval(300, NonNull("test parameter"), 100, 200)
      == InvalidArg(OutOfIntervalMessage("test parameter", 300, 100, 200))
  {
    HasTextAt("test parameter", 0);
  }

  /** The widest interval accepts a value: its 64-bit span does not overflow. */
  lemma FromIntervalWidestCase()
    ensures FromInterval(100, NonNull("value"), -0x8000_0000, 0x7FFF_FFFF) == Ok(100)
  {
  }

  /** A malformed interval is reported whatever the value and the name, and a
      single-point interval is malformed even for the point itself. */
  lemma DegenerateOrInvertedIntervalRejected(value: Int32, parameterName: Nullable<string>, min: Int32, max: Int32)
    requires max <= min
    ensures FromInterval(value, parameterName, min, max) == InvalidArg(BadIntervalMessage(min, max))
    ensures FromInterval(min, parameterName, min, min) == InvalidArg(BadIntervalMessage(min, min))
  {
  }

  /** The reference failure is what the nested `NotEmpty(parameterName,
      "parameterName", nestedMessage)` really returns for a null or blank name. */
  lemma NameFailureIsNestedCheck<T>(parameterName: Nullable<string>, nestedMessage: Nullable<string>)
    requires !HasText(parameterName)
    ensures NameFailure<T>(parameterName, nestedMessage)
      == NotEmpty(parameterName, NonNull(ParameterNameLiteral), nestedMessage).Retype<T>()
  {
  }

  /** The malformed-interval message determines both bounds. */
  lemma BadIntervalMessageDeterminesBounds(min1: int, max1: int, min2: int, max2: int)
    requires BadIntervalMessage(min1, max1) == BadIntervalMessage(min2, max2)
    ensures min1 == min2 && max1 == max2
  {
    var p := "Интервал значений для проверки параметра задан неверно [min:";
    var lo1, hi1, lo2, hi2 := IntToString(min1), IntToString(max1), IntToString(min2), IntToString(max2);
    IntToStringNumerals(max1);
    IntToStringNumerals(max2);
    CancelSuffix(p + lo1 + "; max:" + hi1, p + lo2 + "; max:" + hi2, "].");
    SplitBeforeNumeral(p + lo1 + "; max:", hi1, p + lo2 + "; max:", hi2);
    CancelSuffix(p + lo1, p + lo2, "; max:");
    CancelPrefix(p, lo1, lo2);
    IntToStringInjective(min1, min2);
    IntToStringInjective(max1, max2);
  }

  /** The out-of-interval message determines the name, the value and both
      bounds: it is read from the end, where every number is followed by a
      fixed piece of text that ends in a character no number holds. */
  lemma OutOfIntervalMessageDeterminesAll(name1: string, value1: int, min1: int, max1: int,
                                          name2: string, value2: int, min2: int, max2: int)
    requires OutOfIntervalMessage(name1, value1, min1, max1) == OutOfIntervalMessage(name2, value2, min2, max2)
    ensures name1 == name2 && value1 == value2 && min1 == min2 && max1 == max2
  {
    var v1, lo1, hi1 := IntToString(value1), IntToString(min1), IntToString(max1);
    var v2, lo2, hi2 := IntToString(value2), IntToString(min2), IntToString(max2);
    IntToStringNumerals(value1); IntToStringNumerals(min1); IntToStringNumerals(max1);
    IntToStringNumerals(value2); IntToStringNumerals(min2); IntToStringNumerals(max2);
    var h1, h2 := "Параметр '" + name1 + "':", "Параметр '" + name2 + "':";
    var j1, j2 := h1 + v1 + "∉[min:", h2 + v2 + "∉[min:";
    var l1, l2 := j1 + lo1 + "; max:", j2 + lo2 + "; max:";
    CancelSuffix(l1 + hi1, l2 + hi2, "].");
    SplitBeforeNumeral(l1, hi1, l2, hi2);
    CancelSuffix(j1 + lo1, j2 + lo2, "; max:");
    SplitBeforeNumeral(j1, lo1, j2, lo2);
    CancelSuffix(h1 + v1, h2 + v2, "∉[min:");
    SplitBeforeNumeral(h1, v1, h2, v2);
    CancelSuffix("Параметр '" + name1, "Параметр '" + name2, "':");
    CancelPrefix("Параметр '", name1, name2);
    IntToStringInjective(value1, value2);
    IntToStringInjective(min1, min2);
    IntToStringInjective(max1, max2);
  }
}
