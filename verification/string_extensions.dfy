/** `StringExtensions.Ru2Eng`: Cyrillic-to-Latin transliteration after
    ISO 9:1995 / GOST 7.79-2000, System B. */
module StringExtensions {
  import opened Nullable
  import opened Text
  import opened Check

  /** The transliteration alphabet, keyed by lower-case Cyrillic letters. */
  const Alphabet: map<char, string> := map[
    'а' := "a", 'б' := "b", 'в' := "v", 'г' := "g", 'д' := "d", 'е' := "e",
    'ё' := "yo", 'ж' := "zh", 'з' := "z", 'и' := "i", 'й' := "j", 'к' := "k",
    'л' := "l", 'м' := "m", 'н' := "n", 'о' := "o", 'п' := "p", 'р' := "r",
    'с' := "s", 'т' := "t", 'у' := "u", 'ф' := "f", 'х' := "x", 'ц' := "cz",
    'ч' := "ch", 'ш' := "sh", 'щ' := "shh", 'ъ' := "", 'ы' := "y", 'ь' := "",
    'э' := "e", 'ю' := "yu", 'я' := "ya"
  ]

  predicate IsLowerCyrillic(c: char) {
    ('а' <= c <= 'я') || c == 'ё'
  }

  predicate IsUpperCyrillic(c: char) {
    ('А' <= c <= 'Я') || c == 'Ё'
  }

  predicate IsCyrillic(c: char) {
    IsLowerCyrillic(c) || IsUpperCyrillic(c)
  }

  predicate IsAsciiLower(c: char) {
    'a' <= c <= 'z'
  }

  predicate IsAsciiUpper(c: char) {
    'A' <= c <= 'Z'
  }

  /** `char.ToLower`, as far as the table lookup can observe it: the Russian
      capital letters go to their small forms and every other character is
      left alone (no other character lower-cases to a key of `Alphabet`). */
  function ToLower(c: char): (l: char)
    ensures IsUpperCyrillic(c) ==> IsLowerCyrillic(l)
    ensures 'А' <= c <= 'Я' ==> l as int == c as int + 0x20
    ensures c == 'Ё' ==> l == 'ё'
    ensures !IsUpperCyrillic(c) ==> l == c
  {
    if 'А' <= c <= 'Я' then (c as int + 0x20) as char
    else if c == 'Ё' then 'ё'
    else c
  }

  /** `char.IsUpper`, as far as it is asked: only of characters whose lower-case
      form is a key, that is of Russian letters. */
  predicate IsUpper(c: char)
    ensures IsUpper(c) <==> ToLower(c) != c
    ensures IsUpper(c) ==> ToLower(c) in Alphabet
  {
    IsUpperCyrillic(c)
  }

  /** `string.ToUpper` on the table entries, which are ASCII. */
  function ToUpper(s: string): (u: string)
    ensures |u| == |s|
    ensures forall i :: 0 <= i < |s| ==> IsAsciiLower(s[i]) ==> IsAsciiUpper(u[i])
    ensures forall i :: 0 <= i < |s| ==> IsAsciiLower(s[i]) ==> u[i] as int == s[i] as int - 0x20
    ensures forall i :: 0 <= i < |s| ==> !IsAsciiLower(s[i]) ==> u[i] == s[i]
  {
    seq(|s|, i requires 0 <= i < |s| => if IsAsciiLower(s[i]) then (s[i] as int - 0x20) as char else s[i])
  }

  /** The keys of the table are exactly the 33 small Russian letters. */
  lemma AlphabetKeys(c: char)
    ensures c in Alphabet <==> IsLowerCyrillic(c)
  {
  }

  /** Every table entry is at most three small Latin letters. */
  lemma AlphabetEntries(c: char)
    requires c in Alphabet
    ensures |Alphabet[c]| <= 3
    ensures forall i :: 0 <= i < |Alphabet[c]| ==> IsAsciiLower(Alphabet[c][i])
  {
  }

  /** A character the transliteration copies as it is. */
  predicate Untouched(c: char) {
    ToLower(c) !in Alphabet
  }

  lemma LatinLetterUntouched(c: char)
    requires IsAsciiLower(c) || IsAsciiUpper(c)
    ensures Untouched(c)
  {
    AlphabetKeys(c);
  }

  /** The entry for `index`, upper-cased when `upper`, is short and is copied
      unchanged by a second transliteration. */
  lemma EntryUntouched(index: char, upper: bool)
    requires index in Alphabet
    ensures var e := if upper then ToUpper(Alphabet[index]) else Alphabet[index];
      |e| <= 3 && forall i :: 0 <= i < |e| ==> Untouched(e[i])
  {
    AlphabetEntries(index);
    var e := if upper then ToUpper(Alphabet[index]) else Alphabet[index];
    forall i | 0 <= i < |e|
      ensures Untouched(e[i])
    {
      LatinLetterUntouched(e[i]);
    }
  }

  /** The text appended for one character `ch`. */
  function Image(ch: char): (r: string)
    ensures |r| <= 3
    ensures Untouched(ch) ==> r == [ch]
    ensures forall i :: 0 <= i < |r| ==> Untouched(r[i])
  {
    var index := ToLower(ch);
    if index !in Alphabet then [ch]
    else
      EntryUntouched(index, IsUpper(ch));
      if IsUpper(ch) then ToUpper(Alphabet[index]) else Alphabet[index]
  }

  /** The concatenation of the images of the characters of `s`, in order. */
  function Transliterate(s: string): (r: string)
    ensures |r| <= 3 * |s|
    ensures forall i :: 0 <= i < |r| ==> Untouched(r[i])
    decreases |s|
  {
    if |s| == 0 then [] else Transliterate(s[..|s| - 1]) + Image(s[|s| - 1])
  }

  /** `nameof(str)`, the parameter name `Ru2Eng` reports for a null input. */
  const StrName: string := "str"

  /** `str.Ru2Eng()`: `Check.NotNull(str, "str")`, then the characters of `str`
      are appended one by one to a `StringBuilder`. */
  method Ru2Eng(str: Nullable<string>) returns (r: Checked<string>)
    ensures str.Null? ==> r == NullArg(StrName, NullDefault)
    ensures str.NonNull? ==> r == Ok(Transliterate(str.value))
  {
    HasTextAt(StrName, 0);
    var checked := NotNull(str, NonNull(StrName), Null);
    if !checked.Ok? {
      return checked;
    }
    var s := checked.value;
    var result := "";
    var i := 0;
    while i < |s|
      invariant 0 <= i <= |s|
      invariant result == Transliterate(s[..i])
    {
      assert s[..i + 1][..i] == s[..i];
      result := result + Image(s[i]);
      i := i + 1;
    }
    assert s[..|s|] == s;
    return Ok(result);
  }
}
