/** Properties of the transliteration: it is a per-character homomorphism,
    leaves text without Russian letters alone and removes every Russian letter. */
module StringExtensionsProperties {
  import opened StringExtensions

  lemma TransliterateEmpty()
    ensures Transliterate("") == ""
  {
  }

  /** Transliterating a concatenation is concatenating the transliterations. */
  lemma {:induction false} TransliterateConcat(a: string, b: string)
    ensures Transliterate(a + b) == Transliterate(a) + Transliterate(b)
    decreases |b|
  {
    if |b| == 0 {
      assert a + b == a;
    } else {
      var b' := b[..|b| - 1];
      var last := b[|b| - 1];
      assert (a + b)[..|a + b| - 1] == a + b';
      assert (a + b)[|a + b| - 1] == last;
      calc {
        Transliterate(a + b);
        Transliterate(a + b') + Image(last);
        { TransliterateConcat(a, b'); }
        Transliterate(a) + Transliterate(b') + Image(last);
      }
    }
  }

  lemma TransliterateSingle(c: char)
    ensures Transliterate([c]) == Image(c)
  {
    assert [c][..0] == [];
  }

  /** A string made of untouched characters is its own transliteration. */
  lemma {:induction false} UntouchedUnchanged(s: string)
    requires forall i :: 0 <= i < |s| ==> Untouched(s[i])
    ensures Transliterate(s) == s
    decreases |s|
  {
    if |s| > 0 {
      var p := s[..|s| - 1];
      assert forall i :: 0 <= i < |p| ==> p[i] == s[i];
      UntouchedUnchanged(p);
      assert s == p + [s[|s| - 1]];
    }
  }

  /** A character is copied unchanged exactly when it is not a Russian letter. */
  lemma UntouchedIffNotCyrillic(c: char)
    ensures Untouched(c) <==> !IsCyrillic(c)
  {
    AlphabetKeys(ToLower(c));
  }

  /** Text without Russian letters is returned unchanged. */
  lemma {:induction false} NonCyrillicUnchanged(s: string)
    requires forall i :: 0 <= i < |s| ==> !IsCyrillic(s[i])
    ensures Transliterate(s) == s
    decreases |s|
  {
    if |s| > 0 {
      var p := s[..|s| - 1];
      NonCyrillicUnchanged(p);
      UntouchedIffNotCyrillic(s[|s| - 1]);
      assert s == p + [s[|s| - 1]];
    }
  }

  /** No Russian letter survives transliteration. */
  lemma NoCyrillicInOutput(s: string)
    ensures forall i :: 0 <= i < |Transliterate(s)| ==> !IsCyrillic(Transliterate(s)[i])
  {
    var r := Transliterate(s);
    forall i | 0 <= i < |r|
      ensures !IsCyrillic(r[i])
    {
      UntouchedIffNotCyrillic(r[i]);
    }
  }

  /** Transliterating twice is transliterating once. */
  lemma TransliterateIdempotent(s: string)
    ensures Transliterate(Transliterate(s)) == Transliterate(s)
  {
    UntouchedUnchanged(Transliterate(s));
  }

  /** A small Russian letter becomes exactly its table entry. */
  lemma LowerCyrillicImage(c: char)
    requires IsLowerCyrillic(c)
    ensures Image(c) == Alphabet[c]
  {
    AlphabetKeys(c);
  }

  /** A capital Russian letter becomes the upper-cased entry of its small form. */
  lemma UpperCyrillicImage(c: char)
    requires IsUpperCyrillic(c)
    ensures IsLowerCyrillic(ToLower(c))
    ensures Image(c) == ToUpper(Alphabet[ToLower(c)])
  {
    AlphabetKeys(ToLower(c));
  }

  /** Entries quoted from the transliteration table. */
  lemma ImageExamples()
    ensures Image('щ') == "shh" && Image('ц') == "cz" && Image('ё') == "yo"
    ensures Image('Ж') == "ZH" && Image('Щ') == "SHH"
    ensures Image('Q') == "Q" && Image('7') == "7"
  {
    LowerCyrillicImage('щ');
    LowerCyrillicImage('ц');
    LowerCyrillicImage('ё');
    UpperCyrillicImage('Ж');
    UpperCyrillicImage('Щ');
    UntouchedIffNotCyrillic('Q');
    UntouchedIffNotCyrillic('7');
  }

  /** The hard and soft signs vanish, so the output can be shorter than the input. */
  lemma SignsVanish()
    ensures Image('ъ') == "" && Image('ь') == "" && Image('Ъ') == "" && Image('Ь') == ""
  {
  }

  /** Appending a hard or soft sign adds nothing to the output. */
  lemma SignAddsNothing(s: string, sign: char)
    requires sign in {'ъ', 'ь', 'Ъ', 'Ь'}
    ensures Transliterate(s + [sign]) == Transliterate(s)
  {
    var t := s + [sign];
    assert t[..|t| - 1] == s && t[|t| - 1] == sign;
    SignsVanish();
  }
}
