/**
 * The documented examples of the normaliser, and the fallback cases, each computed step by
 * step from the lemmas of the Transliterate module: first the transliteration of the text,
 * then the split into words and separator runs, then the joined and lower-cased result.
 */
module TransliterateExamples {
  import opened Transliterate

  lemma ExampleEmpty()
    ensures Normalized("") == "variable"
  {
  }

  lemma ExamplePunctuationOnly()
    ensures Normalized("!!!") == "variable"
  {
    TransliteratedAscii("!!!");
    ReplaceRunsNoop("!!!", IsSeparator);
    assert StripInvalid("!!!") == "";
  }

  lemma ExampleSignsOnly()
    ensures Normalized("ъь") == "variable"
  {
    assert Transliterated("ъь") == "";
  }

  /** The snake-case form of a text already split into words and separator runs. */
  lemma SnakeCaseVia(s: string, ws: seq<string>, seps: seq<string>, joined: string, lower: string)
    requires |ws| == |seps| + 1
    requires forall i :: 0 <= i < |ws| ==> IsAlnumWord(ws[i])
    requires forall i :: 0 <= i < |seps| ==> IsSeparatorRun(seps[i])
    requires Interleave(ws, seps) == s
    requires JoinUnderscore(ws) == joined
    requires ToLower(joined) == lower
    ensures SnakeCase(s) == lower
  {
    SnakeCaseOfWords(ws, seps);
  }

  // "A  B--C": the words A, B, C between the runs "  " and "--".

  lemma AbcWords()
    ensures forall i :: 0 <= i < |["A", "B", "C"]| ==> IsAlnumWord(["A", "B", "C"][i])
    ensures forall i :: 0 <= i < |["  ", "--"]| ==> IsSeparatorRun(["  ", "--"][i])
  {
  }

  lemma AbcInterleave()
    ensures Interleave(["A", "B", "C"], ["  ", "--"]) == "A  B--C"
  {
    var ws, seps := ["A", "B", "C"], ["  ", "--"];
    assert ws[1..] == ["B", "C"] && ws[2..] == ["C"] && seps[1..] == ["--"];
    assert Interleave(ws[1..], seps[1..]) == "B--C";
  }

  lemma AbcJoin()
    ensures JoinUnderscore(["A", "B", "C"]) == "A_B_C"
  {
    var ws := ["A", "B", "C"];
    assert ws[1..] == ["B", "C"] && ws[2..] == ["C"];
    assert JoinUnderscore(ws[1..]) == "B_C";
  }

  lemma AbcLower()
    ensures ToLower("A_B_C") == "a_b_c"
  {
    LowerOf("A_B_C", "a_b_c");
  }

  lemma AbcSnakeCase()
    ensures SnakeCase("A  B--C") == "a_b_c"
  {
    AbcWords();
    AbcInterleave();
    AbcJoin();
    AbcLower();
    SnakeCaseVia("A  B--C", ["A", "B", "C"], ["  ", "--"], "A_B_C", "a_b_c");
  }

  /** A run of spaces and a run of hyphens each become one `_`. */
  lemma ExampleSeparatorRuns()
    ensures Normalized("A  B--C") == "a_b_c"
  {
    TransliteratedAscii("A  B--C");
    AbcSnakeCase();
  }

  // "Имя Клиента" -> "Imya Klienta" -> "imya_klienta".

  lemma ClientNameChunk0()
    ensures Transliterated("Им") == "Im"
  {
  }

  lemma ClientNameChunk1()
    ensures Transliterated("я") == "ya"
  {
  }

  lemma ClientNameChunk2()
    ensures Transliterated(" Кл") == " Kl"
  {
  }

  lemma ClientNameChunk3()
    ensures Transliterated("иен") == "ien"
  {
  }

  lemma ClientNameChunk4()
    ensures Transliterated("та") == "ta"
  {
  }

  lemma ClientNameTransliterated()
    ensures Transliterated("Имя Клиента") == "Imya Klienta"
  {
    assert "Имя Клиента" == "Им" + "я" + " Кл" + "иен" + "та";
    TransliteratedConcat("Им" + "я" + " Кл" + "иен", "та");
    TransliteratedConcat("Им" + "я" + " Кл", "иен");
    TransliteratedConcat("Им" + "я", " Кл");
    TransliteratedConcat("Им", "я");
    ClientNameChunk0();
    ClientNameChunk1();
    ClientNameChunk2();
    ClientNameChunk3();
    ClientNameChunk4();
    assert "Im" + "ya" + " Kl" + "ien" + "ta" == "Imya Klienta";
  }

  lemma ClientNameWords()
    ensures forall i :: 0 <= i < |["Imya", "Klienta"]| ==> IsAlnumWord(["Imya", "Klienta"][i])
    ensures forall i :: 0 <= i < |[" "]| ==> IsSeparatorRun([" "][i])
  {
  }

  lemma ClientNameInterleave()
    ensures Interleave(["Imya", "Klienta"], [" "]) == "Imya Klienta"
  {
    var ws, seps := ["Imya", "Klienta"], [" "];
    assert ws[1..] == ["Klienta"] && seps[1..] == [];
  }

  lemma ClientNameJoin()
    ensures JoinUnderscore(["Imya", "Klienta"]) == "Imya_Klienta"
  {
    var ws := ["Imya", "Klienta"];
    assert ws[1..] == ["Klienta"];
  }

  lemma ClientNameLower()
    ensures ToLower("Imya_Klienta") == "imya_klienta"
  {
    LowerOf("Imya_Klienta", "imya_klienta");
  }

  lemma ClientNameSnakeCase()
    ensures SnakeCase("Imya Klienta") == "imya_klienta"
  {
    ClientNameWords();
    ClientNameInterleave();
    ClientNameJoin();
    ClientNameLower();
    SnakeCaseVia("Imya Klienta", ["Imya", "Klienta"], [" "], "Imya_Klienta", "imya_klienta");
  }

  lemma ExampleClientName()
    ensures Normalized("Имя Клиента") == "imya_klienta"
  {
    ClientNameTransliterated();
    ClientNameSnakeCase();
  }

  // "Email Адрес" -> "Email Adres" -> "email_adres".

  lemma EmailAddressChunk0()
    ensures Transliterated("Email ") == "Email "
  {
    TransliteratedAscii("Email ");
  }

  lemma EmailAddressChunk1()
    ensures Transliterated("Адр") == "Adr"
  {
  }

  lemma EmailAddressChunk2()
    ensures Transliterated("ес") == "es"
  {
  }

  lemma EmailAddressTransliterated()
    ensures Transliterated("Email Адрес") == "Email Adres"
  {
    assert "Email Адрес" == "Email " + "Адр" + "ес";
    TransliteratedConcat("Email " + "Адр", "ес");
    TransliteratedConcat("Email ", "Адр");
    EmailAddressChunk0();
    EmailAddressChunk1();
    EmailAddressChunk2();
    assert "Email " + "Adr" + "es" == "Email Adres";
  }

  lemma EmailAddressWords()
    ensures forall i :: 0 <= i < |["Email", "Adres"]| ==> IsAlnumWord(["Email", "Adres"][i])
    ensures forall i :: 0 <= i < |[" "]| ==> IsSeparatorRun([" "][i])
  {
  }

  lemma EmailAddressInterleave()
    ensures Interleave(["Email", "Adres"], [" "]) == "Email Adres"
  {
    var ws, seps := ["Email", "Adres"], [" "];
    assert ws[1..] == ["Adres"] && seps[1..] == [];
  }

  lemma EmailAddressJoin()
    ensures JoinUnderscore(["Email", "Adres"]) == "Email_Adres"
  {
    var ws := ["Email", "Adres"];
    assert ws[1..] == ["Adres"];
  }

  lemma EmailAddressLower()
    ensures ToLower("Email_Adres") == "email_adres"
  {
    LowerOf("Email_Adres", "email_adres");
  }

  lemma EmailAddressSnakeCase()
    ensures SnakeCase("Email Adres") == "email_adres"
  {
    EmailAddressWords();
    EmailAddressInterleave();
    EmailAddressJoin();
    EmailAddressLower();
    SnakeCaseVia("Email Adres", ["Email", "Adres"], [" "], "Email_Adres", "email_adres");
  }

  lemma ExampleEmailAddress()
    ensures Normalized("Email Адрес") == "email_adres"
  {
    EmailAddressTransliterated();
    EmailAddressSnakeCase();
  }

  // "Телефон" -> "Telefon" -> "telefon".

  lemma PhoneChunk0()
    ensures Transliterated("Тел") == "Tel"
  {
  }

  lemma PhoneChunk1()
    ensures Transliterated("ефо") == "efo"
  {
  }

  lemma PhoneChunk2()
    ensures Transliterated("н") == "n"
  {
  }

  lemma PhoneTransliterated()
    ensures Transliterated("Телефон") == "Telefon"
  {
    assert "Телефон" == "Тел" + "ефо" + "н";
    TransliteratedConcat("Тел" + "ефо", "н");
    TransliteratedConcat("Тел", "ефо");
    PhoneChunk0();
    PhoneChunk1();
    PhoneChunk2();
    assert "Tel" + "efo" + "n" == "Telefon";
  }

  lemma PhoneWords()
    ensures forall i :: 0 <= i < |["Telefon"]| ==> IsAlnumWord(["Telefon"][i])
  {
  }

  lemma PhoneLower()
    ensures ToLower("Telefon") == "telefon"
  {
    LowerOf("Telefon", "telefon");
  }

  lemma PhoneSnakeCase()
    ensures SnakeCase("Telefon") == "telefon"
  {
    PhoneWords();
    PhoneLower();
    SnakeCaseVia("Telefon", ["Telefon"], [], "Telefon", "telefon");
  }

  lemma ExamplePhone()
    ensures Normalized("Телефон") == "telefon"
  {
    PhoneTransliterated();
    PhoneSnakeCase();
  }
}
