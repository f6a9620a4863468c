/**
 * The label-to-identifier normaliser (`transliterateToSnakeCase`): Cyrillic letters are
 * transliterated through a fixed table, then the text is cleaned into a lower-case snake_case
 * identifier, with `"variable"` as the fallback when nothing is left.
 */
module Transliterate {
  import opened Wrappers
  import opened Chars

  /**
   * The Cyrillic-to-Latin table, as a lookup: `Some(latin)` for a key of the table, `None` for
   * every other character.
   */
  function TransliterationOf(c: char): Option<string> {
    match c
    case 'а' => Some("a") case 'б' => Some("b") case 'в' => Some("v") case 'г' => Some("g")
    case 'д' => Some("d") case 'е' => Some("e") case 'ё' => Some("yo") case 'ж' => Some("zh")
    case 'з' => Some("z") case 'и' => Some("i") case 'й' => Some("y") case 'к' => Some("k")
    case 'л' => Some("l") case 'м' => Some("m") case 'н' => Some("n") case 'о' => Some("o")
    case 'п' => Some("p") case 'р' => Some("r") case 'с' => Some("s") case 'т' => Some("t")
    case 'у' => Some("u") case 'ф' => Some("f") case 'х' => Some("h") case 'ц' => Some("ts")
    case 'ч' => Some("ch") case 'ш' => Some("sh") case 'щ' => Some("shch") case 'ъ' => Some("")
    case 'ы' => Some("y") case 'ь' => Some("") case 'э' => Some("e") case 'ю' => Some("yu")
    case 'я' => Some("ya") case 'А' => Some("A") case 'Б' => Some("B") case 'В' => Some("V")
    case 'Г' => Some("G") case 'Д' => Some("D") case 'Е' => Some("E") case 'Ё' => Some("Yo")
    case 'Ж' => Some("Zh") case 'З' => Some("Z") case 'И' => Some("I") case 'Й' => Some("Y")
    case 'К' => Some("K") case 'Л' => Some("L") case 'М' => Some("M") case 'Н' => Some("N")
    case 'О' => Some("O") case 'П' => Some("P") case 'Р' => Some("R") case 'С' => Some("S")
    case 'Т' => Some("T") case 'У' => Some("U") case 'Ф' => Some("F") case 'Х' => Some("H")
    case 'Ц' => Some("Ts") case 'Ч' => Some("Ch") case 'Ш' => Some("Sh") case 'Щ' => Some("Shch")
    case 'Ъ' => Some("") case 'Ы' => Some("Y") case 'Ь' => Some("") case 'Э' => Some("E")
    case 'Ю' => Some("Yu") case 'Я' => Some("Ya")
    case _ => None
  }

  /** The identifier used when the cleaned label is empty. */
  const Fallback := "variable"

  /** Every key of the table is a Cyrillic letter, so no ASCII character is ever rewritten. */
  lemma TableKeysAreCyrillic()
    ensures forall c :: TransliterationOf(c).Some? ==> 0x400 <= c as int <= 0x4FF
  {
  }

  /** What one character becomes in the transliteration pass. */
  function MapChar(c: char): string {
    match TransliterationOf(c)
    case Some(latin) => latin
    case None => [c]
  }

  /** The transliteration pass over a whole text, character by character. */
  function Transliterated(s: string): string {
    if s == [] then [] else MapChar(s[0]) + Transliterated(s[1..])
  }

  /** Transliterating one more character appends that character's image. */
  lemma {:induction false} TransliteratedSnoc(s: string, c: char)
    ensures Transliterated(s + [c]) == Transliterated(s) + MapChar(c)
  {
    if s != [] {
      assert (s + [c])[1..] == s[1..] + [c];
      TransliteratedSnoc(s[1..], c);
    }
  }

  /** The `for ... of` loop that builds the transliterated text. */
  method TransliterateChars(text: string) returns (result: string)
    ensures result == Transliterated(text)
  {
    result := "";
    for i := 0 to |text|
      invariant result == Transliterated(text[..i])
    {
      var c := text[i];
      assert text[..i + 1] == text[..i] + [c];
      TransliteratedSnoc(text[..i], c);
      var latin := TransliterationOf(c);
      if latin.Some? {
        result := result + latin.value;
      } else {
        result := result + [c];
      }
    }
    assert text[..|text|] == text;
  }

  /** `[\s-]`: the characters a separator run is made of. */
  predicate IsSeparator(c: char) {
    IsWhitespace(c) || c == '-'
  }

  predicate IsUnderscore(c: char) {
    c == '_'
  }

  /** `s` without its longest prefix of characters satisfying `p`. */
  function DropWhile(s: string, p: char -> bool): (r: string)
    ensures |r| <= |s| && r == s[|s| - |r|..]
    ensures r != [] ==> !p(r[0])
  {
    if s != [] && p(s[0]) then DropWhile(s[1..], p) else s
  }

  /** A global `replace(/[p]+/g, '_')`: each maximal run of `p` characters becomes one `_`. */
  function ReplaceRuns(s: string, p: char -> bool): string
    decreases |s|
  {
    if s == [] then []
    else if p(s[0]) then "_" + ReplaceRuns(DropWhile(s[1..], p), p)
    else [s[0]] + ReplaceRuns(s[1..], p)
  }

  /** Step 1, `replace(/[\s-]+/g, '_')`. */
  function SeparatorsToUnderscores(s: string): string {
    ReplaceRuns(s, IsSeparator)
  }

  /** Step 2, `replace(/[^a-zA-Z0-9_]/g, '')`. */
  function StripInvalid(s: string): string {
    if s == [] then []
    else if IsWordChar(s[0]) then [s[0]] + StripInvalid(s[1..])
    else StripInvalid(s[1..])
  }

  /** Step 3, `replace(/_+/g, '_')`. */
  function CollapseUnderscores(s: string): string {
    ReplaceRuns(s, IsUnderscore)
  }

  /** Step 4, `toLowerCase()`; only ASCII characters reach it. */
  function ToLower(s: string): string {
    if s == [] then [] else [AsciiLower(s[0])] + ToLower(s[1..])
  }

  function DropTrailingUnderscores(s: string): string {
    if s != [] && s[|s| - 1] == '_' then DropTrailingUnderscores(s[..|s| - 1]) else s
  }

  /** Step 5, `replace(/^_+|_+$/g, '')`. */
  function TrimUnderscores(s: string): string {
    DropTrailingUnderscores(DropWhile(s, IsUnderscore))
  }

  /** The snake_case pass, steps 1 to 5 in order. */
  function SnakeCase(s: string): string {
    TrimUnderscores(ToLower(CollapseUnderscores(StripInvalid(SeparatorsToUnderscores(s)))))
  }

  /**
   * `transliterateToSnakeCase(text)` as a value. Every input, including one that cleans to
   * nothing, gives a non-empty `[a-z0-9_]` identifier with no `_` at its ends and no `__`.
   */
  function Normalized(text: string): (r: string)
    ensures IsIdentifier(r)
  {
    SnakeCaseShape(Transliterated(text));
    FallbackIsIdentifier();
    var s := SnakeCase(Transliterated(text));
    if s == "" then Fallback else s
  }

  predicate NoDoubleUnderscore(s: string) {
    forall k :: 0 <= k < |s| - 1 ==> !(s[k] == '_' && s[k + 1] == '_')
  }

  /** The shape every result has: non-empty `[a-z0-9_]`, no `_` at either end, no `__`. */
  predicate IsIdentifier(s: string) {
    && |s| > 0
    && (forall k :: 0 <= k < |s| ==> IsLowerWordChar(s[k]))
    && s[0] != '_' && s[|s| - 1] != '_'
    && NoDoubleUnderscore(s)
  }

  /** The normaliser: transliterate, then clean, then fall back. */
  method TransliterateToSnakeCase(text: string) returns (r: string)
    ensures r == Normalized(text)
    ensures IsIdentifier(r)
  {
    var result := TransliterateChars(text);
    result := SnakeCase(result);
    r := if result == "" then Fallback else result;
  }

  // ---------------------------------------------------------------------------------------
  // Properties of the cleanup steps

  lemma {:induction false} ReplaceRunsChars(s: string, p: char -> bool)
    ensures forall k :: 0 <= k < |ReplaceRuns(s, p)| ==>
      ReplaceRuns(s, p)[k] == '_' || (ReplaceRuns(s, p)[k] in s && !p(ReplaceRuns(s, p)[k]))
    decreases |s|
  {
    if s == [] {
    } else if p(s[0]) {
      var t := DropWhile(s[1..], p);
      ReplaceRunsChars(t, p);
      forall c | c in t ensures c in s {
        var j :| 0 <= j < |t| && t[j] == c;
        assert s[|s| - |t| + j] == c;
      }
    } else {
      ReplaceRunsChars(s[1..], p);
      forall c | c in s[1..] ensures c in s { }
    }
  }

  /** A run-replacing pass over a text that starts with a non-run character starts with it too. */
  lemma ReplaceRunsHead(s: string, p: char -> bool)
    requires s != [] && !p(s[0])
    ensures ReplaceRuns(s, p) != [] && ReplaceRuns(s, p)[0] == s[0]
  {
  }

  /** After collapsing, no two underscores are adjacent. */
  lemma {:induction false} CollapseNoDouble(s: string)
    ensures NoDoubleUnderscore(CollapseUnderscores(s))
    decreases |s|
  {
    if s == [] {
    } else if s[0] == '_' {
      var t := DropWhile(s[1..], IsUnderscore);
      CollapseNoDouble(t);
      if t != [] { ReplaceRunsHead(t, IsUnderscore); }
    } else {
      CollapseNoDouble(s[1..]);
      if s[1..] != [] && s[1] != '_' { ReplaceRunsHead(s[1..], IsUnderscore); }
      if s[1..] != [] && s[1] == '_' {
        var t := DropWhile(s[2..], IsUnderscore);
        assert CollapseUnderscores(s[1..]) == "_" + CollapseUnderscores(t);
      }
    }
  }

  lemma {:induction false} StripInvalidChars(s: string)
    ensures forall k :: 0 <= k < |StripInvalid(s)| ==> IsWordChar(StripInvalid(s)[k])
  {
    if s != [] { StripInvalidChars(s[1..]); }
  }

  lemma {:induction false} ToLowerPointwise(s: string)
    ensures |ToLower(s)| == |s|
    ensures forall k :: 0 <= k < |s| ==> ToLower(s)[k] == AsciiLower(s[k])
  {
    if s != [] { ToLowerPointwise(s[1..]); }
  }

  lemma {:induction false} DropTrailingSlice(s: string)
    ensures |DropTrailingUnderscores(s)| <= |s|
    ensures DropTrailingUnderscores(s) == s[..|DropTrailingUnderscores(s)|]
    ensures DropTrailingUnderscores(s) != [] ==> DropTrailingUnderscores(s)[|DropTrailingUnderscores(s)| - 1] != '_'
  {
    if s != [] && s[|s| - 1] == '_' { DropTrailingSlice(s[..|s| - 1]); }
  }

  /** Trimming leaves a slice of its input that neither starts nor ends with `_`. */
  lemma TrimSlice(s: string) returns (i: nat, j: nat)
    ensures i <= j <= |s| && TrimUnderscores(s) == s[i..j]
    ensures TrimUnderscores(s) != [] ==> TrimUnderscores(s)[0] != '_'
    ensures TrimUnderscores(s) != [] ==> TrimUnderscores(s)[|TrimUnderscores(s)| - 1] != '_'
  {
    var d := DropWhile(s, IsUnderscore);
    var e := DropTrailingUnderscores(d);
    DropTrailingSlice(d);
    i := |s| - |d|;
    j := i + |e|;
    assert e == d[..|e|] == s[i..j];
    if e != [] {
      assert e[0] == d[0] && !IsUnderscore(d[0]);
    }
  }

  /** Collapsing a text made of `[A-Za-z0-9_]` leaves it made of those characters. */
  lemma CollapseKeepsWordChars(b: string)
    requires forall k :: 0 <= k < |b| ==> IsWordChar(b[k])
    ensures forall k :: 0 <= k < |CollapseUnderscores(b)| ==> IsWordChar(CollapseUnderscores(b)[k])
  {
    var c := CollapseUnderscores(b);
    ReplaceRunsChars(b, IsUnderscore);
    forall k | 0 <= k < |c| ensures IsWordChar(c[k]) {
      if c[k] != '_' {
        var j :| 0 <= j < |b| && b[j] == c[k];
      }
    }
  }

  /** Lower-casing keeps the underscores where they were and leaves only `[a-z0-9_]`. */
  lemma ToLowerShape(c: string)
    requires forall k :: 0 <= k < |c| ==> IsWordChar(c[k])
    requires NoDoubleUnderscore(c)
    ensures forall k :: 0 <= k < |ToLower(c)| ==> IsLowerWordChar(ToLower(c)[k])
    ensures NoDoubleUnderscore(ToLower(c))
  {
    ToLowerPointwise(c);
  }

  /** Trimming a text of `[a-z0-9_]` without `__` gives an identifier, or nothing. */
  lemma TrimShape(d: string)
    requires forall k :: 0 <= k < |d| ==> IsLowerWordChar(d[k])
    requires NoDoubleUnderscore(d)
    ensures TrimUnderscores(d) != "" ==> IsIdentifier(TrimUnderscores(d))
  {
    var i, j := TrimSlice(d);
    SliceShape(d, i, j);
  }

  /** A slice of a text of `[a-z0-9_]` without `__` is such a text too. */
  lemma SliceShape(d: string, i: nat, j: nat)
    requires i <= j <= |d|
    requires forall k :: 0 <= k < |d| ==> IsLowerWordChar(d[k])
    requires NoDoubleUnderscore(d)
    ensures forall k :: 0 <= k < j - i ==> IsLowerWordChar(d[i..j][k])
    ensures NoDoubleUnderscore(d[i..j])
  {
    var e := d[i..j];
    assert forall k :: 0 <= k < |e| ==> e[k] == d[i + k];
  }

  /** Every output of the snake_case pass that is not empty is an identifier. */
  lemma SnakeCaseShape(s: string)
    ensures SnakeCase(s) != "" ==> IsIdentifier(SnakeCase(s))
  {
    var a := SeparatorsToUnderscores(s);
    var b := StripInvalid(a);
    var c := CollapseUnderscores(b);
    StripInvalidChars(a);
    CollapseKeepsWordChars(b);
    CollapseNoDouble(b);
    ToLowerShape(c);
    TrimShape(ToLower(c));
  }

  lemma FallbackIsIdentifier()
    ensures IsIdentifier(Fallback)
  {
    var f := Fallback;
    assert |f| == 8 && f[0] == 'v' && f[7] == 'e';
    forall k | 0 <= k < |f| ensures IsLowerWordChar(f[k]) { }
    assert NoDoubleUnderscore(f);
  }

  // ---------------------------------------------------------------------------------------
  // Idempotence

  /** Characters that are not keys of the table pass through the transliteration unchanged. */
  lemma {:induction false} UnmappedPassThrough(s: string)
    requires forall k :: 0 <= k < |s| ==> TransliterationOf(s[k]).None?
    ensures Transliterated(s) == s
  {
    if s != [] {
      UnmappedPassThrough(s[1..]);
    }
  }

  /** ASCII text, in particular every identifier, is left alone by the transliteration. */
  lemma TransliteratedAscii(s: string)
    requires forall k :: 0 <= k < |s| ==> s[k] as int < 0x80
    ensures Transliterated(s) == s
  {
    TableKeysAreCyrillic();
    UnmappedPassThrough(s);
  }

  lemma {:induction false} ReplaceRunsNoop(s: string, p: char -> bool)
    requires forall k :: 0 <= k < |s| ==> !p(s[k])
    ensures ReplaceRuns(s, p) == s
    decreases |s|
  {
    if s != [] { ReplaceRunsNoop(s[1..], p); }
  }

  lemma {:induction false} CollapseNoop(s: string)
    requires NoDoubleUnderscore(s)
    ensures CollapseUnderscores(s) == s
    decreases |s|
  {
    if s != [] {
      if s[0] == '_' {
        assert DropWhile(s[1..], IsUnderscore) == s[1..];
      }
      CollapseNoop(s[1..]);
    }
  }

  lemma {:induction false} StripInvalidNoop(s: string)
    requires forall k :: 0 <= k < |s| ==> IsWordChar(s[k])
    ensures StripInvalid(s) == s
  {
    if s != [] { StripInvalidNoop(s[1..]); }
  }

  /** An identifier is its own normal form. */
  lemma IdentifierIsFixed(s: string)
    requires IsIdentifier(s)
    ensures Normalized(s) == s
  {
    assert forall k :: 0 <= k < |s| ==> s[k] as int < 0x80 by {
      forall k | 0 <= k < |s| ensures s[k] as int < 0x80 {
        assert IsLowerWordChar(s[k]);
      }
    }
    TransliteratedAscii(s);
    SnakeCaseFixed(s);
  }

  /** Each cleanup step leaves an identifier as it is. */
  lemma SnakeCaseFixed(s: string)
    requires IsIdentifier(s)
    ensures SnakeCase(s) == s
  {
    assert forall k :: 0 <= k < |s| ==> !IsSeparator(s[k]) && IsWordChar(s[k]) by {
      forall k | 0 <= k < |s| ensures !IsSeparator(s[k]) && IsWordChar(s[k]) {
        assert IsLowerWordChar(s[k]);
      }
    }
    ReplaceRunsNoop(s, IsSeparator);
    assert SeparatorsToUnderscores(s) == s;
    StripInvalidNoop(s);
    CollapseNoop(s);
    ToLowerFixed(s);
    assert DropWhile(s, IsUnderscore) == s;
    assert DropTrailingUnderscores(s) == s;
  }

  /** Lower-casing leaves a text of `[a-z0-9_]` as it is. */
  lemma ToLowerFixed(s: string)
    requires forall k :: 0 <= k < |s| ==> IsLowerWordChar(s[k])
    ensures ToLower(s) == s
  {
    ToLowerPointwise(s);
  }

  /** Normalising a normalised label changes nothing. */
  lemma NormalizedIdempotent(text: string)
    ensures Normalized(Normalized(text)) == Normalized(text)
  {
    IdentifierIsFixed(Normalized(text));
  }

  // ---------------------------------------------------------------------------------------
  // Separator runs between words, and the documented examples

  lemma {:induction false} TransliteratedConcat(a: string, b: string)
    ensures Transliterated(a + b) == Transliterated(a) + Transliterated(b)
  {
    if a == [] {
      assert a + b == b;
    } else {
      assert (a + b)[1..] == a[1..] + b;
      TransliteratedConcat(a[1..], b);
    }
  }

  lemma {:induction false} DropWhileConcat(a: string, b: string, p: char -> bool)
    requires a != [] && !p(a[|a| - 1])
    ensures DropWhile(a + b, p) == DropWhile(a, p) + b
    ensures DropWhile(a, p) != [] && DropWhile(a, p)[|DropWhile(a, p)| - 1] == a[|a| - 1]
  {
    var ab := a + b;
    assert ab[0] == a[0];
    if p(a[0]) {
      assert ab[1..] == a[1..] + b;
      assert a[1..][|a[1..]| - 1] == a[|a| - 1];
      DropWhileConcat(a[1..], b, p);
    }
  }

  /** Dropping a run of `p` characters in front of a text that does not start with one. */
  lemma {:induction false} DropWhileRun(run: string, rest: string, p: char -> bool)
    requires forall k :: 0 <= k < |run| ==> p(run[k])
    requires rest == [] || !p(rest[0])
    ensures DropWhile(run + rest, p) == rest
  {
    if run == [] {
      assert run + rest == rest;
    } else {
      assert (run + rest)[1..] == run[1..] + rest;
      DropWhileRun(run[1..], rest, p);
    }
  }

  /** A run-replacing pass can be split after any character that does not belong to a run. */
  lemma {:induction false} ReplaceRunsConcat(a: string, b: string, p: char -> bool)
    requires a != [] && !p(a[|a| - 1])
    ensures ReplaceRuns(a + b, p) == ReplaceRuns(a, p) + ReplaceRuns(b, p)
    decreases |a|, 1
  {
    if p(a[0]) {
      ReplaceRunsConcatAtRun(a, b, p);
    } else if |a| == 1 {
      assert (a + b)[1..] == b;
    } else {
      assert (a + b)[1..] == a[1..] + b;
      ReplaceRunsConcat(a[1..], b, p);
    }
  }

  lemma {:induction false} ReplaceRunsConcatAtRun(a: string, b: string, p: char -> bool)
    requires a != [] && !p(a[|a| - 1]) && p(a[0])
    ensures ReplaceRuns(a + b, p) == ReplaceRuns(a, p) + ReplaceRuns(b, p)
    decreases |a|, 0
  {
    var t := DropWhile(a[1..], p);
    DropAfterRunHead(a, b, p);
    ReplaceRunsRunHead(a + b, p);
    ReplaceRunsRunHead(a, p);
    ReplaceRunsConcat(t, b, p);
    AppendAssoc("_", ReplaceRuns(t, p), ReplaceRuns(b, p));
  }

  /** A pass over a text that starts with a run character writes `_` and skips the run. */
  lemma ReplaceRunsRunHead(s: string, p: char -> bool)
    requires s != [] && p(s[0])
    ensures ReplaceRuns(s, p) == "_" + ReplaceRuns(DropWhile(s[1..], p), p)
  {
  }

  /** Skipping the run at the head of `a + b` leaves the rest of `a`, then `b`. */
  lemma DropAfterRunHead(a: string, b: string, p: char -> bool)
    requires a != [] && !p(a[|a| - 1]) && p(a[0])
    ensures var t := DropWhile(a[1..], p);
      DropWhile((a + b)[1..], p) == t + b && t != [] && !p(t[|t| - 1]) && |t| < |a|
  {
    assert (a + b)[1..] == a[1..] + b;
    assert a[1..][|a[1..]| - 1] == a[|a| - 1];
    DropWhileConcat(a[1..], b, p);
  }

  /** A non-empty run of `p` characters followed by a text that does not start with one. */
  lemma ReplaceRunsAtRun(run: string, rest: string, p: char -> bool)
    requires run != [] && forall k :: 0 <= k < |run| ==> p(run[k])
    requires rest == [] || !p(rest[0])
    ensures ReplaceRuns(run + rest, p) == "_" + ReplaceRuns(rest, p)
  {
    assert (run + rest)[1..] == run[1..] + rest;
    DropWhileRun(run[1..], rest, p);
  }

  /** A non-empty run of ASCII letters and digits. */
  predicate IsAlnumWord(w: string) {
    |w| > 0 && forall k :: 0 <= k < |w| ==> IsWordChar(w[k]) && w[k] != '_'
  }

  /** A non-empty run of whitespace and hyphens. */
  predicate IsSeparatorRun(r: string) {
    |r| > 0 && forall k :: 0 <= k < |r| ==> IsSeparator(r[k])
  }

  /** `ws[0] + seps[0] + ws[1] + ... + ws[n]`. */
  function Interleave(ws: seq<string>, seps: seq<string>): string
    requires |ws| == |seps| + 1
  {
    if seps == [] then ws[0] else ws[0] + seps[0] + Interleave(ws[1..], seps[1..])
  }

  /** `ws.join('_')` for a non-empty list. */
  function JoinUnderscore(ws: seq<string>): string
    requires |ws| > 0
  {
    if |ws| == 1 then ws[0] else ws[0] + "_" + JoinUnderscore(ws[1..])
  }

  lemma {:induction false} InterleaveStartsWithWord(ws: seq<string>, seps: seq<string>)
    requires |ws| == |seps| + 1 && IsAlnumWord(ws[0])
    ensures Interleave(ws, seps) != [] && Interleave(ws, seps)[0] == ws[0][0]
  {
  }

  lemma {:induction false} JoinUnderscoreEnds(ws: seq<string>)
    requires |ws| > 0 && forall i :: 0 <= i < |ws| ==> IsAlnumWord(ws[i])
    ensures var j := JoinUnderscore(ws); |j| > 0 && j[0] != '_' && j[|j| - 1] != '_'
  {
    assert IsAlnumWord(ws[0]);
    if |ws| > 1 {
      JoinUnderscoreEnds(ws[1..]);
    }
  }

  /** Step 1 on words separated by runs: each run, however long, becomes exactly one `_`. */
  lemma {:induction false} SeparatorRunsBecomeUnderscores(ws: seq<string>, seps: seq<string>)
    requires |ws| == |seps| + 1
    requires forall i :: 0 <= i < |ws| ==> IsAlnumWord(ws[i])
    requires forall i :: 0 <= i < |seps| ==> IsSeparatorRun(seps[i])
    ensures SeparatorsToUnderscores(Interleave(ws, seps)) == JoinUnderscore(ws)
  {
    var w := ws[0];
    ReplaceRunsNoop(w, IsSeparator);
    if seps != [] {
      var rest := Interleave(ws[1..], seps[1..]);
      calc {
        ReplaceRuns(Interleave(ws, seps), IsSeparator);
        { AppendAssoc(w, seps[0], rest); }
        ReplaceRuns(w + (seps[0] + rest), IsSeparator);
        { ReplaceRunsConcat(w, seps[0] + rest, IsSeparator); }
        w + ReplaceRuns(seps[0] + rest, IsSeparator);
        { InterleaveStartsWithWord(ws[1..], seps[1..]);
          ReplaceRunsAtRun(seps[0], rest, IsSeparator); }
        w + ("_" + ReplaceRuns(rest, IsSeparator));
        { SeparatorRunsBecomeUnderscores(ws[1..], seps[1..]); }
        w + ("_" + JoinUnderscore(ws[1..]));
        { AppendAssoc(w, "_", JoinUnderscore(ws[1..])); }
        JoinUnderscore(ws);
      }
    }
  }

  /** Step 2 leaves words joined by single underscores as they are. */
  lemma JoinedWordsAreWordChars(ws: seq<string>)
    requires |ws| > 0 && forall i :: 0 <= i < |ws| ==> IsAlnumWord(ws[i])
    ensures StripInvalid(JoinUnderscore(ws)) == JoinUnderscore(ws)
  {
    JoinedWordsChars(ws);
    StripInvalidNoop(JoinUnderscore(ws));
  }

  lemma {:induction false} JoinedWordsChars(ws: seq<string>)
    requires |ws| > 0 && forall i :: 0 <= i < |ws| ==> IsAlnumWord(ws[i])
    ensures forall k :: 0 <= k < |JoinUnderscore(ws)| ==> IsWordChar(JoinUnderscore(ws)[k])
  {
    assert IsAlnumWord(ws[0]);
    if |ws| > 1 {
      JoinedWordsChars(ws[1..]);
      var rest := JoinUnderscore(ws[1..]);
      var j := ws[0] + "_" + rest;
      forall k | 0 <= k < |j| ensures IsWordChar(j[k]) {
        if k > |ws[0]| { assert j[k] == rest[k - |ws[0]| - 1]; }
      }
    }
  }

  /** Step 3 leaves words joined by single underscores as they are. */
  lemma {:induction false} JoinedWordsCollapse(ws: seq<string>)
    requires |ws| > 0 && forall i :: 0 <= i < |ws| ==> IsAlnumWord(ws[i])
    ensures CollapseUnderscores(JoinUnderscore(ws)) == JoinUnderscore(ws)
  {
    assert IsAlnumWord(ws[0]);
    ReplaceRunsNoop(ws[0], IsUnderscore);
    if |ws| > 1 {
      var rest := JoinUnderscore(ws[1..]);
      JoinedWordsCollapse(ws[1..]);
      JoinUnderscoreEnds(ws[1..]);
      assert ws[0] + "_" + rest == ws[0] + ("_" + rest);
      ReplaceRunsConcat(ws[0], "_" + rest, IsUnderscore);
      ReplaceRunsAtRun("_", rest, IsUnderscore);
    }
  }

  /** Lower-casing does not move an underscore to either end, so trimming keeps everything. */
  lemma TrimKeepsLowered(s: string)
    requires s != [] && s[0] != '_' && s[|s| - 1] != '_'
    ensures TrimUnderscores(ToLower(s)) == ToLower(s)
  {
    ToLowerPointwise(s);
    var l := ToLower(s);
    assert DropWhile(l, IsUnderscore) == l;
  }

  /**
   * The snake_case pass on ASCII words separated by runs of whitespace and hyphens: the
   * words, lower-cased, joined by single underscores.
   */
  lemma SnakeCaseOfWords(ws: seq<string>, seps: seq<string>)
    requires |ws| == |seps| + 1
    requires forall i :: 0 <= i < |ws| ==> IsAlnumWord(ws[i])
    requires forall i :: 0 <= i < |seps| ==> IsSeparatorRun(seps[i])
    ensures SnakeCase(Interleave(ws, seps)) == ToLower(JoinUnderscore(ws))
  {
    SeparatorRunsBecomeUnderscores(ws, seps);
    JoinedWordsAreWordChars(ws);
    JoinedWordsCollapse(ws);
    JoinUnderscoreEnds(ws);
    TrimKeepsLowered(JoinUnderscore(ws));
  }

  lemma LowerOf(s: string, t: string)
    requires |s| == |t| && forall k :: 0 <= k < |s| ==> AsciiLower(s[k]) == t[k]
    ensures ToLower(s) == t
  {
    ToLowerPointwise(s);
  }
}
