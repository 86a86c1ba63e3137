/** Cyrillic-to-Latin transliteration of station names (`transliterate`). */
module Translit {
  import opened Wrappers

  /**
   * A lookup `TRANSLIT_MAP[c]` in the transliteration table: None for a
   * character that has no entry. The hard and soft signs map to "".
   */
  function TableEntry(c: char): Option<string>
  {
    match c
    case 'А' => Some("A")
    case 'Б' => Some("B")
    case 'В' => Some("V")
    case 'Г' => Some("G")
    case 'Д' => Some("D")
    case 'Е' => Some("E")
    case 'Ё' => Some("Yo")
    case 'Ж' => Some("Zh")
    case 'З' => Some("Z")
    case 'И' => Some("I")
    case 'Й' => Some("Y")
    case 'К' => Some("K")
    case 'Л' => Some("L")
    case 'М' => Some("M")
    case 'Н' => Some("N")
    case 'О' => Some("O")
    case 'П' => Some("P")
    case 'Р' => Some("R")
    case 'С' => Some("S")
    case 'Т' => Some("T")
    case 'У' => Some("U")
    case 'Ф' => Some("F")
    case 'Х' => Some("Kh")
    case 'Ц' => Some("Ts")
    case 'Ч' => Some("Ch")
    case 'Ш' => Some("Sh")
    case 'Щ' => Some("Shch")
    case 'Ъ' => Some("")
    case 'Ы' => Some("Y")
    case 'Ь' => Some("")
    case 'Э' => Some("E")
    case 'Ю' => Some("Yu")
    case 'Я' => Some("Ya")
    case 'а' => Some("a")
    case 'б' => Some("b")
    case 'в' => Some("v")
    case 'г' => Some("g")
    case 'д' => Some("d")
    case 'е' => Some("e")
    case 'ё' => Some("yo")
    case 'ж' => Some("zh")
    case 'з' => Some("z")
    case 'и' => Some("i")
    case 'й' => Some("y")
    case 'к' => Some("k")
    case 'л' => Some("l")
    case 'м' => Some("m")
    case 'н' => Some("n")
    case 'о' => Some("o")
    case 'п' => Some("p")
    case 'р' => Some("r")
    case 'с' => Some("s")
    case 'т' => Some("t")
    case 'у' => Some("u")
    case 'ф' => Some("f")
    case 'х' => Some("kh")
    case 'ц' => Some("ts")
    case 'ч' => Some("ch")
    case 'ш' => Some("sh")
    case 'щ' => Some("shch")
    case 'ъ' => Some("")
    case 'ы' => Some("y")
    case 'ь' => Some("")
    case 'э' => Some("e")
    case 'ю' => Some("yu")
    case 'я' => Some("ya")
    case _ => None
  }

  predicate IsLatinLetter(c: char)
  {
    ('A' <= c <= 'Z') || ('a' <= c <= 'z')
  }

  /**
   * `TRANSLIT_MAP[c] || c`: a character whose entry is missing or empty
   * (falsy) is kept as it is.
   */
  function TranslitChar(c: char): string
  {
    match TableEntry(c)
    case Some(v) => if v != "" then v else [c]
    case None => [c]
  }

  /** `text.split('').map(TranslitChar).join('')`. */
  function Transliterate(text: string): string
  {
    if text == [] then [] else TranslitChar(text[0]) + Transliterate(text[1..])
  }

  /** A character that the transliteration leaves as it is. */
  predicate IsFixed(c: char)
  {
    TranslitChar(c) == [c]
  }

  /** The keys of the table are Cyrillic letters. */
  lemma TableKeysCyrillic(c: char)
    requires TableEntry(c).Some?
    ensures 'Ё' <= c <= 'ё'
  {
  }

  /** The values of the table are made of Latin letters. */
  lemma TableValuesLatin(c: char)
    requires TableEntry(c).Some?
    ensures forall d :: d in TableEntry(c).value ==> IsLatinLetter(d)
  {
    if c < 'а' {
      UpperValuesLatin(c);
    } else {
      LowerValuesLatin(c);
    }
  }

  lemma UpperValuesLatin(c: char)
    requires TableEntry(c).Some? && c < 'а'
    ensures forall d :: d in TableEntry(c).value ==> IsLatinLetter(d)
  {
  }

  lemma LowerValuesLatin(c: char)
    requires TableEntry(c).Some? && c >= 'а'
    ensures forall d :: d in TableEntry(c).value ==> IsLatinLetter(d)
  {
  }

  /** Characters below the Cyrillic block have no entry. */
  lemma NoEntryBelowCyrillic(d: char)
    requires d < 'Ё'
    ensures TableEntry(d).None?
  {
  }

  /** Every character the transliteration produces is one it leaves unchanged. */
  lemma TranslitCharOutputFixed(c: char)
    ensures forall d :: d in TranslitChar(c) ==> IsFixed(d)
  {
    var entry := TableEntry(c);
    if entry.Some? && entry.value != "" {
      TableValuesLatin(c);
      forall d | d in entry.value ensures IsFixed(d) {
        NoEntryBelowCyrillic(d);
      }
    } else {
      assert TranslitChar(c) == [c];
    }
  }

  /** The hard and soft signs are falsy in the table, so they are kept. */
  lemma SignsAreKept()
    ensures Transliterate("Ъ") == "Ъ" && Transliterate("Ь") == "Ь"
    ensures Transliterate("ъ") == "ъ" && Transliterate("ь") == "ь"
  {
    assert "Ъ"[1..] == [] && "Ь"[1..] == [] && "ъ"[1..] == [] && "ь"[1..] == [];
  }

  /** The transliteration works character by character. */
  lemma {:induction false} TransliterateAppend(s: string, t: string)
    ensures Transliterate(s + t) == Transliterate(s) + Transliterate(t)
  {
    if s != [] {
      assert (s + t)[1..] == s[1..] + t;
      TransliterateAppend(s[1..], t);
    } else {
      assert s + t == t;
    }
  }

  /** Text made only of characters outside the table (or of the signs) is unchanged. */
  lemma {:induction false} TransliterateFixed(text: string)
    requires forall i :: 0 <= i < |text| ==> IsFixed(text[i])
    ensures Transliterate(text) == text
  {
    if text != [] {
      TransliterateFixed(text[1..]);
      assert text == [text[0]] + text[1..];
    }
  }

  /** Every character of a transliterated text is left unchanged by another pass. */
  lemma {:induction false} TransliterateOutputFixed(text: string)
    ensures forall i :: 0 <= i < |Transliterate(text)| ==> IsFixed(Transliterate(text)[i])
  {
    if text != [] {
      TranslitCharOutputFixed(text[0]);
      TransliterateOutputFixed(text[1..]);
      var h, t := TranslitChar(text[0]), Transliterate(text[1..]);
      forall i | 0 <= i < |h + t| ensures IsFixed((h + t)[i]) {
        if i < |h| {
          assert (h + t)[i] == h[i] && h[i] in h;
        } else {
          assert (h + t)[i] == t[i - |h|];
        }
      }
    }
  }

  /** Transliterating twice is the same as transliterating once. */
  lemma TransliterateIdempotent(text: string)
    ensures Transliterate(Transliterate(text)) == Transliterate(text)
  {
    TransliterateOutputFixed(text);
    TransliterateFixed(Transliterate(text));
  }
}
