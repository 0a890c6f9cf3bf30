/**
 * Worked examples of `translateZipFormat` (src/core/i18n.js) on format
 * descriptions from the pattern table (src/forms/zip-patterns.js): each
 * replacement step of the German chain, evaluated on one description.
 * Each description is handled as its pieces around the English words, so
 * that every step is a fact about a short piece.
 */
module I18nExamples {
  import opened Strings
  import opened Config
  import opened I18n

  /** The German site shows Germany's format "5 digits (01001-99998)" as
      "5 Ziffern (01001-99998)": only "digits" is replaced. */
  lemma TranslateFiveDigits()
    ensures TranslateZipFormat("5 digits (01001-99998)", De) == "5 Ziffern (01001-99998)"
  {
    FiveDigitsPieces("5 ", " (01001-99998)");
    FiveDigitsIn();
    FiveDigitsOut();
  }

  lemma FiveDigitsIn()
    ensures "5 " + "digits" + " (01001-99998)" == "5 digits (01001-99998)"
  { }

  lemma FiveDigitsOut()
    ensures "5 " + "Ziffern" + " (01001-99998)" == "5 Ziffern (01001-99998)"
  { }

  /** The chain on `a + "digits" + b`. */
  lemma FiveDigitsPieces(a: string, b: string)
    requires a == "5 " && b == " (01001-99998)"
    ensures TranslateZipFormat(a + "digits" + b, De) == a + "Ziffern" + b
  {
    var f := a + "digits" + b;
    FiveDigitsLacks(a, b);
    WordsLackHold();
    MissingFrom3('N', a, "digits", b);
    ReplaceAllMissing(f, Literal("Numeric (no standard format)"), "Numerisch (kein Standardformat)", 0);
    ReplaceOnce(a, "digits", b, "Ziffern", 0, 0);
    var g := a + "Ziffern" + b;
    MissingFrom3('l', a, "Ziffern", b);
    MissingFrom3('w', a, "Ziffern", b);
    MissingFrom3('o', a, "Ziffern", b);
    MissingFrom3('O', a, "Ziffern", b);
    MissingFrom3('.', a, "Ziffern", b);
    RestMissing(g);
  }

  /** The characters the steps look for, per piece of Germany's format. */
  lemma FiveDigitsLacks(a: string, b: string)
    requires a == "5 " && b == " (01001-99998)"
    ensures 'N' !in a && 'd' !in a && 'l' !in a && 'w' !in a && 'o' !in a && 'O' !in a && '.' !in a
    ensures 'N' !in b && 'd' !in b && 'l' !in b && 'w' !in b && 'o' !in b && 'O' !in b && '.' !in b
  {
    assert forall i :: 0 <= i < |a| ==> a[i] != 'N' && a[i] != 'd' && a[i] != 'l' && a[i] != 'w' && a[i] != 'o' && a[i] != 'O' && a[i] != '.';
    assert forall i :: 0 <= i < |b| ==> b[i] != 'N' && b[i] != 'd' && b[i] != 'l' && b[i] != 'w' && b[i] != 'o' && b[i] != 'O' && b[i] != '.';
  }

  /** Steps three to seven leave a text unchanged that has no `l`, `w`,
      `o`, `O` or `.`. */
  lemma RestMissing(g: string)
    requires 'l' !in g && 'w' !in g && 'o' !in g && 'O' !in g && '.' !in g
    ensures ReplaceAll(ReplaceAll(ReplaceAll(ReplaceAll(ReplaceAll(g,
              Literal("letters"), "Buchstaben"),
              Literal("with optional space"), "mit optionalem Leerzeichen"),
              Word("format", true), "Format"),
              Literal("e.g."), "z.B."),
              Word("or", false), "oder") == g
  {
    ReplaceAllMissing(g, Literal("letters"), "Buchstaben", 0);
    ReplaceAllMissing(g, Literal("with optional space"), "mit optionalem Leerzeichen", 0);
    FormatWordMissing(g, "Format");
    ReplaceAllMissing(g, Literal("e.g."), "z.B.", 1);
    ReplaceAllMissing(g, Word("or", false), "oder", 0);
  }

  /** The German site shows the Dutch format "4 digits + 2 letters (e.g.,
      1234 AB)" as "4 Ziffern + 2 Buchstaben (z.B., 1234 AB)": "digits",
      "letters" and "e.g." each become their German word. */
  lemma TranslateDigitsAndLetters()
    ensures TranslateZipFormat("4 digits + 2 letters (e.g., 1234 AB)", De)
         == "4 Ziffern + 2 Buchstaben (z.B., 1234 AB)"
  {
    DigitsAndLettersPieces("4 ", " + 2 ", " (", ", 1234 AB)");
    DigitsAndLettersIn();
    DigitsAndLettersOut();
  }

  lemma DigitsAndLettersIn()
    ensures "4 " + "digits" + " + 2 " + "letters" + " (" + "e.g." + ", 1234 AB)"
         == "4 digits + 2 letters (e.g., 1234 AB)"
  { }

  lemma DigitsAndLettersOut()
    ensures "4 " + "Ziffern" + " + 2 " + "Buchstaben" + " (" + "z.B." + ", 1234 AB)"
         == "4 Ziffern + 2 Buchstaben (z.B., 1234 AB)"
  { }

  /** The chain on `a + "digits" + b + "letters" + c + "e.g." + d`. */
  lemma DigitsAndLettersPieces(a: string, b: string, c: string, d: string)
    requires a == "4 " && b == " + 2 " && c == " (" && d == ", 1234 AB)"
    ensures TranslateZipFormat(a + "digits" + b + "letters" + c + "e.g." + d, De)
         == a + "Ziffern" + b + "Buchstaben" + c + "z.B." + d
  {
    var f := a + "digits" + b + "letters" + c + "e.g." + d;
    DigitsAndLettersLacks(a, b, c, d);
    WordsLackHold();
    MissingFrom7('N', a, "digits", b, "letters", c, "e.g.", d);
    ReplaceAllMissing(f, Literal("Numeric (no standard format)"), "Numerisch (kein Standardformat)", 0);
    var s2 := DigitsFirst(a, b, c, d);
    var s3 := LettersSecond(a, b, c, d);
    MissingFrom7('w', a, "Ziffern", b, "Buchstaben", c, "e.g.", d);
    MissingFrom7('o', a, "Ziffern", b, "Buchstaben", c, "e.g.", d);
    MissingFrom7('O', a, "Ziffern", b, "Buchstaben", c, "e.g.", d);
    ReplaceAllMissing(s3, Literal("with optional space"), "mit optionalem Leerzeichen", 0);
    FormatWordMissing(s3, "Format");
    var s6 := ExampleSixth(a, b, c, d);
    MissingFrom7('o', a, "Ziffern", b, "Buchstaben", c, "z.B.", d);
    ReplaceAllMissing(s6, Word("or", false), "oder", 0);
  }

  /** The characters the steps look for, per piece of the Dutch format. */
  lemma DigitsAndLettersLacks(a: string, b: string, c: string, d: string)
    requires a == "4 " && b == " + 2 " && c == " (" && d == ", 1234 AB)"
    ensures 'N' !in a && 'd' !in a && 'l' !in a && 'w' !in a && 'o' !in a && 'O' !in a && '.' !in a
    ensures 'N' !in b && 'd' !in b && 'l' !in b && 'w' !in b && 'o' !in b && 'O' !in b && '.' !in b
    ensures 'N' !in c && 'd' !in c && 'l' !in c && 'w' !in c && 'o' !in c && 'O' !in c && '.' !in c
    ensures 'N' !in d && 'd' !in d && 'l' !in d && 'w' !in d && 'e' !in d && 'o' !in d && 'O' !in d
  {
    assert forall i :: 0 <= i < |a| ==> a[i] != 'N' && a[i] != 'd' && a[i] != 'l' && a[i] != 'w' && a[i] != 'o' && a[i] != 'O' && a[i] != '.';
    assert forall i :: 0 <= i < |b| ==> b[i] != 'N' && b[i] != 'd' && b[i] != 'l' && b[i] != 'w' && b[i] != 'o' && b[i] != 'O' && b[i] != '.';
    assert forall i :: 0 <= i < |c| ==> c[i] != 'N' && c[i] != 'd' && c[i] != 'l' && c[i] != 'w' && c[i] != 'o' && c[i] != 'O' && c[i] != '.';
    assert forall i :: 0 <= i < |d| ==> d[i] != 'N' && d[i] != 'd' && d[i] != 'l' && d[i] != 'w' && d[i] != 'e' && d[i] != 'o' && d[i] != 'O';
  }

  /** The characters the steps look for, per English and German word. */
  lemma WordsLackHold()
    ensures 'N' !in "digits" && 'N' !in "letters" && 'd' !in "letters" && 'N' !in "e.g." && 'd' !in "e.g." && 'l' !in "e.g."
    ensures 'l' !in "Ziffern" && 'w' !in "Ziffern" && 'o' !in "Ziffern" && 'O' !in "Ziffern" && '.' !in "Ziffern" && 'w' !in "Buchstaben" && 'o' !in "Buchstaben" && 'O' !in "Buchstaben" && '.' !in "Buchstaben" && 'o' !in "z.B."
  {
    assert forall i :: 0 <= i < |"digits"| ==> "digits"[i] != 'N';
    assert forall i :: 0 <= i < |"letters"| ==> "letters"[i] != 'N' && "letters"[i] != 'd';
    assert forall i :: 0 <= i < |"e.g."| ==> "e.g."[i] != 'N' && "e.g."[i] != 'd' && "e.g."[i] != 'l';
    assert forall i :: 0 <= i < |"Ziffern"| ==> "Ziffern"[i] != 'l' && "Ziffern"[i] != 'w' && "Ziffern"[i] != 'o' && "Ziffern"[i] != 'O' && "Ziffern"[i] != '.';
    assert forall i :: 0 <= i < |"Buchstaben"| ==> "Buchstaben"[i] != 'w' && "Buchstaben"[i] != 'o' && "Buchstaben"[i] != 'O' && "Buchstaben"[i] != '.';
    assert forall i :: 0 <= i < |"z.B."| ==> "z.B."[i] != 'o';
  }

  /** Step two: "digits" becomes "Ziffern". */
  lemma DigitsFirst(a: string, b: string, c: string, d: string) returns (s2: string)
    requires a == "4 " && b == " + 2 " && c == " (" && d == ", 1234 AB)"
    ensures ReplaceAll(a + "digits" + b + "letters" + c + "e.g." + d, Literal("digits"), "Ziffern") == s2
    ensures s2 == a + "Ziffern" + b + "letters" + c + "e.g." + d
  {
    DigitsAndLettersLacks(a, b, c, d);
    WordsLackHold();
    var rest := b + "letters" + c + "e.g." + d;
    MissingFrom5('d', b, "letters", c, "e.g.", d);
    ReplaceOnce(a, "digits", rest, "Ziffern", 0, 0);
    assert a + "digits" + rest == a + "digits" + b + "letters" + c + "e.g." + d;
    s2 := a + "Ziffern" + rest;
    assert s2 == a + "Ziffern" + b + "letters" + c + "e.g." + d;
  }

  /** Step three: "letters" becomes "Buchstaben". */
  lemma LettersSecond(a: string, b: string, c: string, d: string) returns (s3: string)
    requires a == "4 " && b == " + 2 " && c == " (" && d == ", 1234 AB)"
    ensures ReplaceAll(a + "Ziffern" + b + "letters" + c + "e.g." + d, Literal("letters"), "Buchstaben") == s3
    ensures s3 == a + "Ziffern" + b + "Buchstaben" + c + "e.g." + d
  {
    DigitsAndLettersLacks(a, b, c, d);
    WordsLackHold();
    var front := a + "Ziffern" + b;
    var rest := c + "e.g." + d;
    MissingFrom3('l', a, "Ziffern", b);
    MissingFrom3('l', c, "e.g.", d);
    assert "letters"[..0] == [] && front + [] == front;
    ReplaceOnce(front, "letters", rest, "Buchstaben", 0, 0);
    assert front + "letters" + rest == a + "Ziffern" + b + "letters" + c + "e.g." + d;
    s3 := front + "Buchstaben" + rest;
    assert s3 == a + "Ziffern" + b + "Buchstaben" + c + "e.g." + d;
  }

  /** Step six: "e.g." becomes "z.B.". */
  lemma ExampleSixth(a: string, b: string, c: string, d: string) returns (s6: string)
    requires a == "4 " && b == " + 2 " && c == " (" && d == ", 1234 AB)"
    ensures ReplaceAll(a + "Ziffern" + b + "Buchstaben" + c + "e.g." + d, Literal("e.g."), "z.B.") == s6
    ensures s6 == a + "Ziffern" + b + "Buchstaben" + c + "z.B." + d
  {
    DigitsAndLettersLacks(a, b, c, d);
    WordsLackHold();
    var front := a + "Ziffern" + b + "Buchstaben" + c;
    assert "e.g."[..1] == "e";
    MissingFrom5('.', a, "Ziffern", b, "Buchstaben", c);
    MissingFrom2('.', front, "e");
    ReplaceOnce(front, "e.g.", d, "z.B.", 1, 0);
    s6 := front + "z.B." + d;
  }

  /** A character missing from each piece is missing from their join. */
  lemma MissingFrom2(ch: char, x: string, y: string)
    requires ch !in x && ch !in y
    ensures ch !in x + y
  {
    forall i | 0 <= i < |x + y|
      ensures (x + y)[i] != ch
    {
      if i < |x| {
        assert (x + y)[i] == x[i];
      } else {
        assert (x + y)[i] == y[i - |x|];
      }
    }
  }

  lemma MissingFrom3(ch: char, x: string, y: string, z: string)
    requires ch !in x && ch !in y && ch !in z
    ensures ch !in x + y + z
  {
    MissingFrom2(ch, x, y);
    MissingFrom2(ch, x + y, z);
  }

  lemma MissingFrom5(ch: char, x: string, y: string, z: string, u: string, v: string)
    requires ch !in x && ch !in y && ch !in z && ch !in u && ch !in v
    ensures ch !in x + y + z + u + v
  {
    MissingFrom3(ch, x, y, z);
    MissingFrom3(ch, x + y + z, u, v);
  }

  lemma MissingFrom7(ch: char, x: string, y: string, z: string, u: string, v: string, w: string, t: string)
    requires ch !in x && ch !in y && ch !in z && ch !in u && ch !in v && ch !in w && ch !in t
    ensures ch !in x + y + z + u + v + w + t
  {
    MissingFrom5(ch, x, y, z, u, v);
    MissingFrom3(ch, x + y + z + u + v, w, t);
  }
}
