/** Lemmas stating what the model gives on the sample strings of the source
    module's docstring and of its disabled smoke code. A long string is cut
    into pieces of a few characters, each piece is stated by its own small
    lemma, and the concatenation lemmas put the pieces back together. */
module NormalizerExamples {
  import opened Options
  import opened CharClasses
  import opened TextOps
  import opened Normalizer

  lemma JamilPiece1() ensures Delete("جـــ", Tatweel) == "ج" {}
  lemma JamilPiece2() ensures Delete("مـــ", Tatweel) == "م" {}
  lemma JamilPiece3() ensures Delete("يـــل", Tatweel) == "يل" {}

  /** The elongated word, given as its three pieces. */
  lemma JamilWhole(s: string)
    requires s == "جـــ" + "مـــ" + "يـــل"
    ensures Delete(s, Tatweel) == "جميل"
  {
    DeleteAppend("جـــ" + "مـــ", "يـــل", Tatweel);
    DeleteAppend("جـــ", "مـــ", Tatweel);
    JamilPiece1(); JamilPiece2(); JamilPiece3();
  }

  /** The docstring's example: the elongated word loses its tatweels. */
  lemma TatweelDocstringExample()
    ensures RemoveTatweel(Some("جـــمـــيـــل")) == Some("جميل")
  {
    JamilWhole("جـــمـــيـــل");
  }

  /** Absent text stays absent. */
  lemma TatweelAbsentExample()
    ensures RemoveTatweel(None) == None
  {
  }

  /** The first word of the basmala loses its vowel marks. */
  lemma BismExample()
    ensures RemoveDiacritics("بِسْمِ") == "بسم"
  {
  }

  lemma RahmanPiece1() ensures Delete("الرَّ", Diacritics) == "الر" {}
  lemma RahmanPiece2() ensures Delete("حْمٰنِ", Diacritics) == "حمٰن" {}

  /** In a later word of the basmala the superscript alif U+0670 survives
      while fatha, shadda, sukun and kasra go. */
  lemma RahmanExample()
    ensures RemoveDiacritics("الرَّحْمٰنِ") == "الرحمٰن"
  {
    assert "الرَّحْمٰنِ" == "الرَّ" + "حْمٰنِ";
    DeleteAppend("الرَّ", "حْمٰنِ", Diacritics);
    RahmanPiece1(); RahmanPiece2();
  }

  /** A hamza written as a separate combining mark after alif is not
      composed and not removed: the composite removal leaves it alone. */
  lemma CombiningHamzaKept()
    ensures NormalizeText1("\U{0627}\U{0654}") == "\U{0627}\U{0654}"
  {
  }

  /** Each alif form folds to plain alif. */
  lemma AlifFormsExample()
    ensures NormalizeText2("إأٱآ") == "اااا"
  {
  }

  /** The older fixed folding treats the alif forms the same way. */
  lemma AlifFormsLettersExample()
    ensures NormalizeArabicLetters("إأٱآ") == "اااا"
  {
  }

  /** The hamza seats of the smoke code's sample fold to plain hamza. */
  lemma HamzaSeatsExample()
    ensures NormalizeText2(" ؤ ئ ") == " ء ء "
  {
  }

  /** The alif maksura of the sample's last word folds to ya. */
  lemma AlifMaksuraExample()
    ensures NormalizeText2("واسى") == "واسي"
  {
  }

  /** Every ha is folded, not only a word-final one: here the ha opens the
      word (from the smoke code's sample). */
  lemma HaFoldedExample()
    ensures NormalizeText2("هاتف") == "ةاتف"
  {
  }

  /** With the ha pass off the word is kept. */
  lemma HaKeptExample()
    ensures NormalizeText2("الله", normTah := false) == "الله"
  {
  }

  /** The older fixed folding never touches ha. */
  lemma HaLettersExample()
    ensures NormalizeArabicLetters("الله") == "الله"
  {
  }

  /** Latin letters and digits pass through the folding unchanged while
      the Arabic letter beside them is folded. */
  lemma MixedScriptExample()
    ensures NormalizeText2("Hi ى1") == "Hi ي1"
  {
  }

  /** A letter outside the Arabic class (U+069E), the spaces and a digit are
      blanked; the Arabic letters stay. */
  lemma MaskExample()
    ensures MaskNonArabic("ف ڞ8") == "ف   "
  {
  }
}
