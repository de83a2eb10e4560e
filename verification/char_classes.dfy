/** The static character tables of the normalizer. Each regular expression of
    the source is a bracketed set of code points, so each becomes a membership
    predicate on `char`. The lists are spelled out exactly as the source lists
    them; the contracts relate the diacritic and Arabic lists to the
    code-point ranges they cover, and the Arabic list to its negated twin. */
module CharClasses {

  /** U+0640 ARABIC TATWEEL, the elongation mark. */
  const TATWEEL: char := '\U{0640}'

  /** Replacement letters of the folding passes. */
  const ALIF: char := '\U{0627}'          // plain alif
  const HAMZA: char := '\U{0621}'         // stand-alone hamza
  const YA: char := '\U{064A}'            // ya
  const TA_MARBUTA: char := '\U{0629}'    // ta marbuta

  /** The letters the folding passes look for. */
  const HA: char := '\U{0647}'
  const ALIF_MAKSURA: char := '\U{0649}'

  /** The eight removable marks: fathatan, dammatan, kasratan, fatha, damma,
      kasra, shadda, sukun. */
  predicate IsDiacritic(c: char)
    ensures IsDiacritic(c) <==> '\U{064B}' <= c <= '\U{0652}'
  {
    c == '\U{064B}' || c == '\U{064C}' || c == '\U{064D}' || c == '\U{064E}'
    || c == '\U{064F}' || c == '\U{0650}' || c == '\U{0651}' || c == '\U{0652}'
  }

  /** The 37 code points the source calls Arabic characters (tatweel included). */
  predicate IsArabicLetter(c: char)
    ensures IsArabicLetter(c) <==> ('\U{0621}' <= c <= '\U{063A}' || '\U{0640}' <= c <= '\U{064A}')
  {
    c == '\U{0621}' || c == '\U{0622}' || c == '\U{0623}' || c == '\U{0624}'
    || c == '\U{0625}' || c == '\U{0626}' || c == '\U{0627}' || c == '\U{0628}'
    || c == '\U{0629}' || c == '\U{062A}' || c == '\U{062B}' || c == '\U{062C}'
    || c == '\U{062D}' || c == '\U{062E}' || c == '\U{062F}' || c == '\U{0630}'
    || c == '\U{0631}' || c == '\U{0632}' || c == '\U{0633}' || c == '\U{0634}'
    || c == '\U{0635}' || c == '\U{0636}' || c == '\U{0637}' || c == '\U{0638}'
    || c == '\U{0639}' || c == '\U{063A}' || c == '\U{0640}' || c == '\U{0641}'
    || c == '\U{0642}' || c == '\U{0643}' || c == '\U{0644}' || c == '\U{0645}'
    || c == '\U{0646}' || c == '\U{0647}' || c == '\U{0648}' || c == '\U{0649}'
    || c == '\U{064A}'
  }

  /** The negated twin of the Arabic list: every code point outside the same
      37, written out a second time as the source writes it. It holds exactly
      when the Arabic predicate does not. */
  predicate IsNonArabicLetter(c: char)
    ensures IsNonArabicLetter(c) <==> !IsArabicLetter(c)
  {
    !(c == '\U{0621}' || c == '\U{0622}' || c == '\U{0623}' || c == '\U{0624}'
      || c == '\U{0625}' || c == '\U{0626}' || c == '\U{0627}' || c == '\U{0628}'
      || c == '\U{0629}' || c == '\U{062A}' || c == '\U{062B}' || c == '\U{062C}'
      || c == '\U{062D}' || c == '\U{062E}' || c == '\U{062F}' || c == '\U{0630}'
      || c == '\U{0631}' || c == '\U{0632}' || c == '\U{0633}' || c == '\U{0634}'
      || c == '\U{0635}' || c == '\U{0636}' || c == '\U{0637}' || c == '\U{0638}'
      || c == '\U{0639}' || c == '\U{063A}' || c == '\U{0640}' || c == '\U{0641}'
      || c == '\U{0642}' || c == '\U{0643}' || c == '\U{0644}' || c == '\U{0645}'
      || c == '\U{0646}' || c == '\U{0647}' || c == '\U{0648}' || c == '\U{0649}'
      || c == '\U{064A}')
  }

  /** Alif with hamza below, alif with hamza above, alif wasla, alif with
      madda. Of the four alif forms only the wasla U+0671 lies outside the Arabic
      class, so masking non-Arabic characters blanks a wasla before any
      folding can see it. */
  predicate IsAlifVariant(c: char)
    ensures IsAlifVariant(c) ==> (IsArabicLetter(c) <==> c != '\U{0671}')
  {
    c == '\U{0625}' || c == '\U{0623}' || c == '\U{0671}' || c == '\U{0622}'
  }

  /** Waw with hamza above, ya with hamza above. */
  predicate IsHamzaVariant(c: char)
    ensures IsHamzaVariant(c) ==> IsArabicLetter(c)
  {
    c == '\U{0624}' || c == '\U{0626}'
  }

  /** One value per character-set constant of the source module. */
  datatype CharClass =
    | Tatweel          // the tatweel code point alone
    | Diacritics       // the diacritic regex
    | ArabicChars      // the Arabic-characters regex
    | NonArabicChars   // its negated twin
    | Alifs            // the alif-forms regex
    | Hamzas           // the hamza-seat regex
    | AlifMaksura      // the alif-maksura regex
    | HaMarbuta        // the ha regex (named after the letter it is folded into)
  {
    predicate Has(c: char)
    {
      match this
      case Tatweel => c == TATWEEL
      case Diacritics => IsDiacritic(c)
      case ArabicChars => IsArabicLetter(c)
      case NonArabicChars => IsNonArabicLetter(c)
      case Alifs => IsAlifVariant(c)
      case Hamzas => IsHamzaVariant(c)
      case AlifMaksura => c == ALIF_MAKSURA
      case HaMarbuta => c == HA
    }

    /** The four classes the letter-folding passes rewrite. */
    predicate IsLetterVariant()
    {
      Alifs? || Hamzas? || AlifMaksura? || HaMarbuta?
    }
  }

  /** No two distinct folding classes share a character. */
  lemma LetterClassesDisjoint(a: CharClass, b: CharClass, c: char)
    requires a.IsLetterVariant() && b.IsLetterVariant() && a != b
    ensures !(a.Has(c) && b.Has(c))
  {
  }

  /** No replacement letter belongs to any folding class, so no pass can
      produce input for another pass (or for itself). */
  lemma TargetsOutsideLetterClasses(k: CharClass)
    requires k.IsLetterVariant()
    ensures !k.Has(ALIF) && !k.Has(HAMZA) && !k.Has(YA) && !k.Has(TA_MARBUTA)
  {
  }

  /** No diacritic is tatweel, a folded letter or a replacement letter, so the
      removal passes and the folding passes never act on the same character. */
  lemma DiacriticsApartFromLetters(k: CharClass, c: char)
    requires k.IsLetterVariant() || k.Tatweel?
    ensures Diacritics.Has(c) ==> !k.Has(c)
    ensures !Diacritics.Has(ALIF) && !Diacritics.Has(HAMZA) && !Diacritics.Has(YA) && !Diacritics.Has(TA_MARBUTA)
  {
  }
}
