/** The operations of the normalizer module: tatweel removal, diacritic
    removal, the composite removal, the flag-gated letter folding, the older
    fixed folding, and the masking of non-Arabic characters. */
module Normalizer {
  import opened Options
  import opened CharClasses
  import opened TextOps

  // ---------------------------------------------------------------------------
  // Removals
  // ---------------------------------------------------------------------------

  /** Deletes every tatweel; absent text stays absent. */
  function RemoveTatweel(text: Option<string>): (r: Option<string>)
    ensures text.None? <==> r.None?
    ensures text.Some? ==> |r.value| <= |text.value| && Free(r.value, Tatweel)
    ensures text.Some? ==> forall c :: c != TATWEEL ==> (c in r.value <==> c in text.value)
  {
    match text
    case None => None
    case Some(s) =>
      DeleteLength(s, Tatweel);
      forall c | c != TATWEEL
        ensures c in Delete(s, Tatweel) <==> c in s
      {
        DeleteMembers(s, Tatweel, c);
      }
      Some(Delete(s, Tatweel))
  }

  /** Deletes exactly the eight marks U+064B..U+0652. */
  function RemoveDiacritics(s: string): (r: string)
    ensures |r| <= |s| && Free(r, Diacritics)
    ensures forall c :: !('\U{064B}' <= c <= '\U{0652}') ==> (c in r <==> c in s)
  {
    DeleteLength(s, Diacritics);
    forall c | !('\U{064B}' <= c <= '\U{0652}')
      ensures c in Delete(s, Diacritics) <==> c in s
    {
      DeleteMembers(s, Diacritics, c);
    }
    Delete(s, Diacritics)
  }

  /** Tatweel removal followed by diacritic removal. */
  function NormalizeText1(s: string): (r: string)
    ensures Free(r, Tatweel) && Free(r, Diacritics)
  {
    var t := RemoveTatweel(Some(s)).value;
    DeleteKeepsFree(t, Diacritics, Tatweel);
    RemoveDiacritics(t)
  }

  /** For any text, tatweel removal yields text with the same characters in
      the same order, the tatweels alone taken out: every other character
      keeps its count, and the removal distributes over concatenation. */
  lemma RemoveTatweelDeletesExactly(a: string, b: string, c: char)
    ensures RemoveTatweel(Some(a + b)) == Some(RemoveTatweel(Some(a)).value + RemoveTatweel(Some(b)).value)
    ensures multiset(RemoveTatweel(Some(a)).value)[c] == if c == TATWEEL then 0 else multiset(a)[c]
  {
    DeleteAppend(a, b, Tatweel);
    DeleteCounts(a, Tatweel, c);
  }

  /** Removing tatweel twice is removing it once (absent text included). */
  lemma RemoveTatweelIdempotent(text: Option<string>)
    ensures RemoveTatweel(RemoveTatweel(text)) == RemoveTatweel(text)
  {
    if text.Some? {
      DeleteIdempotent(text.value, Tatweel);
    }
  }

  /** Diacritic removal takes out exactly the marks U+064B..U+0652 and keeps
      every other character, in order, with its number of occurrences. */
  lemma RemoveDiacriticsDeletesExactly(a: string, b: string, c: char)
    ensures RemoveDiacritics(a + b) == RemoveDiacritics(a) + RemoveDiacritics(b)
    ensures multiset(RemoveDiacritics(a))[c] == if '\U{064B}' <= c <= '\U{0652}' then 0 else multiset(a)[c]
  {
    DeleteAppend(a, b, Diacritics);
    DeleteCounts(a, Diacritics, c);
  }

  /** Diacritic removal keeps the hamza marks U+0654 and U+0655, the
      superscript alif U+0670 and the tatweel. */
  lemma RemoveDiacriticsKeepsMarks(s: string, c: char)
    requires c in {'\U{0654}', '\U{0655}', '\U{0670}', TATWEEL}
    ensures multiset(RemoveDiacritics(s))[c] == multiset(s)[c]
  {
    DeleteCounts(s, Diacritics, c);
  }

  /** Removing diacritics twice is removing them once. */
  lemma RemoveDiacriticsIdempotent(s: string)
    ensures RemoveDiacritics(RemoveDiacritics(s)) == RemoveDiacritics(s)
  {
    DeleteIdempotent(s, Diacritics);
  }

  /** The two removals may run in either order. */
  lemma NormalizeText1EitherOrder(s: string)
    ensures NormalizeText1(s) == RemoveTatweel(Some(RemoveDiacritics(s))).value
  {
    DeleteCommute(s, Tatweel, Diacritics);
  }

  /** The composite removal is idempotent. */
  lemma NormalizeText1Idempotent(s: string)
    ensures NormalizeText1(NormalizeText1(s)) == NormalizeText1(s)
  {
    var r := NormalizeText1(s);
    DeleteLength(r, Tatweel);
    DeleteLength(r, Diacritics);
  }

  // ---------------------------------------------------------------------------
  // Letter folding
  // ---------------------------------------------------------------------------

  /** The four folding passes, each rewriting one class to one letter. */
  datatype LetterPass = AlifPass | HamzaPass | YahPass | TahPass
  {
    function Source(): (k: CharClass)
      ensures k.IsLetterVariant()
    {
      match this
      case AlifPass => Alifs
      case HamzaPass => Hamzas
      case YahPass => AlifMaksura
      case TahPass => HaMarbuta
    }

    /** The replacement letter, which lies in no folding table. */
    function Target(): (t: char)
      ensures forall q: LetterPass :: !q.Source().Has(t)
    {
      match this
      case AlifPass => ALIF
      case HamzaPass => HAMZA
      case YahPass => YA
      case TahPass => TA_MARBUTA
    }
  }

  /** One folding pass over the whole text. */
  function ApplyPass(s: string, p: LetterPass): (r: string)
    ensures |r| == |s| && Free(r, p.Source())
  {
    TargetsOutsideLetterClasses(p.Source());
    ReplaceClears(s, p.Source(), p.Target());
    Replace(s, p.Source(), p.Target())
  }

  /** Reference definition of the folding of a single character: a lookup in
      the four tables, each entry switched on by its flag. */
  function FoldChar(c: char, normAlif: bool, normHamza: bool, normYah: bool, normTah: bool): char
  {
    if normAlif && IsAlifVariant(c) then ALIF
    else if normHamza && IsHamzaVariant(c) then HAMZA
    else if normYah && c == ALIF_MAKSURA then YA
    else if normTah && c == HA then TA_MARBUTA
    else c
  }

  /** The flag-gated letter folding: the enabled passes in the order alif,
      hamza, alif maksura, ha; every flag defaults to true. */
  function NormalizeText2(text: string, normAlif: bool := true, normHamza: bool := true,
                          normYah: bool := true, normTah: bool := true): (r: string)
    ensures |r| == |text|
    ensures forall i :: 0 <= i < |text| ==> r[i] == FoldChar(text[i], normAlif, normHamza, normYah, normTah)
  {
    var t1 := if normAlif then ApplyPass(text, AlifPass) else text;
    var t2 := if normHamza then ApplyPass(t1, HamzaPass) else t1;
    var t3 := if normYah then ApplyPass(t2, YahPass) else t2;
    if normTah then ApplyPass(t3, TahPass) else t3
  }

  /** The older fixed folding: alif forms, then alif maksura, then hamza
      seats; ha is never touched. */
  function NormalizeArabicLetters(s: string): (r: string)
    ensures |r| == |s|
    ensures forall i :: 0 <= i < |s| ==> r[i] == FoldChar(s[i], true, true, true, false)
    ensures forall i :: 0 <= i < |s| && s[i] == HA ==> r[i] == HA
  {
    ApplyPass(ApplyPass(ApplyPass(s, AlifPass), YahPass), HamzaPass)
  }

  /** Replaces every character outside the Arabic class by a space. */
  function MaskNonArabic(s: string): (r: string)
    ensures |r| == |s|
    ensures forall i :: 0 <= i < |s| ==> r[i] == ' ' || ArabicChars.Has(r[i])
    ensures forall i :: 0 <= i < |s| && ArabicChars.Has(s[i]) ==> r[i] == s[i]
    ensures forall i :: 0 <= i < |s| && !ArabicChars.Has(s[i]) ==> r[i] == ' '
  {
    Replace(s, NonArabicChars, ' ')
  }

  /** Any two folding passes commute. */
  lemma PassesCommute(s: string, p: LetterPass, q: LetterPass)
    ensures ApplyPass(ApplyPass(s, p), q) == ApplyPass(ApplyPass(s, q), p)
  {
    if p != q {
      forall c | true
        ensures !(p.Source().Has(c) && q.Source().Has(c))
      {
        LetterClassesDisjoint(p.Source(), q.Source(), c);
      }
      TargetsOutsideLetterClasses(p.Source());
      TargetsOutsideLetterClasses(q.Source());
      ReplaceCommute(s, p.Source(), p.Target(), q.Source(), q.Target());
    }
  }

  /** The folding works position by position: folding a concatenation is
      concatenating the foldings of the parts. */
  lemma NormalizeText2Append(a: string, b: string, normAlif: bool, normHamza: bool, normYah: bool, normTah: bool)
    ensures NormalizeText2(a + b, normAlif, normHamza, normYah, normTah)
         == NormalizeText2(a, normAlif, normHamza, normYah, normTah) + NormalizeText2(b, normAlif, normHamza, normYah, normTah)
  {
    var whole := NormalizeText2(a + b, normAlif, normHamza, normYah, normTah);
    var parts := NormalizeText2(a, normAlif, normHamza, normYah, normTah) + NormalizeText2(b, normAlif, normHamza, normYah, normTah);
    forall i | 0 <= i < |a + b|
      ensures whole[i] == parts[i]
    {
      if i < |a| {
        assert (a + b)[i] == a[i];
      } else {
        assert (a + b)[i] == b[i - |a|];
      }
    }
  }

  /** With every flag off the folding is the identity. */
  lemma NormalizeText2AllOff(s: string)
    ensures NormalizeText2(s, false, false, false, false) == s
  {
  }

  /** Characters outside the seven folded letters are never changed. */
  lemma NormalizeText2KeepsOthers(s: string, normAlif: bool, normHamza: bool, normYah: bool, normTah: bool, i: int)
    requires 0 <= i < |s|
    requires !IsAlifVariant(s[i]) && !IsHamzaVariant(s[i]) && s[i] != ALIF_MAKSURA && s[i] != HA
    ensures NormalizeText2(s, normAlif, normHamza, normYah, normTah)[i] == s[i]
  {
  }

  /** An enabled pass leaves none of its source letters in the output. */
  lemma NormalizeText2Clears(s: string, normAlif: bool, normHamza: bool, normYah: bool, normTah: bool)
    ensures var r := NormalizeText2(s, normAlif, normHamza, normYah, normTah);
      && (normAlif ==> Free(r, Alifs))
      && (normHamza ==> Free(r, Hamzas))
      && (normYah ==> Free(r, AlifMaksura))
      && (normTah ==> Free(r, HaMarbuta))
  {
  }

  /** Folding a folded character changes nothing: no replacement letter is
      itself folded. */
  lemma FoldCharIdempotent(c: char, normAlif: bool, normHamza: bool, normYah: bool, normTah: bool)
    ensures var d := FoldChar(c, normAlif, normHamza, normYah, normTah);
      FoldChar(d, normAlif, normHamza, normYah, normTah) == d
  {
  }

  /** The flag-gated folding is idempotent. */
  lemma NormalizeText2Idempotent(s: string, normAlif: bool, normHamza: bool, normYah: bool, normTah: bool)
    ensures var r := NormalizeText2(s, normAlif, normHamza, normYah, normTah);
      NormalizeText2(r, normAlif, normHamza, normYah, normTah) == r
  {
    var r := NormalizeText2(s, normAlif, normHamza, normYah, normTah);
    var rr := NormalizeText2(r, normAlif, normHamza, normYah, normTah);
    forall i | 0 <= i < |r|
      ensures rr[i] == r[i]
    {
      FoldCharIdempotent(s[i], normAlif, normHamza, normYah, normTah);
    }
    assert rr == r;
  }

  /** The older fixed folding is the flag-gated one with the ha pass off,
      although it runs its passes in another order. */
  lemma NormalizeArabicLettersIsText2(s: string)
    ensures NormalizeArabicLetters(s) == NormalizeText2(s, true, true, true, false)
  {
  }

  /** Masking is idempotent: the space it writes is itself non-Arabic. */
  lemma MaskNonArabicIdempotent(s: string)
    ensures MaskNonArabic(MaskNonArabic(s)) == MaskNonArabic(s)
  {
  }
}
