# Arabic text normalizer, modelled in Dafny

The module `code/arabic_nlp_utils.py` prepares Arabic text for NLP work. It
removes the tatweel (U+0640, the elongation mark), removes the eight
diacritic marks U+064B..U+0652, and folds common spelling variants into one
letter each:

- the alif forms U+0622, U+0623, U+0625 and U+0671 become plain alif U+0627;
- the hamza seats U+0624 and U+0626 become plain hamza U+0621;
- alif maksura U+0649 becomes ya U+064A;
- ha U+0647 becomes ta marbuta U+0629.

It also defines the class of "Arabic characters" and its complement.

The model has five modules:

- `Options` holds `Option<T>`. It keeps Python's `None` apart from a string for `remove_tatweel`.
- `CharClasses` holds the character tables. Each regular expression of the source is a fixed set of code points. So each one is a membership predicate, and the datatype `CharClass` has one value per source constant. The contracts show that the diacritic table is the block U+064B..U+0652, that the Arabic table is U+0621..U+063A plus U+0640..U+064A, and that the separately written non-Arabic table is its exact complement. Lemmas show that the folding tables are pairwise disjoint and that no replacement letter falls in any of them.
- `TextOps` holds the two shapes every operation takes. `Delete` removes every character of a class. `Replace` writes one character over every member of a class. Lemmas cover order, counts, length, idempotence and commutation.
- `Normalizer` holds the source's five functions and the masking of non-Arabic characters (`re.sub(NON_ARABIC_CHARS_REGEX, ' ', s)`). It also holds lemmas about how the operations combine:
  - the removals are idempotent and can run in either order;
  - the folding works position by position, matching an independent one-character lookup (`FoldChar`);
  - the four folding passes commute;
  - the folding is idempotent;
  - the older fixed folding is the flag-gated one with the ha pass off.
- `NormalizerExamples` states, as lemmas, what the model gives on the docstring example and on the sample strings of the module's disabled smoke blocks.

Strings are `seq<char>`, with one `char` per Unicode scalar value. Each
regular expression becomes a predicate; the regex engine is not modelled.

Facts about the code worth knowing when reading the model:

- The code has no pass that composes alif with a combining hamza mark (U+0654/U+0655). `CombiningHamzaKept` shows that such a pair comes through the composite removal untouched: U+0654 is not a diacritic here.
- The wasla alif U+0671 is not folded by a pass of its own. It is one member of the alif-forms table.
- The ha pass folds every ha U+0647 into ta marbuta U+0629, not only a word-final one (`HaFoldedExample` folds the ha that opens a word). The older `normalize_arabic_letters` has no ha pass at all.
- The code has no single pipeline entry point. `normalize_arabic_text_1` does the removals and `normalize_arabic_text_2` does the folding.

## Model

| member | source | states |
|---|---|---|
| CharClasses.IsDiacritic | code/arabic_nlp_utils.py:14 | the eight listed marks are exactly the block U+064B..U+0652, so U+0654, U+0655 and U+0670 are not diacritics |
| CharClasses.IsArabicLetter | code/arabic_nlp_utils.py:17 | the 37 listed Arabic characters are exactly U+0621..U+063A together with U+0640..U+064A |
| CharClasses.IsNonArabicLetter | code/arabic_nlp_utils.py:19 | the negated list of line 19 holds exactly when the Arabic list of line 17 does not, so every character is in exactly one of the two classes |
| CharClasses.IsAlifVariant | code/arabic_nlp_utils.py:21 | of the four alif forms only the wasla U+0671 lies outside the Arabic class |
| CharClasses.IsHamzaVariant | code/arabic_nlp_utils.py:22 | both hamza seats lie in the Arabic class |
| CharClasses.CharClass.Has | code/arabic_nlp_utils.py:13-24 | membership in each of the source's character-set constants, one class per constant |
| CharClasses.LetterClassesDisjoint | code/arabic_nlp_utils.py:21-24 | no character belongs to two of the four folding tables |
| CharClasses.TargetsOutsideLetterClasses | code/arabic_nlp_utils.py:64-71 | none of the replacement letters alif, hamza, ya and ta marbuta is in any folding table |
| CharClasses.DiacriticsApartFromLetters | code/arabic_nlp_utils.py:13-24 | no diacritic is the tatweel, a folded letter or a replacement letter |
| TextOps.Delete | code/arabic_nlp_utils.py:43-46 | deleting a class leaves no character of that class in the text |
| TextOps.Replace | code/arabic_nlp_utils.py:64-71 | substitution keeps the length, writes the replacement at every position holding a class member, and keeps every other position |
| TextOps.DeleteLength | code/arabic_nlp_utils.py:43-46 | deletion never lengthens the text, and it leaves the text unchanged exactly when no class member occurs |
| TextOps.DeleteAppend | code/arabic_nlp_utils.py:43-46 | deletion distributes over concatenation, so the kept characters stay in their original order |
| TextOps.DeleteCounts | code/arabic_nlp_utils.py:43-46 | after deletion every non-member occurs as often as before and every member occurs zero times |
| TextOps.DeleteMembers | code/arabic_nlp_utils.py:43-46 | a character is in the result exactly when it is in the input and outside the class |
| TextOps.DeleteIdempotent | code/arabic_nlp_utils.py:43-46 | deleting the same class twice is the same as deleting it once |
| TextOps.DeleteCommute | code/arabic_nlp_utils.py:57-60 | two deletions give the same result in either order |
| TextOps.DeleteKeepsFree | code/arabic_nlp_utils.py:57-60 | a deletion never brings back a character of another class |
| TextOps.ReplaceClears | code/arabic_nlp_utils.py:64-71 | a substitution whose replacement is outside its class leaves no class member behind |
| TextOps.ReplaceIdempotent | code/arabic_nlp_utils.py:64-71 | such a substitution applied twice is the same as once |
| TextOps.ReplaceCommute | code/arabic_nlp_utils.py:63-72 | substitutions on disjoint classes, neither producing a member of the other, give the same result in either order |
| Normalizer.RemoveTatweel | code/arabic_nlp_utils.py:40-43 | `None` gives `None` and a string gives a string; the result has no tatweel, is no longer than the input, and any other character occurs in it exactly when it occurs in the input |
| Normalizer.RemoveTatweelDeletesExactly | code/arabic_nlp_utils.py:40-43 | tatweel removal distributes over concatenation, so order is kept; it removes every tatweel and keeps the count of every other character |
| Normalizer.RemoveTatweelIdempotent | code/arabic_nlp_utils.py:40-43 | removing tatweel twice is the same as once, for absent text too |
| Normalizer.RemoveDiacritics | code/arabic_nlp_utils.py:45-46 | the result has no diacritic, is no longer than the input, and keeps every character outside U+064B..U+0652 that the input has |
| Normalizer.RemoveDiacriticsDeletesExactly | code/arabic_nlp_utils.py:45-46 | diacritic removal distributes over concatenation; it takes out exactly the characters U+064B..U+0652 and keeps the count of every other character |
| Normalizer.RemoveDiacriticsKeepsMarks | code/arabic_nlp_utils.py:14 | U+0654, U+0655, U+0670 and the tatweel keep their counts through diacritic removal |
| Normalizer.RemoveDiacriticsIdempotent | code/arabic_nlp_utils.py:45-46 | removing diacritics twice is the same as once |
| Normalizer.NormalizeText1 | code/arabic_nlp_utils.py:57-60 | the composite removal leaves neither tatweel nor diacritic |
| Normalizer.NormalizeText1EitherOrder | code/arabic_nlp_utils.py:57-60 | removing diacritics first and tatweel second gives the same result |
| Normalizer.NormalizeText1Idempotent | code/arabic_nlp_utils.py:57-60 | the composite removal applied twice is the same as once |
| Normalizer.LetterPass.Source | code/arabic_nlp_utils.py:64-71 | each of the four passes reads one of the four folding tables |
| Normalizer.LetterPass.Target | code/arabic_nlp_utils.py:64-71 | each pass's replacement letter lies in no folding table |
| Normalizer.ApplyPass | code/arabic_nlp_utils.py:64-71 | one folding pass keeps the length and leaves none of its source letters |
| Normalizer.NormalizeText2 | code/arabic_nlp_utils.py:63-72 | the flag-gated folding keeps the length, and each output character is the one-character lookup of the input character under the enabled tables |
| Normalizer.NormalizeText2Append | code/arabic_nlp_utils.py:63-72 | folding a concatenation gives the concatenation of the foldings, so each position is folded on its own |
| Normalizer.NormalizeText2AllOff | code/arabic_nlp_utils.py:63-72 | with all four flags false the folding is the identity |
| Normalizer.NormalizeText2KeepsOthers | code/arabic_nlp_utils.py:63-72 | a character other than U+0622, U+0623, U+0624, U+0625, U+0626, U+0647, U+0649 and U+0671 is never changed, whatever the flags |
| Normalizer.NormalizeText2Clears | code/arabic_nlp_utils.py:64-71 | for each enabled flag, no letter of that pass's table remains in the output |
| Normalizer.PassesCommute | code/arabic_nlp_utils.py:63-72 | any two folding passes give the same result in either order |
| Normalizer.FoldCharIdempotent | code/arabic_nlp_utils.py:21-24 | folding a character that is already folded does not change it |
| Normalizer.NormalizeText2Idempotent | code/arabic_nlp_utils.py:63-72 | the flag-gated folding applied twice with the same flags is the same as once |
| Normalizer.NormalizeArabicLetters | code/arabic_nlp_utils.py:48-54 | the older folding keeps the length, folds alif forms, hamza seats and alif maksura, and never changes ha |
| Normalizer.NormalizeArabicLettersIsText2 | code/arabic_nlp_utils.py:48-54 | the older folding equals the flag-gated one with the ha flag off, even though its passes run in another order |
| Normalizer.MaskNonArabic | code/arabic_nlp_utils.py:83 | masking keeps the length, every Arabic character stays in place and every other character becomes a space |
| Normalizer.MaskNonArabicIdempotent | code/arabic_nlp_utils.py:83 | masking twice is the same as masking once |
| NormalizerExamples.TatweelDocstringExample | code/arabic_nlp_utils.py:34-36 | the docstring's elongated word comes out as the plain word |
| NormalizerExamples.TatweelAbsentExample | code/arabic_nlp_utils.py:40-41 | absent text stays absent |
| NormalizerExamples.BismExample | code/arabic_nlp_utils.py:101-103 | the basmala's first word loses its kasras and sukun |
| NormalizerExamples.RahmanExample | code/arabic_nlp_utils.py:101-103 | a basmala word loses fatha, shadda, sukun and kasra but keeps the superscript alif U+0670 |
| NormalizerExamples.CombiningHamzaKept | code/arabic_nlp_utils.py:57-60 | alif followed by the combining hamza U+0654 comes through the composite removal unchanged |
| NormalizerExamples.AlifFormsExample | code/arabic_nlp_utils.py:63-65 | each of the four alif forms folds to plain alif |
| NormalizerExamples.AlifFormsLettersExample | code/arabic_nlp_utils.py:48-50 | the older folding also turns each alif form into plain alif |
| NormalizerExamples.HamzaSeatsExample | code/arabic_nlp_utils.py:78 | the sample's waw-hamza and ya-hamza fold to plain hamza |
| NormalizerExamples.AlifMaksuraExample | code/arabic_nlp_utils.py:78 | the sample's final alif maksura folds to ya |
| NormalizerExamples.HaFoldedExample | code/arabic_nlp_utils.py:70-71 | a ha at the start of a word is folded to ta marbuta, so the fold is not limited to word-final ha |
| NormalizerExamples.HaKeptExample | code/arabic_nlp_utils.py:63-72 | with the ha flag off the ha is kept |
| NormalizerExamples.HaLettersExample | code/arabic_nlp_utils.py:53 | the older folding leaves ha alone |
| NormalizerExamples.MixedScriptExample | code/arabic_nlp_utils.py:63-72 | Latin letters, a space and a digit pass through unchanged while the Arabic letter beside them is folded |
| NormalizerExamples.MaskExample | code/arabic_nlp_utils.py:19 | a letter outside the class (U+069E), spaces and a digit are blanked, and the Arabic letter stays |

## Left out

- The regular-expression engine. Each pattern in the source is a bracketed set of single code points. The model uses membership in that set and does not compile or match patterns.
- The `if False:` smoke blocks. They are dead code that only prints. Their sample strings appear only as concrete example lemmas, and the `re.findall` counting is not modelled.
- `SHADDA_UNICODE` is never used. The commented-out ha substitution never runs.
- `None` for every function except `remove_tatweel`. `remove_diacritics(None)` raises inside `re.sub`, and so does `normalize_arabic_text_1(None)`. These functions therefore take a plain string.
- Non-string inputs, and flag values that are not booleans. Python would accept any truthy value as a flag; the model takes `bool`.
- Lone surrogates. A Python `str` may hold U+D800..U+DFFF, but a Dafny `char` is a Unicode scalar value, so the model cannot express them. In the source, the removals and the foldings would pass them through unchanged. The masking at line 83 would turn each one into a space, because the non-Arabic class matches them.
- TextOps.Delete: the function's own contract says only that no member of the class remains. Length, counts and order are stated in `DeleteLength`, `DeleteCounts` and `DeleteAppend`. A lighter contract keeps the concrete example lemmas cheap to verify.
