/**
 The fixed constants of the derivation: the domain-separation prefix, the
 template types and the character groups (mpw/algorithm.py:155-197). They are
 never changed at run time.
 */
module Tables {

  /**
   The domain-separation prefix "com.lyndir.masterpassword". It is written as a
   concatenation so that the verifier treats it as a value rather than a literal
   and does not unfold its UTF-8 encoding character by character in every proof.
   */
  const PACKAGE_NAME: string := "com.lyndir." + "masterpassword"

  const TEMPLATE_TYPES: map<string, seq<string>> := map[
    "maximum" := ["anoxxxxxxxxxxxxxxxxx", "axxxxxxxxxxxxxxxxxno"],
    "long" := [
      "CvcvnoCvcvCvcv", "CvcvCvcvnoCvcv", "CvcvCvcvCvcvno", "CvccnoCvcvCvcv",
      "CvccCvcvnoCvcv", "CvccCvcvCvcvno", "CvcvnoCvccCvcv", "CvcvCvccnoCvcv",
      "CvcvCvccCvcvno", "CvcvnoCvcvCvcc", "CvcvCvcvnoCvcc", "CvcvCvcvCvccno",
      "CvccnoCvccCvcv", "CvccCvccnoCvcv", "CvccCvccCvcvno", "CvcvnoCvccCvcc",
      "CvcvCvccnoCvcc", "CvcvCvccCvccno", "CvccnoCvcvCvcc", "CvccCvcvnoCvcc",
      "CvccCvcvCvccno"],
    "medium" := ["CvcnoCvc", "CvcCvcno"],
    "short" := ["Cvcn"],
    "basic" := ["aaanaaan", "aannaaan", "aaannaaa"],
    "pin" := ["nnnn"],
    "name" := ["cvccvcvcv"],
    "phrase" := ["cvcc cvc cvccvcv cvc", "cvc cvccvcvcv cvcv", "cv cvccv cvc cvcvccv"]
  ]

  // The alphabets, written as the concatenations they are so that facts about
  // the long ones follow from facts about their parts.
  const UPPER_VOWELS: string := "AEIOU"
  const LOWER_VOWELS: string := "aeiou"
  const UPPER_CONSONANTS: string := "BCDFGHJKLMNPQRSTVWXYZ"
  const LOWER_CONSONANTS: string := "bcdfghjklmnpqrstvwxyz"
  const DIGITS: string := "0123456789"
  const OTHER: string := "@&%?,=[]_:-+*$#!'^~;()/."
  const X_SYMBOLS: string := "!@#$%^&*()"
  const ALPHANUMERIC: string := UPPER_VOWELS + LOWER_VOWELS + UPPER_CONSONANTS + LOWER_CONSONANTS

  const CHARACTER_GROUPS: map<char, string> := map[
    'V' := UPPER_VOWELS,
    'C' := UPPER_CONSONANTS,
    'v' := LOWER_VOWELS,
    'c' := LOWER_CONSONANTS,
    'A' := UPPER_VOWELS + UPPER_CONSONANTS,
    'a' := ALPHANUMERIC,
    'n' := DIGITS,
    'o' := OTHER,
    'x' := ALPHANUMERIC + DIGITS + X_SYMBOLS
  ]

  /** The longest template in the table; a seed needs one more byte than this. */
  const MAX_TEMPLATE_LENGTH: nat := 20

  /** Every position is a space or a character-group tag. */
  predicate WellFormedTemplate(t: string) {
    forall i :: 0 <= i < |t| ==> t[i] == ' ' || t[i] in CHARACTER_GROUPS
  }

  predicate GoodAlphabet(alphabet: string) {
    |alphabet| > 0 && ' ' !in alphabet
  }

  predicate GoodTemplateList(templates: seq<string>) {
    && |templates| > 0
    && forall k :: 0 <= k < |templates| ==>
         WellFormedTemplate(templates[k]) && |templates[k]| <= MAX_TEMPLATE_LENGTH
  }

  lemma PartsWithoutSpace()
    ensures ' ' !in UPPER_VOWELS && ' ' !in LOWER_VOWELS
    ensures ' ' !in UPPER_CONSONANTS && ' ' !in LOWER_CONSONANTS
    ensures ' ' !in DIGITS && ' ' !in OTHER && ' ' !in X_SYMBOLS
  {
  }

  /** Every alphabet is non-empty and holds no space. */
  lemma AlphabetsWellFormed()
    ensures forall tag :: tag in CHARACTER_GROUPS ==> GoodAlphabet(CHARACTER_GROUPS[tag])
  {
    PartsWithoutSpace();
    assert ' ' !in ALPHANUMERIC;
    forall tag | tag in CHARACTER_GROUPS ensures GoodAlphabet(CHARACTER_GROUPS[tag]) {
      if tag == 'A' {
        assert CHARACTER_GROUPS[tag] == UPPER_VOWELS + UPPER_CONSONANTS;
      } else if tag == 'x' {
        assert CHARACTER_GROUPS[tag] == ALPHANUMERIC + DIGITS + X_SYMBOLS;
      }
    }
  }

  /** No character occurs twice. */
  predicate Distinct(s: string) {
    forall i, j :: 0 <= i < j < |s| ==> s[i] != s[j]
  }

  predicate IsUpper(c: char) { 'A' <= c <= 'Z' }
  predicate IsLower(c: char) { 'a' <= c <= 'z' }
  predicate IsDigit(c: char) { '0' <= c <= '9' }
  predicate IsVowel(c: char) { c in "AEIOUaeiou" }

  /** A string whose characters strictly increase has no repeated character. */
  lemma {:induction false} IncreasingDistinct(s: string)
    requires forall i :: 0 <= i < |s| - 1 ==> s[i] < s[i + 1]
    ensures Distinct(s)
    ensures forall i :: 0 < i < |s| ==> s[0] < s[i]
  {
    if |s| > 1 {
      IncreasingDistinct(s[1..]);
      assert forall i :: 0 < i < |s| ==> s[i] == s[1..][i - 1];
    }
  }

  /** Two strings without repeats and without a common character concatenate to one without repeats. */
  lemma DistinctConcat(a: string, b: string)
    requires Distinct(a) && Distinct(b)
    requires forall i, j :: 0 <= i < |a| && 0 <= j < |b| ==> a[i] != b[j]
    ensures Distinct(a + b)
  {
    forall i, j | 0 <= i < j < |a + b| ensures (a + b)[i] != (a + b)[j] {
      if j < |a| {
      } else if i >= |a| {
        assert (a + b)[i] == b[i - |a|] && (a + b)[j] == b[j - |a|];
      } else {
        assert (a + b)[i] == a[i] && (a + b)[j] == b[j - |a|];
      }
    }
  }

  lemma PartsDistinct()
    ensures Distinct(UPPER_VOWELS) && Distinct(LOWER_VOWELS)
    ensures Distinct(UPPER_CONSONANTS) && Distinct(LOWER_CONSONANTS)
    ensures Distinct(DIGITS) && Distinct(OTHER) && Distinct(X_SYMBOLS)
  {
    IncreasingDistinct(UPPER_VOWELS);
    IncreasingDistinct(LOWER_VOWELS);
    IncreasingDistinct(UPPER_CONSONANTS);
    IncreasingDistinct(LOWER_CONSONANTS);
    IncreasingDistinct(DIGITS);
  }

  lemma PartClasses()
    ensures forall i :: 0 <= i < |UPPER_VOWELS| ==> IsUpper(UPPER_VOWELS[i]) && IsVowel(UPPER_VOWELS[i])
    ensures forall i :: 0 <= i < |LOWER_VOWELS| ==> IsLower(LOWER_VOWELS[i]) && IsVowel(LOWER_VOWELS[i])
    ensures forall i :: 0 <= i < |UPPER_CONSONANTS| ==>
      IsUpper(UPPER_CONSONANTS[i]) && !IsVowel(UPPER_CONSONANTS[i])
    ensures forall i :: 0 <= i < |LOWER_CONSONANTS| ==>
      IsLower(LOWER_CONSONANTS[i]) && !IsVowel(LOWER_CONSONANTS[i])
    ensures forall i :: 0 <= i < |DIGITS| ==> IsDigit(DIGITS[i])
    ensures forall i :: 0 <= i < |X_SYMBOLS| ==>
      !IsUpper(X_SYMBOLS[i]) && !IsLower(X_SYMBOLS[i]) && !IsDigit(X_SYMBOLS[i])
  {
  }

  /** Every alphabet is a string of unique characters. */
  lemma AlphabetsDistinct()
    ensures forall tag :: tag in CHARACTER_GROUPS ==> Distinct(CHARACTER_GROUPS[tag])
  {
    PartsDistinct();
    PartClasses();
    DistinctConcat(UPPER_VOWELS, UPPER_CONSONANTS);
    DistinctConcat(UPPER_VOWELS, LOWER_VOWELS);
    var vowels := UPPER_VOWELS + LOWER_VOWELS;
    assert forall i :: 0 <= i < |vowels| ==> IsVowel(vowels[i]);
    DistinctConcat(vowels, UPPER_CONSONANTS);
    var upperOrVowel := vowels + UPPER_CONSONANTS;
    assert forall i :: 0 <= i < |upperOrVowel| ==> IsUpper(upperOrVowel[i]) || IsVowel(upperOrVowel[i]);
    DistinctConcat(upperOrVowel, LOWER_CONSONANTS);
    assert ALPHANUMERIC == upperOrVowel + LOWER_CONSONANTS;
    assert forall i :: 0 <= i < |ALPHANUMERIC| ==> IsUpper(ALPHANUMERIC[i]) || IsLower(ALPHANUMERIC[i]);
    DistinctConcat(ALPHANUMERIC, DIGITS);
    var alnumDigits := ALPHANUMERIC + DIGITS;
    assert forall i :: 0 <= i < |alnumDigits| ==>
      IsUpper(alnumDigits[i]) || IsLower(alnumDigits[i]) || IsDigit(alnumDigits[i]);
    DistinctConcat(alnumDigits, X_SYMBOLS);
  }

  /** The 21 "long" templates are at most 20 characters of tags, without spaces. */
  lemma LongTemplatesWellFormed()
    ensures |TEMPLATE_TYPES["long"]| == 21
    ensures GoodTemplateList(TEMPLATE_TYPES["long"])
    ensures forall k, i :: 0 <= k < 21 && 0 <= i < |TEMPLATE_TYPES["long"][k]| ==>
      TEMPLATE_TYPES["long"][k][i] != ' '
  {
    var ts := TEMPLATE_TYPES["long"];
    forall k | 0 <= k < |ts|
      ensures WellFormedTemplate(ts[k]) && |ts[k]| <= MAX_TEMPLATE_LENGTH
      ensures forall i :: 0 <= i < |ts[k]| ==> ts[k][i] != ' '
    {
      var t := ts[k];
      assert forall i :: 0 <= i < |t| ==> t[i] in "Cvcno";
    }
  }

  /**
   Every template type has at least one template, every template is at most
   MAX_TEMPLATE_LENGTH long and uses only spaces and character-group tags.
   */
  lemma TemplateTypesWellFormed()
    ensures forall tt :: tt in TEMPLATE_TYPES ==> GoodTemplateList(TEMPLATE_TYPES[tt])
  {
    LongTemplatesWellFormed();
    forall tt | tt in TEMPLATE_TYPES ensures GoodTemplateList(TEMPLATE_TYPES[tt]) {
      var ts := TEMPLATE_TYPES[tt];
      if tt != "long" {
        forall k | 0 <= k < |ts| ensures WellFormedTemplate(ts[k]) && |ts[k]| <= MAX_TEMPLATE_LENGTH {
          var t := ts[k];
          assert forall i :: 0 <= i < |t| ==> t[i] in " Cvcnoax";
        }
      }
    }
  }
}
