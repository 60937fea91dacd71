/**
 The third stage, `site_password` (mpw/algorithm.py:99-134): seed byte 0 picks a
 template of the requested type, and every template position i is copied (a
 space) or filled from its character group with seed byte i + 1. V0 first
 widens every seed byte in place; V1 overrides the method to read the bytes as
 they are, and V2 and V3 inherit V1's.
 */
module Render {
  import opened Errors
  import opened Encoding
  import opened Tables
  import opened Versions

  // ---------------------------------------------------------------------------
  // Specification
  // ---------------------------------------------------------------------------

  /** 2^n. */
  function Pow2(n: nat): (p: nat)
    ensures p > 0
  {
    if n == 0 then 1 else 2 * Pow2(n - 1)
  }

  /** Python's `v << n` on a non-negative integer: multiplication by 2^n. */
  function ShiftLeft(v: nat, n: nat): nat {
    v * Pow2(n)
  }

  /** Python's `a | b` on non-negative integers, one bit at a time from the lowest. */
  function BitOr(a: nat, b: nat): nat
    decreases a + b
  {
    if a == 0 then b
    else if b == 0 then a
    else 2 * BitOr(a / 2, b / 2) + (if a % 2 == 1 || b % 2 == 1 then 1 else 0)
  }

  /** Or-ing a number below 2^k into a multiple of 2^k adds it: no bit is set in both. */
  lemma {:induction false} BitOrDisjoint(a: nat, b: nat, k: nat)
    requires a < Pow2(k)
    ensures BitOr(a, b * Pow2(k)) == a + b * Pow2(k)
  {
    if a != 0 && b != 0 {
      assert k > 0;
      var h := b * Pow2(k - 1);
      assert b * Pow2(k) == 2 * h;
      assert (2 * h) / 2 == h && (2 * h) % 2 == 0;
      BitOrDisjoint(a / 2, b, k - 1);
    }
  }

  /**
   V0's widening of one seed byte, `(0x00ff if v > 127 else 0x0000) | (v << 8)`:
   the byte moves to the high half and the low half is all ones when its top
   bit is set.
   */
  function Widen(v: byte): (w: nat)
    ensures w == v * 0x100 + (if v > 127 then 0xff else 0)
    ensures w < 0x1_0000 && w / 0x100 == v
  {
    var low := if v > 127 then 0x00ff else 0x0000;
    assert Pow2(8) == 0x100;
    BitOrDisjoint(low, v, 8);
    BitOr(low, ShiftLeft(v, 8))
  }

  function WidenAll(s: seq<byte>): (r: seq<nat>)
    ensures |r| == |s| && forall k :: 0 <= k < |s| ==> r[k] == Widen(s[k])
  {
    seq(|s|, k requires 0 <= k < |s| => Widen(s[k]))
  }

  /** The numbers `site_password` reads from the seed under version v. */
  function SeedValues(v: Version, seed: seq<byte>): seq<nat> {
    match SeedRuleOf(v)
    case Widened => WidenAll(seed)
    case Raw => seed
  }

  /** `templates[s0 % len(templates)]`. */
  function ChooseTemplate(templates: seq<string>, s0: nat): (t: string)
    requires |templates| > 0
    ensures t in templates
  {
    templates[s0 % |templates|]
  }

  /**
   The first n characters of the password for `template`, built position by
   position as the loop of `site_password` appends them; the first position
   that fails decides the error.
   */
  function RenderPrefix(template: string, s: seq<nat>, n: nat): Result<string>
    requires n <= |template|
  {
    if n == 0 then Ok([])
    else
      match RenderPrefix(template, s, n - 1)
      case Err(e) => Err(e)
      case Ok(password) =>
        var tchar := template[n - 1];
        if tchar == ' ' then Ok(password + [' '])
        else if tchar !in CHARACTER_GROUPS then Err(KeyError)
        else if n >= |s| then Err(IndexError)
        else
          AlphabetsWellFormed();
          var pchars := CHARACTER_GROUPS[tchar];
          Ok(password + [pchars[s[n] % |pchars|]])
  }

  /** Position i can be filled: it is a space, or a known tag whose seed byte i + 1 exists. */
  predicate Fillable(template: string, s: seq<nat>, i: nat)
    requires i < |template|
  {
    template[i] == ' ' || (template[i] in CHARACTER_GROUPS && i + 1 < |s|)
  }

  /** The character that belongs at position i, stated on its own. */
  function CharAt(template: string, s: seq<nat>, i: nat): char
    requires i < |template| && Fillable(template, s, i)
  {
    if template[i] == ' ' then ' '
    else
      AlphabetsWellFormed();
      var pchars := CHARACTER_GROUPS[template[i]];
      pchars[s[i + 1] % |pchars|]
  }

  /** The template `site_password` uses for this seed and template type. */
  function ChosenTemplate(v: Version, seed: seq<byte>, templateType: string): string
    requires templateType in TEMPLATE_TYPES && |seed| > 0
  {
    TemplateTypesWellFormed();
    ChooseTemplate(TEMPLATE_TYPES[templateType], SeedValues(v, seed)[0])
  }

  /**
   `site_password(seed, template_type)` of version v: KeyError for an unknown
   template type, IndexError for an empty seed, then the rendered template.
   */
  function Password(v: Version, seed: seq<byte>, templateType: string): Result<string> {
    if templateType !in TEMPLATE_TYPES then Err(KeyError)
    else if |seed| == 0 then Err(IndexError)
    else
      var template := ChosenTemplate(v, seed, templateType);
      RenderPrefix(template, SeedValues(v, seed), |template|)
  }

  // ---------------------------------------------------------------------------
  // The loops of site_password
  // ---------------------------------------------------------------------------

  /** The in-place widening loop of V0 (mpw/algorithm.py:100-104). */
  method WidenSeed(a: array<nat>)
    requires forall k :: 0 <= k < a.Length ==> a[k] < 0x100
    modifies a
    ensures a[..] == WidenAll(old(a[..]))
  {
    var i := 0;
    while i < a.Length
      invariant 0 <= i <= a.Length
      invariant forall k :: 0 <= k < i ==> a[k] == Widen(old(a[k]))
      invariant forall k :: i <= k < a.Length ==> a[k] == old(a[k])
    {
      a[i] := Widen(a[i]);
      i := i + 1;
    }
  }

  /** Once a prefix fails, every longer prefix fails with the same error. */
  lemma {:induction false} FailurePersists(template: string, s: seq<nat>, n: nat, m: nat)
    requires n <= m <= |template|
    requires RenderPrefix(template, s, n).Err?
    ensures RenderPrefix(template, s, m) == RenderPrefix(template, s, n)
  {
    if n < m {
      FailurePersists(template, s, n, m - 1);
    }
  }

  /** The loop that appends one password character per template position. */
  method FillTemplate(template: string, s: seq<nat>) returns (r: Result<string>)
    ensures r == RenderPrefix(template, s, |template|)
  {
    var password: string := [];
    var i := 0;
    while i < |template|
      invariant 0 <= i <= |template|
      invariant RenderPrefix(template, s, i) == Ok(password)
    {
      var tchar := template[i];
      if tchar == ' ' {
        password := password + [tchar];
      } else {
        if tchar !in CHARACTER_GROUPS {
          FailurePersists(template, s, i + 1, |template|);
          return Err(KeyError);
        }
        var pchars := CHARACTER_GROUPS[tchar];
        if i + 1 >= |s| {
          FailurePersists(template, s, i + 1, |template|);
          return Err(IndexError);
        }
        AlphabetsWellFormed();
        password := password + [pchars[s[i + 1] % |pchars|]];
      }
      i := i + 1;
    }
    r := Ok(password);
  }

  /** Selects the template from seed value 0 and fills it. */
  method FillChosen(s: seq<nat>, templateType: string) returns (r: Result<string>)
    requires templateType in TEMPLATE_TYPES && |s| > 0
    ensures r == RenderPrefix(ChooseTemplate(TEMPLATE_TYPES[templateType], s[0]), s,
                              |ChooseTemplate(TEMPLATE_TYPES[templateType], s[0])|)
  {
    TemplateTypesWellFormed();
    var templates := TEMPLATE_TYPES[templateType];
    var template := templates[s[0] % |templates|];
    r := FillTemplate(template, s);
  }

  /** `AlgorithmV0.site_password`: copy the seed into a list, widen it in place, render. */
  method SitePasswordV0(seed: seq<byte>, templateType: string) returns (r: Result<string>)
    ensures r == Password(V0, seed, templateType)
  {
    var a := new nat[|seed|](k requires 0 <= k < |seed| => seed[k]);
    assert a[..] == seed;
    WidenSeed(a);
    assert a[..] == SeedValues(V0, seed);
    if templateType !in TEMPLATE_TYPES {
      return Err(KeyError);
    }
    if a.Length == 0 {
      return Err(IndexError);
    }
    r := FillChosen(a[..], templateType);
  }

  /** `AlgorithmV1.site_password`, inherited by V2 and V3: render the raw seed bytes. */
  method SitePasswordV1(seed: seq<byte>, templateType: string) returns (r: Result<string>)
    ensures r == Password(V1, seed, templateType)
    ensures r == Password(V2, seed, templateType) && r == Password(V3, seed, templateType)
  {
    if templateType !in TEMPLATE_TYPES {
      return Err(KeyError);
    }
    if |seed| == 0 {
      return Err(IndexError);
    }
    r := FillChosen(seed, templateType);
  }

  /** `Algorithm(version).site_password`: the method the version's class defines or inherits. */
  method SitePassword(v: Version, seed: seq<byte>, templateType: string) returns (r: Result<string>)
    ensures r == Password(v, seed, templateType)
  {
    if v == V0 {
      r := SitePasswordV0(seed, templateType);
    } else {
      r := SitePasswordV1(seed, templateType);
    }
  }

  // ---------------------------------------------------------------------------
  // Properties
  // ---------------------------------------------------------------------------

  /**
   The prefix renders exactly when every position is fillable; then it has one
   character per position, each the one CharAt names. For a template of
   spaces and tags the only possible failure is a short seed.
   */
  lemma {:induction false} RenderPrefixSpec(template: string, s: seq<nat>, n: nat)
    requires n <= |template|
    ensures RenderPrefix(template, s, n).Ok? <==> forall i :: 0 <= i < n ==> Fillable(template, s, i)
    ensures RenderPrefix(template, s, n).Ok? ==>
      && |RenderPrefix(template, s, n).value| == n
      && forall i :: 0 <= i < n ==> RenderPrefix(template, s, n).value[i] == CharAt(template, s, i)
    ensures RenderPrefix(template, s, n).Err? && WellFormedTemplate(template) ==>
      RenderPrefix(template, s, n).error == IndexError
  {
    if n > 0 {
      RenderPrefixSpec(template, s, n - 1);
      var r := RenderPrefix(template, s, n);
      if r.Ok? {
        var p := RenderPrefix(template, s, n - 1).value;
        assert r.value[..n - 1] == p;
        assert Fillable(template, s, n - 1);
        forall i | 0 <= i < n ensures r.value[i] == CharAt(template, s, i) {
          if i < n - 1 {
            assert r.value[i] == p[i];
          }
        }
      } else if RenderPrefix(template, s, n - 1).Ok? {
        assert !Fillable(template, s, n - 1);
      }
    }
  }

  /** A filled tag position holds a member of the tag's alphabet, never a space. */
  lemma CharAtInAlphabet(template: string, s: seq<nat>, i: nat)
    requires i < |template| && Fillable(template, s, i) && template[i] != ' '
    ensures CharAt(template, s, i) in CHARACTER_GROUPS[template[i]]
    ensures CharAt(template, s, i) != ' '
  {
    AlphabetsWellFormed();
  }

  /**
   A rendered template has one character per position, spaces exactly where the
   template has spaces, and at every tag the alphabet's character that CharAt names.
   */
  lemma RenderedShape(template: string, s: seq<nat>)
    requires RenderPrefix(template, s, |template|).Ok?
    ensures var password := RenderPrefix(template, s, |template|).value;
      && |password| == |template|
      && (forall i :: 0 <= i < |template| ==> (password[i] == ' ' <==> template[i] == ' '))
      && forall i :: 0 <= i < |template| && template[i] != ' ' ==>
           && template[i] in CHARACTER_GROUPS
           && Fillable(template, s, i)
           && password[i] == CharAt(template, s, i)
           && password[i] in CHARACTER_GROUPS[template[i]]
  {
    RenderPrefixSpec(template, s, |template|);
    var password := RenderPrefix(template, s, |template|).value;
    forall i | 0 <= i < |template|
      ensures password[i] == ' ' <==> template[i] == ' '
      ensures template[i] != ' ' ==> template[i] in CHARACTER_GROUPS && password[i] in CHARACTER_GROUPS[template[i]]
    {
      assert Fillable(template, s, i);
      if template[i] != ' ' {
        CharAtInAlphabet(template, s, i);
      }
    }
  }

  /**
   When `site_password` succeeds, the template type is known, the template is
   one of its templates, chosen by seed value 0, and the password has that
   template's shape: every tag position i is filled from the tag's alphabet at
   seed value i + 1 modulo the alphabet's length.
   */
  lemma PasswordShape(v: Version, seed: seq<byte>, templateType: string)
    ensures Password(v, seed, templateType).Ok? ==>
      && templateType in TEMPLATE_TYPES && |seed| > 0
      && ChosenTemplate(v, seed, templateType) in TEMPLATE_TYPES[templateType]
      && var template, password := ChosenTemplate(v, seed, templateType), Password(v, seed, templateType).value;
      && |password| == |template|
      && (forall i :: 0 <= i < |template| ==> (password[i] == ' ' <==> template[i] == ' '))
      && forall i :: 0 <= i < |template| && template[i] != ' ' ==>
           && template[i] in CHARACTER_GROUPS
           && i + 1 < |seed|
           && password[i] == CharAt(template, SeedValues(v, seed), i)
           && password[i] in CHARACTER_GROUPS[template[i]]
  {
    if Password(v, seed, templateType).Ok? {
      var template := ChosenTemplate(v, seed, templateType);
      RenderedShape(template, SeedValues(v, seed));
    }
  }

  /**
   When `site_password` fails: KeyError exactly for an unknown template type,
   otherwise IndexError, which happens exactly when the seed is empty or too
   short for some non-space position of the chosen template. A seed longer than
   the longest template (a 32-byte HMAC-SHA256 digest, in particular) never fails.
   */
  lemma PasswordErrors(v: Version, seed: seq<byte>, templateType: string)
    ensures Password(v, seed, templateType) == Err(KeyError) <==> templateType !in TEMPLATE_TYPES
    ensures templateType in TEMPLATE_TYPES ==>
      (Password(v, seed, templateType) == Err(IndexError) <==>
        |seed| == 0 ||
        exists i :: 0 <= i < |ChosenTemplate(v, seed, templateType)|
                    && ChosenTemplate(v, seed, templateType)[i] != ' ' && i + 1 >= |seed|)
    ensures templateType in TEMPLATE_TYPES && |seed| > MAX_TEMPLATE_LENGTH ==>
      Password(v, seed, templateType).Ok?
  {
    if templateType in TEMPLATE_TYPES && |seed| > 0 {
      TemplateTypesWellFormed();
      var template := ChosenTemplate(v, seed, templateType);
      var s := SeedValues(v, seed);
      assert WellFormedTemplate(template) && |template| <= MAX_TEMPLATE_LENGTH;
      RenderPrefixSpec(template, s, |template|);
      if !RenderPrefix(template, s, |template|).Ok? {
        var i :| 0 <= i < |template| && !Fillable(template, s, i);
        assert template[i] != ' ' && i + 1 >= |seed|;
      }
      if exists i :: 0 <= i < |template| && template[i] != ' ' && i + 1 >= |seed| {
        var i :| 0 <= i < |template| && template[i] != ' ' && i + 1 >= |seed|;
        assert !Fillable(template, s, i);
      }
    }
  }

  /** The rendered prefix reads only seed values 0..n. */
  lemma {:induction false} RenderPrefixLocal(template: string, s: seq<nat>, t: seq<nat>, n: nat)
    requires n <= |template| && n < |s| && n < |t| && s[..n + 1] == t[..n + 1]
    ensures RenderPrefix(template, s, n) == RenderPrefix(template, t, n)
  {
    if n > 0 {
      assert s[..n] == t[..n] by {
        assert s[..n] == s[..n + 1][..n] && t[..n] == t[..n + 1][..n];
      }
      RenderPrefixLocal(template, s, t, n - 1);
      assert s[n] == s[..n + 1][n] && t[n] == t[..n + 1][n];
    }
  }

  /**
   Only seed bytes 0..len(template) influence the password: two seeds that agree
   there give the same result.
   */
  lemma ReadsOnlyTemplatePrefix(v: Version, seed: seq<byte>, other: seq<byte>, templateType: string)
    requires templateType in TEMPLATE_TYPES && |seed| > 0
    requires |ChosenTemplate(v, seed, templateType)| < |seed|
    requires |ChosenTemplate(v, seed, templateType)| < |other|
    requires seed[..|ChosenTemplate(v, seed, templateType)| + 1]
             == other[..|ChosenTemplate(v, seed, templateType)| + 1]
    ensures Password(v, seed, templateType) == Password(v, other, templateType)
  {
    var template := ChosenTemplate(v, seed, templateType);
    var n := |template|;
    var s, t := SeedValues(v, seed), SeedValues(v, other);
    assert seed[0] == seed[..n + 1][0] == other[..n + 1][0] == other[0];
    forall k | 0 <= k <= n ensures s[k] == t[k] {
      assert seed[k] == seed[..n + 1][k] && other[k] == other[..n + 1][k];
    }
    assert s[..n + 1] == t[..n + 1];
    assert ChosenTemplate(v, other, templateType) == template;
    RenderPrefixLocal(template, s, t, n);
  }

  /**
   Widening leaves every seed value unchanged modulo 5, so wherever V0 and V1
   use the same template, their vowel positions ('V' and 'v') coincide; the
   other alphabets' lengths do not divide 255, and there the two renderers
   generally differ.
   */
  lemma VowelsAgree(seed: seq<byte>, templateType: string)
    ensures Password(V0, seed, templateType).Ok? && Password(V1, seed, templateType).Ok?
            && ChosenTemplate(V0, seed, templateType) == ChosenTemplate(V1, seed, templateType) ==>
      var template, password0, password1 := ChosenTemplate(V0, seed, templateType),
          Password(V0, seed, templateType).value, Password(V1, seed, templateType).value;
      && |password0| == |template| == |password1|
      && forall i :: 0 <= i < |template| && (template[i] == 'V' || template[i] == 'v') ==>
           password0[i] == password1[i]
  {
    if !(Password(V0, seed, templateType).Ok? && Password(V1, seed, templateType).Ok?
         && ChosenTemplate(V0, seed, templateType) == ChosenTemplate(V1, seed, templateType)) {
      return;
    }
    PasswordShape(V0, seed, templateType);
    PasswordShape(V1, seed, templateType);
    var template := ChosenTemplate(V0, seed, templateType);
    var s0, s1 := SeedValues(V0, seed), SeedValues(V1, seed);
    forall i | 0 <= i < |template| && (template[i] == 'V' || template[i] == 'v')
      ensures CharAt(template, s0, i) == CharAt(template, s1, i)
    {
      assert s0[i + 1] == Widen(seed[i + 1]) && s1[i + 1] == seed[i + 1];
      VowelCharAt(template, s0, s1, i);
    }
  }

  /** At a vowel tag, a widened seed value gives the same character as the raw one. */
  lemma VowelCharAt(template: string, s: seq<nat>, t: seq<nat>, i: nat)
    requires i < |template| && (template[i] == 'V' || template[i] == 'v')
    requires i + 1 < |s| && i + 1 < |t|
    requires t[i + 1] < 0x100 && s[i + 1] == Widen(t[i + 1])
    ensures CharAt(template, s, i) == CharAt(template, t, i)
  {
    VowelGroups();
    var b := t[i + 1];
    assert Widen(b) % 5 == b % 5;
  }

  lemma VowelGroups()
    ensures CHARACTER_GROUPS['V'] == UPPER_VOWELS && CHARACTER_GROUPS['v'] == LOWER_VOWELS
    ensures |UPPER_VOWELS| == 5 && |LOWER_VOWELS| == 5
  {
  }

  /** The "pin" template "nnnn" renders the four digits selected by seed values 1..4. */
  lemma RenderPin(s: seq<nat>)
    requires |s| > 4
    ensures RenderPrefix("nnnn", s, 4)
      == Ok([DIGITS[s[1] % 10], DIGITS[s[2] % 10], DIGITS[s[3] % 10], DIGITS[s[4] % 10]])
  {
    assert CHARACTER_GROUPS['n'] == DIGITS && |DIGITS| == 10;
    assert forall k :: 0 <= k < 4 ==> "nnnn"[k] == 'n';
    var d1, d2, d3, d4 := DIGITS[s[1] % 10], DIGITS[s[2] % 10], DIGITS[s[3] % 10], DIGITS[s[4] % 10];
    assert RenderPrefix("nnnn", s, 0) == Ok([]);
    assert RenderPrefix("nnnn", s, 1) == Ok([] + [d1]) && [] + [d1] == [d1];
    assert RenderPrefix("nnnn", s, 2) == Ok([d1] + [d2]) && [d1] + [d2] == [d1, d2];
    assert RenderPrefix("nnnn", s, 3) == Ok([d1, d2] + [d3]) && [d1, d2] + [d3] == [d1, d2, d3];
    assert RenderPrefix("nnnn", s, 4) == Ok([d1, d2, d3] + [d4]) && [d1, d2, d3] + [d4] == [d1, d2, d3, d4];
  }

  /**
   The widening changes passwords: for a seed of 32 bytes 0x01 and the "pin"
   type, V1-V3 render "1111" while V0 reads 256 at every position and renders "6666".
   */
  lemma WideningDiverges()
    ensures Password(V1, seq(32, _ => 1), "pin") == Ok("1111")
    ensures Password(V0, seq(32, _ => 1), "pin") == Ok("6666")
  {
    var seed: seq<byte> := seq(32, _ => 1);
    var s0 := SeedValues(V0, seed);
    assert TEMPLATE_TYPES["pin"] == ["nnnn"];
    assert ChosenTemplate(V1, seed, "pin") == "nnnn";
    assert ChosenTemplate(V0, seed, "pin") == "nnnn";
    assert DIGITS[1] == '1' && DIGITS[6] == '6';
    assert forall k :: 0 <= k < 32 ==> s0[k] == 256;
    RenderPin(seed);
    RenderPin(s0);
  }
}
