/**
 The algorithm versions and the dispatcher `Algorithm(version)`
 (mpw/algorithm.py:23-43). The source builds the versions as a subclass chain
 V0 <- V1 <- V2 <- V3 where each subclass overrides exactly one method; here the
 chain is a closed table saying which rule each version uses.
 */
module Versions {
  import opened Errors

  datatype Version = V0 | V1 | V2 | V3

  function Number(v: Version): nat {
    match v
    case V0 => 0
    case V1 => 1
    case V2 => 2
    case V3 => 3
  }

  /** `Algorithm(version)`: the variant for 0..3, ValueError for every other integer. */
  function Algorithm(version: int): (r: Result<Version>)
    ensures r.Ok? <==> 0 <= version <= 3
    ensures r.Ok? ==> Number(r.value) == version
    ensures r.Err? ==> r.error == ValueError
  {
    if version == 0 then Ok(V0)
    else if version == 1 then Ok(V1)
    else if version == 2 then Ok(V2)
    else if version == 3 then Ok(V3)
    else Err(ValueError)
  }

  /** How a length field counts its text: Python `len(str)` or `len(utf8(str))`. */
  datatype LengthRule = CodePoints | Utf8Bytes

  /** Whether `site_password` widens the seed bytes first (V0) or reads them as they are. */
  datatype SeedRule = Widened | Raw

  /** `master_key` is overridden only by V3. */
  function SaltLengthRule(v: Version): LengthRule {
    if v == V3 then Utf8Bytes else CodePoints
  }

  /** `site_seed` is overridden by V2 and inherited by V3. */
  function MessageLengthRule(v: Version): LengthRule {
    if v == V2 || v == V3 then Utf8Bytes else CodePoints
  }

  /** `site_password` is overridden by V1 and inherited by V2 and V3. */
  function SeedRuleOf(v: Version): SeedRule {
    if v == V0 then Widened else Raw
  }

  /**
   Each version differs from its parent class in exactly one of the three rules:
   V1 in the renderer, V2 in the message length, V3 in the salt length.
   */
  lemma InheritanceChain()
    ensures SaltLengthRule(V1) == SaltLengthRule(V0) && MessageLengthRule(V1) == MessageLengthRule(V0)
    ensures SeedRuleOf(V1) != SeedRuleOf(V0)
    ensures SaltLengthRule(V2) == SaltLengthRule(V1) && SeedRuleOf(V2) == SeedRuleOf(V1)
    ensures MessageLengthRule(V2) != MessageLengthRule(V1)
    ensures MessageLengthRule(V3) == MessageLengthRule(V2) && SeedRuleOf(V3) == SeedRuleOf(V2)
    ensures SaltLengthRule(V3) != SaltLengthRule(V2)
  {
  }
}
