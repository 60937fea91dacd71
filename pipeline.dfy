/**
 The whole derivation as mpw/mpw.py:60-63 chains it:
 `Algorithm(version)`, then `master_key`, `site_seed` and `site_password`.
 */
module Pipeline {
  import opened Errors
  import opened Encoding
  import opened Tables
  import opened Versions
  import opened Derivation
  import opened Render

  /**
   The 32-byte seed of stages one and two for version v: OverflowError when
   either buffer's field does not fit, otherwise the MAC, keyed by the scrypt
   key of the salt buffer, over the message buffer.
   */
  function DerivedSeed(v: Version, scrypt: Scrypt, hmac: HmacSha256,
                       masterPassword: string, name: string, site: string, counter: int)
    : (r: Result<Seed>)
    ensures r.Ok? <==> SaltBuffer(v, name).Ok? && MessageBuffer(v, site, counter).Ok?
    ensures r.Err? ==> r.error == OverflowError
    ensures r.Ok? ==>
      r.value == hmac(scrypt(Utf8(masterPassword), SaltBuffer(v, name).value),
                      MessageBuffer(v, site, counter).value)
  {
    var key :- MasterKey(v, scrypt, masterPassword, name);
    SiteSeed(v, hmac, key, site, counter)
  }

  /**
   The site password for an integer version: ValueError for an unsupported
   version, OverflowError when the name's or the site's length field or the
   counter does not fit 4 bytes, KeyError for an unknown template type, and
   otherwise a password, because the 32-byte seed covers every template.
   */
  function GeneratePassword(version: int, scrypt: Scrypt, hmac: HmacSha256,
                            masterPassword: string, name: string, site: string,
                            counter: int, templateType: string)
    : (r: Result<string>)
    ensures !(0 <= version <= 3) ==> r == Err(ValueError)
    ensures 0 <= version <= 3 ==>
      var v := Algorithm(version).value;
      && (r.Err? && r.error == OverflowError <==>
            !SaltBuffer(v, name).Ok? || !MessageBuffer(v, site, counter).Ok?)
      && (r == Err(KeyError) <==>
            SaltBuffer(v, name).Ok? && MessageBuffer(v, site, counter).Ok?
            && templateType !in TEMPLATE_TYPES)
      && (r.Ok? <==>
            SaltBuffer(v, name).Ok? && MessageBuffer(v, site, counter).Ok?
            && templateType in TEMPLATE_TYPES)
  {
    var v :- Algorithm(version);
    var seed :- DerivedSeed(v, scrypt, hmac, masterPassword, name, site, counter);
    PasswordErrors(v, seed, templateType);
    Password(v, seed, templateType)
  }

  /** mpw/mpw.py:60-63, calling the `site_password` method of the selected version. */
  method Generate(version: int, scrypt: Scrypt, hmac: HmacSha256,
                  masterPassword: string, name: string, site: string,
                  counter: int, templateType: string)
    returns (r: Result<string>)
    ensures r == GeneratePassword(version, scrypt, hmac, masterPassword, name, site, counter, templateType)
  {
    var gen := Algorithm(version);
    if gen.Err? {
      return Err(gen.error);
    }
    var key := MasterKey(gen.value, scrypt, masterPassword, name);
    if key.Err? {
      return Err(key.error);
    }
    var seed := SiteSeed(gen.value, hmac, key.value, site, counter);
    if seed.Err? {
      return Err(seed.error);
    }
    r := SitePassword(gen.value, seed.value, templateType);
  }

  /** For an ASCII site the V1 and V2 message buffers coincide, overflow included. */
  lemma AsciiMessage(site: string, counter: int)
    requires IsAscii(site)
    ensures MessageBuffer(V1, site, counter) == MessageBuffer(V2, site, counter)
  {
    Utf8Length(site);
    if 0 <= counter < TWO_TO_32 && |Utf8(site)| < TWO_TO_32 {
      MessageBuffersAgreeIffAscii(site, counter);
    }
  }

  /** For an ASCII name the V2 and V3 salt buffers coincide, overflow included. */
  lemma AsciiSalt(name: string)
    requires IsAscii(name)
    ensures SaltBuffer(V2, name) == SaltBuffer(V3, name)
  {
    Utf8Length(name);
    if |Utf8(name)| < TWO_TO_32 {
      SaltBuffersAgreeIffAscii(name);
    }
  }

  /**
   Which versions share a seed: V0 and V1 always; V1 and V2 when the site is
   ASCII; V2 and V3 when the name is ASCII.
   */
  lemma SeedSharing(scrypt: Scrypt, hmac: HmacSha256,
                    masterPassword: string, name: string, site: string, counter: int)
    ensures DerivedSeed(V0, scrypt, hmac, masterPassword, name, site, counter)
         == DerivedSeed(V1, scrypt, hmac, masterPassword, name, site, counter)
    ensures IsAscii(site) ==>
              DerivedSeed(V1, scrypt, hmac, masterPassword, name, site, counter)
              == DerivedSeed(V2, scrypt, hmac, masterPassword, name, site, counter)
    ensures IsAscii(name) ==>
              DerivedSeed(V2, scrypt, hmac, masterPassword, name, site, counter)
              == DerivedSeed(V3, scrypt, hmac, masterPassword, name, site, counter)
  {
    InheritedDerivations(scrypt, hmac, masterPassword, name, [], site, counter);
    if IsAscii(site) {
      AsciiMessage(site, counter);
    }
    if IsAscii(name) {
      AsciiSalt(name);
    }
  }

  /**
   For an ASCII name and site, versions 1, 2 and 3 produce the same password
   (the test vectors 'Jejr5[RepuSosp' for all three); version 0 renders the
   same seed as version 1 with widened bytes.
   */
  lemma AsciiVersionsAgree(scrypt: Scrypt, hmac: HmacSha256, masterPassword: string,
                           name: string, site: string, counter: int, templateType: string)
    requires IsAscii(name) && IsAscii(site)
    ensures GeneratePassword(1, scrypt, hmac, masterPassword, name, site, counter, templateType)
         == GeneratePassword(2, scrypt, hmac, masterPassword, name, site, counter, templateType)
         == GeneratePassword(3, scrypt, hmac, masterPassword, name, site, counter, templateType)
    ensures var seed := DerivedSeed(V1, scrypt, hmac, masterPassword, name, site, counter);
      seed.Ok? ==>
        && GeneratePassword(0, scrypt, hmac, masterPassword, name, site, counter, templateType)
           == Password(V0, seed.value, templateType)
        && GeneratePassword(1, scrypt, hmac, masterPassword, name, site, counter, templateType)
           == Password(V1, seed.value, templateType)
  {
    SeedSharing(scrypt, hmac, masterPassword, name, site, counter);
  }
}
