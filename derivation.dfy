/**
 The first two stages of the derivation: the salt buffer and `master_key`
 (mpw/algorithm.py:84-89, 146-151), the message buffer and `site_seed`
 (mpw/algorithm.py:91-97, 137-143). scrypt and HMAC-SHA256 are foreign code:
 they enter as function-valued parameters whose result types fix only their
 output length.
 */
module Derivation {
  import opened Errors
  import opened Encoding
  import opened Tables
  import opened Versions

  /** The output of scrypt with dkLen 64. */
  type Key = s: seq<byte> | |s| == 64 witness seq(64, _ => 0)

  /** The output of HMAC-SHA256: one SHA-256 digest. */
  type Seed = s: seq<byte> | |s| == 32 witness seq(32, _ => 0)

  /** `scrypt.hash(password, salt, 32768, 8, 2, 64)`. */
  type Scrypt = (seq<byte>, seq<byte>) -> Key

  /** `HMAC.new(key, msg, SHA256).digest()`. */
  type HmacSha256 = (seq<byte>, seq<byte>) -> Seed

  /** Length of the encoded package name that opens both buffers. */
  const PREFIX_LENGTH: nat := 25

  lemma PackageNameAscii()
    ensures IsAscii(PACKAGE_NAME)
  {
  }

  lemma PackageNamePrefix()
    ensures |Utf8(PACKAGE_NAME)| == PREFIX_LENGTH
  {
    PackageNameAscii();
    Utf8Length(PACKAGE_NAME);
  }

  /** The number a length field holds for `text` under `rule`. */
  function LengthField(rule: LengthRule, text: string): nat {
    match rule
    case CodePoints => |text|
    case Utf8Bytes => |Utf8(text)|
  }

  /**
   `utf8(PACKAGE_NAME) + uint_32(len) + utf8(salt_string)`, where `len` counts
   code points under V0-V2 and UTF-8 octets under V3.
   */
  function SaltBuffer(v: Version, saltString: string): (r: Result<seq<byte>>)
    ensures r.Ok? <==> (if v == V3 then |Utf8(saltString)| else |saltString|) < TWO_TO_32
    ensures r.Err? ==> r.error == OverflowError
    ensures r.Ok? ==>
      && |r.value| == PREFIX_LENGTH + 4 + |Utf8(saltString)|
      && r.value[..PREFIX_LENGTH] == Utf8(PACKAGE_NAME)
      && FromUint32(r.value[PREFIX_LENGTH..PREFIX_LENGTH + 4])
           == (if v == V3 then |Utf8(saltString)| else |saltString|)
      && r.value[PREFIX_LENGTH + 4..] == Utf8(saltString)
  {
    PackageNamePrefix();
    var field :- Uint32(LengthField(SaltLengthRule(v), saltString));
    var salt := Utf8(PACKAGE_NAME) + field + Utf8(saltString);
    assert salt[PREFIX_LENGTH..PREFIX_LENGTH + 4] == field;
    Ok(salt)
  }

  /**
   `utf8(PACKAGE_NAME) + uint_32(len) + utf8(site) + uint_32(counter)`, where
   `len` counts code points under V0-V1 and UTF-8 octets under V2-V3.
   */
  function MessageBuffer(v: Version, site: string, counter: int): (r: Result<seq<byte>>)
    ensures r.Ok? <==>
      (if v in {V2, V3} then |Utf8(site)| else |site|) < TWO_TO_32 && 0 <= counter < TWO_TO_32
    ensures r.Err? ==> r.error == OverflowError
    ensures r.Ok? ==>
      && |r.value| == PREFIX_LENGTH + 4 + |Utf8(site)| + 4
      && r.value[..PREFIX_LENGTH] == Utf8(PACKAGE_NAME)
      && FromUint32(r.value[PREFIX_LENGTH..PREFIX_LENGTH + 4])
           == (if v in {V2, V3} then |Utf8(site)| else |site|)
      && r.value[PREFIX_LENGTH + 4..|r.value| - 4] == Utf8(site)
      && FromUint32(r.value[|r.value| - 4..]) == counter
  {
    PackageNamePrefix();
    var field :- Uint32(LengthField(MessageLengthRule(v), site));
    var count :- Uint32(counter);
    var msg := Utf8(PACKAGE_NAME) + field + Utf8(site) + count;
    assert msg[PREFIX_LENGTH..PREFIX_LENGTH + 4] == field;
    assert msg[PREFIX_LENGTH + 4..|msg| - 4] == Utf8(site);
    assert msg[|msg| - 4..] == count;
    Ok(msg)
  }

  /** `master_key`: scrypt over the UTF-8 master password and the salt buffer. */
  function MasterKey(v: Version, scrypt: Scrypt, masterPassword: string, saltString: string)
    : (r: Result<Key>)
    ensures r.Ok? <==> SaltBuffer(v, saltString).Ok?
    ensures r.Err? ==> r.error == OverflowError
    ensures r.Ok? ==> r.value == scrypt(Utf8(masterPassword), SaltBuffer(v, saltString).value)
  {
    var salt :- SaltBuffer(v, saltString);
    Ok(scrypt(Utf8(masterPassword), salt))
  }

  /** `site_seed`: HMAC-SHA256 keyed by the master key over the message buffer. */
  function SiteSeed(v: Version, hmac: HmacSha256, key: seq<byte>, site: string, counter: int)
    : (r: Result<Seed>)
    ensures r.Ok? <==> MessageBuffer(v, site, counter).Ok?
    ensures r.Err? ==> r.error == OverflowError
    ensures r.Ok? ==> r.value == hmac(key, MessageBuffer(v, site, counter).value)
  {
    var msg :- MessageBuffer(v, site, counter);
    Ok(hmac(key, msg))
  }

  /**
   What the subclass chain inherits: V0, V1 and V2 share `master_key`, V0 and V1
   share `site_seed`, V2 and V3 share `site_seed`.
   */
  lemma InheritedDerivations(scrypt: Scrypt, hmac: HmacSha256, pw: string, name: string,
                             key: seq<byte>, site: string, counter: int)
    ensures MasterKey(V0, scrypt, pw, name) == MasterKey(V1, scrypt, pw, name)
                                            == MasterKey(V2, scrypt, pw, name)
    ensures SiteSeed(V0, hmac, key, site, counter) == SiteSeed(V1, hmac, key, site, counter)
    ensures SiteSeed(V2, hmac, key, site, counter) == SiteSeed(V3, hmac, key, site, counter)
  {
  }

  /**
   The V2 and V3 salt buffers (code-point count against UTF-8 octet count) are
   equal exactly when the salt string is ASCII.
   */
  lemma SaltBuffersAgreeIffAscii(saltString: string)
    requires |Utf8(saltString)| < TWO_TO_32
    ensures SaltBuffer(V2, saltString).Ok? && SaltBuffer(V3, saltString).Ok?
    ensures SaltBuffer(V2, saltString) == SaltBuffer(V3, saltString) <==> IsAscii(saltString)
  {
    Utf8Length(saltString);
    var a, b := SaltBuffer(V2, saltString).value, SaltBuffer(V3, saltString).value;
    if a == b {
      assert a[PREFIX_LENGTH..PREFIX_LENGTH + 4] == b[PREFIX_LENGTH..PREFIX_LENGTH + 4];
    }
  }

  /**
   The V1 and V2 message buffers (code-point count against UTF-8 octet count)
   are equal exactly when the site is ASCII.
   */
  lemma MessageBuffersAgreeIffAscii(site: string, counter: int)
    requires |Utf8(site)| < TWO_TO_32 && 0 <= counter < TWO_TO_32
    ensures MessageBuffer(V1, site, counter).Ok? && MessageBuffer(V2, site, counter).Ok?
    ensures MessageBuffer(V1, site, counter) == MessageBuffer(V2, site, counter) <==> IsAscii(site)
  {
    Utf8Length(site);
    var a, b := MessageBuffer(V1, site, counter).value, MessageBuffer(V2, site, counter).value;
    if a == b {
      assert a[PREFIX_LENGTH..PREFIX_LENGTH + 4] == b[PREFIX_LENGTH..PREFIX_LENGTH + 4];
    }
  }

  /**
   The snowman name and site of the test vectors: the V3 salt buffer and the V2
   message buffer record 3 where the earlier versions record 1.
   */
  lemma SnowmanBuffers()
    ensures FromUint32(SaltBuffer(V2, "⛄").value[PREFIX_LENGTH..PREFIX_LENGTH + 4]) == 1
    ensures FromUint32(SaltBuffer(V3, "⛄").value[PREFIX_LENGTH..PREFIX_LENGTH + 4]) == 3
    ensures SaltBuffer(V2, "⛄") != SaltBuffer(V3, "⛄")
    ensures FromUint32(MessageBuffer(V1, "⛄", 1).value[PREFIX_LENGTH..PREFIX_LENGTH + 4]) == 1
    ensures FromUint32(MessageBuffer(V2, "⛄", 1).value[PREFIX_LENGTH..PREFIX_LENGTH + 4]) == 3
    ensures MessageBuffer(V1, "⛄", 1) != MessageBuffer(V2, "⛄", 1)
  {
    SnowmanUtf8();
    SaltBuffersAgreeIffAscii("⛄");
    MessageBuffersAgreeIffAscii("⛄", 1);
    assert !IsAsciiChar("⛄"[0]);
  }
}
