# Master Password derivation, modelled in Dafny

This project models the core of `pympw`, a Python implementation of the
Master Password algorithm. The algorithm derives a site password from a master
password, a user name, a site name, a counter, a template type and an
algorithm version. It has three stages:

1. **`master_key`**: scrypt over the UTF-8 master password and a *salt
   buffer*, `utf8(PACKAGE_NAME) ++ uint_32(len) ++ utf8(name)`.
2. **`site_seed`**: HMAC-SHA256, keyed by the master key, over a *message
   buffer*, `utf8(PACKAGE_NAME) ++ uint_32(len) ++ utf8(site) ++ uint_32(counter)`.
3. **`site_password`**: seed byte 0 picks a template of the requested type.
   Each template position is either copied (a space) or filled from its
   character group using the next seed byte.

Four versions exist. They are a subclass chain in which each class overrides
one method:

- V1 renders the raw seed bytes, where V0 first widens each byte.
- V2 counts the site's UTF-8 octets in the message buffer.
- V3 counts the name's UTF-8 octets in the salt buffer.

The earlier versions count code points (Python `len(str)`). The model turns
the chain into a closed table: `Versions.SaltLengthRule`,
`Versions.MessageLengthRule` and `Versions.SeedRuleOf`.

Modules, one file each:

- `errors.dfy`: the Python exceptions the core raises (`ValueError`,
  `OverflowError`, `KeyError`, `IndexError`) and a `Result` type.
- `encoding.dfy`: `uint_32` and `utf8` (section 3 of RFC 3629), with
  reference decoders for both.
- `tables.dfy`: `PACKAGE_NAME`, `TEMPLATE_TYPES` and `CHARACTER_GROUPS`, and
  their well-formedness.
- `versions.dfy`: the `Algorithm(version)` dispatcher and the variant table.
- `derivation.dfy`: the salt and message buffers, `master_key` and `site_seed`.
- `render.dfy`: `site_password`. The specification is a recursive function,
  `RenderPrefix`. The in-place widening loop and the append loop are methods
  proved equal to it.
- `pipeline.dfy`: the chaining of the three stages in `mpw/mpw.py`, and the
  agreements between versions.

The older length fields use Python `len(str)`, which counts code points and
not octets. The model does the same: versions 0-2 use that count for the salt,
and versions 0-1 use it for the message.

## Model

| member | source | states |
|---|---|---|
| `Versions.Algorithm` | mpw/algorithm.py:34-43 | Succeeds exactly for versions 0..3, returning the variant whose number is the argument; every other integer gives ValueError. |
| `Versions.SaltLengthRule` | mpw/algorithm.py:146-149 | No contract of its own. V3's override counts the name in UTF-8 octets, where V0-V2 count code points; `InheritanceChain` states the differences between versions, and `SaltBuffer` states the field each rule gives. |
| `Versions.MessageLengthRule` | mpw/algorithm.py:137-141 | No contract of its own. V2's override, which V3 inherits, counts the site in UTF-8 octets, where V0-V1 count code points; `InheritanceChain` and `MessageBuffer` state the consequences. |
| `Versions.SeedRuleOf` | mpw/algorithm.py:120-123 | No contract of its own. V0 widens the seed bytes, and V1's override, which V2 and V3 inherit, reads them raw; `InheritanceChain`, `SitePasswordV0` and `SitePasswordV1` state the consequences. |
| `Versions.InheritanceChain` | mpw/algorithm.py:120-151 | Each class differs from its parent in exactly one rule: V1 in the renderer, V2 in the message length count, V3 in the salt length count. |
| `Encoding.Uint32` | mpw/algorithm.py:199-200 | Succeeds exactly for 0 <= i < 2^32, else OverflowError; the result is 4 bytes whose big-endian value is i. |
| `Encoding.Uint32OfFromUint32` | mpw/algorithm.py:199-200 | Every 4-byte field is the encoding of its big-endian value, so the encoding is a bijection onto 4-byte strings. |
| `Encoding.EncodeScalar` | mpw/algorithm.py:202-203 | One scalar value encodes to 1, 2, 3 or 4 octets by the ranges of section 3 of RFC 3629, with the right lead-octet ranges and continuation octets 0x80-0xBF. |
| `Encoding.DecodeEncodeScalar` | mpw/algorithm.py:202-203 | Decoding the octets of one scalar value, followed by anything, gives back that value and its octet count. |
| `Encoding.Utf8` | mpw/algorithm.py:202-203 | No contract of its own. `Utf8RoundTrip` gives its decoder partner, `Utf8Injective` shows it is injective, and `Utf8Length` relates its length to the code-point count. |
| `Encoding.Utf8RoundTrip` | mpw/algorithm.py:202-203 | Decoding `utf8(s)` returns s. |
| `Encoding.Utf8Injective` | mpw/algorithm.py:202-203 | Different texts have different encodings. |
| `Encoding.Utf8Length` | mpw/algorithm.py:202-203 | The UTF-8 octet count is at least the code-point count, and equal to it exactly when the text is ASCII; for ASCII the octets are the code points. |
| `Encoding.SnowmanUtf8` | test/test_algorithm.py:176-178 | '⛄' is one code point and three octets, E2 9B 84. |
| `Tables.AlphabetsWellFormed` | mpw/algorithm.py:187-197 | Every character group's alphabet is non-empty and contains no space. |
| `Tables.AlphabetsDistinct` | mpw/algorithm.py:187-197 | Every character group's alphabet is a string of unique characters. |
| `Tables.LongTemplatesWellFormed` | mpw/algorithm.py:160-167 | There are 21 "long" templates. Each has at most 20 characters, every one a `CHARACTER_GROUPS` tag and none a space. |
| `Tables.TemplateTypesWellFormed` | mpw/algorithm.py:156-186 | Every template type has at least one template; every template is at most 20 characters of spaces and `CHARACTER_GROUPS` keys. |
| `Derivation.PackageNamePrefix` | mpw/algorithm.py:155 | The encoded package name, which opens both buffers, is 25 octets. |
| `Derivation.LengthField` | mpw/algorithm.py:86 | No contract of its own. It is `len(text)` (code points) under one rule and `len(utf8(text))` (octets) under the other, as lines 86, 93, 139 and 148 use them. `Utf8Length` relates the two counts, and `SaltBuffer` and `MessageBuffer` state the field. |
| `Derivation.SaltBuffer` | mpw/algorithm.py:85-87 | Fails with OverflowError exactly when the length field does not fit. Otherwise the salt is the 25-octet prefix, a 4-byte field holding the code-point count (V0-V2) or the UTF-8 octet count (V3, lines 147-149), then `utf8(name)`. |
| `Derivation.MessageBuffer` | mpw/algorithm.py:92-95 | Fails with OverflowError exactly when the site length or the counter does not fit. Otherwise the message is the prefix, a field holding the code-point count (V0-V1) or the octet count (V2-V3, lines 138-141), `utf8(site)`, and 4 bytes that decode to the counter. |
| `Derivation.MasterKey` | mpw/algorithm.py:84-89 | Fails exactly when the salt buffer does; otherwise the key is scrypt over the UTF-8 master password and that salt buffer. |
| `Derivation.SiteSeed` | mpw/algorithm.py:91-97 | Fails exactly when the message buffer does; otherwise the seed is HMAC-SHA256 keyed by the key over that message. |
| `Derivation.InheritedDerivations` | mpw/algorithm.py:120-151 | V0, V1 and V2 compute the same master key; V0 and V1 the same site seed, and so do V2 and V3. |
| `Derivation.SaltBuffersAgreeIffAscii` | mpw/algorithm.py:146-149 | The V2 and V3 salt buffers are equal if and only if the name is ASCII. |
| `Derivation.MessageBuffersAgreeIffAscii` | mpw/algorithm.py:137-141 | The V1 and V2 message buffers are equal if and only if the site is ASCII. |
| `Derivation.SnowmanBuffers` | test/test_algorithm.py:131-133 | For the name and site '⛄', V3's salt field holds 3 where V2's holds 1, and V2's message field holds 3 where V1's holds 1, so the buffers differ. |
| `Render.BitOrDisjoint` | mpw/algorithm.py:104 | Or-ing a value below 2^k into a multiple of 2^k is addition. |
| `Render.Widen` | mpw/algorithm.py:104 | The bitwise or of `0xff if v > 127 else 0` with `v << 8` is v*256 + (255 if v > 127 else 0): below 65536, with high byte v. |
| `Render.WidenAll` | mpw/algorithm.py:100-104 | The widened seed has the seed's length, and each value is the widened byte at the same position. |
| `Render.SeedValues` | mpw/algorithm.py:100-104 | No contract of its own. V0 reads the widened values and V1-V3 the raw bytes. `SitePasswordV0` and `SitePasswordV1` tie it to the methods, and `VowelCharAt` and `WideningDiverges` state what the widening changes. |
| `Render.WidenSeed` | mpw/algorithm.py:100-104 | The in-place loop replaces every seed value by its widened value, and nothing else changes. |
| `Render.ChooseTemplate` | mpw/algorithm.py:107 | `templates[s0 % len(templates)]` is one of the templates. |
| `Render.RenderPrefix` | mpw/algorithm.py:109-118 | No contract of its own; it is the specification of the append loop. `RenderPrefixSpec` characterises success and each character. `FailurePersists` shows the first failing position decides the error, and `FillTemplate` proves the loop equal to it. |
| `Render.Password` | mpw/algorithm.py:99-134 | No contract of its own; it is the specification of `site_password`. The type is looked up first (KeyError), then seed value 0 is read (IndexError), then the template is rendered. `PasswordErrors` characterises each error, and `PasswordShape` states the result. |
| `Render.FailurePersists` | mpw/algorithm.py:109-116 | Once a position fails, the whole rendering fails with that error. |
| `Render.FillTemplate` | mpw/algorithm.py:109-118 | The append loop returns exactly the recursive specification `RenderPrefix`, early error exits included. |
| `Render.FillChosen` | mpw/algorithm.py:122-123 | Selects the template by seed value 0 and fills it, as the specification does. |
| `Render.SitePasswordV0` | mpw/algorithm.py:99-118 | V0's method (copy, widen in place, look up the type, select, fill) returns `Password(V0, seed, type)`. |
| `Render.SitePasswordV1` | mpw/algorithm.py:121-134 | V1's method, which V2 and V3 inherit, returns `Password(V1, …)`, and that equals `Password(V2, …)` and `Password(V3, …)`. |
| `Render.SitePassword` | mpw/algorithm.py:120-136 | Dispatching on the version gives the version's specified password. |
| `Render.RenderPrefixSpec` | mpw/algorithm.py:109-118 | Rendering succeeds if and only if every position is a space, or a known tag whose seed byte i+1 exists. Then position i holds the character `CharAt` names. For a well-formed template the only error is IndexError. |
| `Render.CharAtInAlphabet` | mpw/algorithm.py:114-116 | A filled tag position holds a member of the tag's alphabet and never a space. |
| `Render.RenderedShape` | mpw/algorithm.py:109-118 | A rendered template has the template's length, spaces exactly at its spaces, and at each tag `alphabet[s[i+1] % len(alphabet)]`. |
| `Render.PasswordShape` | mpw/algorithm.py:122-132 | On success the type is known and the chosen template is one of its templates. The password has that template's length and spaces exactly at its spaces. Every other character is in its tag's alphabet, taken at (widened or raw) seed value i+1 modulo the alphabet length. |
| `Render.PasswordErrors` | mpw/algorithm.py:106-116 | KeyError if and only if the template type is unknown. Otherwise IndexError if and only if the seed is empty or too short for a non-space position. A seed longer than 20 bytes, such as any 32-byte seed, never fails. |
| `Render.RenderPrefixLocal` | mpw/algorithm.py:113-116 | The first n positions read only seed values 0..n. |
| `Render.ReadsOnlyTemplatePrefix` | mpw/algorithm.py:122-132 | Two seeds that agree on bytes 0..len(template) give the same result. |
| `Render.VowelCharAt` | mpw/algorithm.py:104 | At a 'V' or 'v' position a widened value picks the same vowel as the raw one. |
| `Render.VowelsAgree` | mpw/algorithm.py:99-134 | When V0 and V1 choose the same template from one seed, their passwords agree at every vowel position. |
| `Render.RenderPin` | mpw/algorithm.py:177-179 | For any seed of at least 5 values, the "pin" template renders four digits, the k-th being `DIGITS[s[k] % 10]` for k = 1..4. |
| `Render.WideningDiverges` | mpw/algorithm.py:99-134 | For a seed of 32 bytes 0x01 and type "pin", V1 gives "1111" and V0 gives "6666". |
| `Pipeline.DerivedSeed` | mpw/mpw.py:61-62 | Fails with OverflowError exactly when the salt or message buffer does not fit. Otherwise the seed is the MAC, keyed by scrypt over the UTF-8 master password and the salt buffer, over the message buffer. |
| `Pipeline.GeneratePassword` | mpw/mpw.py:60-63 | ValueError if the version is not 0..3. OverflowError if and only if a buffer's length field or the counter does not fit. KeyError if and only if the buffers fit and the type is unknown. Otherwise a password. |
| `Pipeline.Generate` | mpw/mpw.py:60-63 | The chained calls, ending in the version's `site_password` method, compute `GeneratePassword`. |
| `Pipeline.AsciiMessage` | mpw/algorithm.py:137-141 | For an ASCII site the V1 and V2 message buffers coincide, overflow included. |
| `Pipeline.AsciiSalt` | mpw/algorithm.py:146-149 | For an ASCII name the V2 and V3 salt buffers coincide, overflow included. |
| `Pipeline.SeedSharing` | mpw/algorithm.py:120-151 | V0 and V1 always derive the same seed. V1 and V2 derive the same seed when the site is ASCII, and V2 and V3 when the name is ASCII. |
| `Pipeline.AsciiVersionsAgree` | test/test_algorithm.py:171-174 | For an ASCII name and site, versions 1, 2 and 3 give the same password. Versions 0 and 1 render one and the same seed, V0 with widened bytes. |

## Left out

- scrypt (`scrypt.hash(…, 32768, 8, 2, 64)`) and HMAC-SHA256 are foreign code. They are function-valued parameters. Their result types fix only the output length: 64 bytes and 32 bytes. The known-answer passwords of the tests cannot be computed without them. Only their agreement patterns between versions are proved.
- Derivation.MasterKey: does not state the scrypt cost parameters, because scrypt is a parameter.
- Derivation.SiteSeed: does not state that the MAC is HMAC with SHA-256, because it is a parameter.
- Python strings may hold lone surrogates, on which `.encode('UTF-8')` raises UnicodeEncodeError. Dafny's `char` is a Unicode scalar value, so that error path cannot arise in the model.
- Lookups with a key that is not a string, and seeds that are not byte strings, are not modelled: template types are strings and seeds are byte sequences.
- `AlgorithmBase` (mpw/algorithm.py:45-81) has only placeholder methods, and `Algorithm` never returns it.
- `mpw/cmd.py` (prompts, dialogs, clipboard), the argument parsing and clipboard code of `mpw/mpw.py`, and `setup.py` are I/O or packaging. Their validation of the version and the template type repeats the checks that `Versions.Algorithm` and `Render.Password` already make.
- The tests call `generate_key` and `generate_password`, which `mpw/algorithm.py` does not define. The model follows `master_key`, `site_seed` and `site_password`.
- Wiping the master password and key from memory cannot be expressed in Dafny.
- The constants `PACKAGE_NAME` and the longer alphabets are written as concatenations of their parts. The values are the same.
