/** Webhook signature acceptance (app.py, `valid_signature`). The HMAC of
    RFC 2104 over SHA-256 is not modelled: it enters as a function parameter
    `hmac(secret, body)` about which nothing is assumed. The hexadecimal
    rendering (`hexdigest`) is modelled, with its reading direction `UnHex`. */
module Signing {
  import opened Wrappers
  import opened Text

  /** A keyed digest: `hmac(secret, message)`. */
  type Hmac = (seq<byte>, seq<byte>) -> seq<byte>

  const HexDigits: string := "0123456789abcdef"

  /** The algorithm tag GitHub puts before the digest in `X-Hub-Signature-256`. */
  const SignaturePrefix: string := "sha256="

  predicate IsLowerHex(c: char) {
    ('0' <= c <= '9') || ('a' <= c <= 'f')
  }

  /** The two lowercase hexadecimal digits of one byte, high nibble first. */
  function HexByte(b: byte): (s: string)
    ensures |s| == 2 && IsLowerHex(s[0]) && IsLowerHex(s[1])
  {
    [HexDigits[b / 16], HexDigits[b % 16]]
  }

  /** Python's `bytes.hexdigest()`: two lowercase hexadecimal digits per byte. */
  function Hex(bytes: seq<byte>): (s: string)
    ensures |s| == 2 * |bytes|
    ensures forall k :: 0 <= k < |s| ==> IsLowerHex(s[k])
  {
    if bytes == [] then "" else HexByte(bytes[0]) + Hex(bytes[1..])
  }

  /** The value of one lowercase hexadecimal digit. */
  function HexValue(c: char): (v: Option<nat>)
    ensures v.Some? <==> IsLowerHex(c)
    ensures v.Some? ==> v.value < 16 && HexDigits[v.value] == c
  {
    if '0' <= c <= '9' then Some(c as int - '0' as int)
    else if 'a' <= c <= 'f' then Some(c as int - 'a' as int + 10)
    else None
  }

  /** The byte whose high and low nibbles are `hi` and `lo`. */
  function FromNibbles(hi: nat, lo: nat): (b: byte)
    requires hi < 16 && lo < 16
    ensures b as int / 16 == hi && b as int % 16 == lo
  {
    (hi * 16 + lo) as byte
  }

  lemma NibblesOf(b: byte)
    ensures b as int / 16 < 16
    ensures FromNibbles(b as int / 16, b as int % 16) == b
  {
  }

  lemma DigitReadsBack(d: nat)
    requires d < 16
    ensures HexValue(HexDigits[d]) == Some(d)
  {
  }

  /** Reads lowercase hexadecimal text back into bytes; none for odd length or
      any other character. */
  function UnHex(s: string): Option<seq<byte>>
    decreases |s|
  {
    if |s| < 2 then (if |s| == 0 then Some([]) else None)
    else
      var hi, lo, rest := HexValue(s[0]), HexValue(s[1]), UnHex(s[2..]);
      if hi.Some? && lo.Some? && rest.Some? then Some([FromNibbles(hi.value, lo.value)] + rest.value)
      else None
  }

  /** Reading back the hexadecimal rendering gives the bytes again. */
  lemma {:induction false} UnHexHex(bytes: seq<byte>)
    ensures UnHex(Hex(bytes)) == Some(bytes)
    decreases |bytes|
  {
    if bytes != [] {
      var s := Hex(bytes);
      var b := bytes[0];
      assert s == HexByte(b) + Hex(bytes[1..]);
      assert s[2..] == Hex(bytes[1..]);
      UnHexHex(bytes[1..]);
      NibblesOf(b);
      DigitReadsBack(b as int / 16);
      DigitReadsBack(b as int % 16);
      assert s[0] == HexDigits[b as int / 16];
      assert s[1] == HexDigits[b as int % 16];
      assert bytes == [b] + bytes[1..];
    }
  }

  /** Whatever `UnHex` accepts is exactly the rendering of what it returns:
      there is one spelling per digest, in lowercase. */
  lemma {:induction false} HexUnHex(s: string)
    requires UnHex(s).Some?
    ensures Hex(UnHex(s).value) == s
    decreases |s|
  {
    if |s| > 0 {
      var hi, lo := HexValue(s[0]).value, HexValue(s[1]).value;
      var rest := UnHex(s[2..]).value;
      HexUnHex(s[2..]);
      var b := FromNibbles(hi, lo);
      assert UnHex(s).value == [b] + rest;
      assert ([b] + rest)[1..] == rest;
      assert HexByte(b) == [s[0], s[1]];
      assert s == [s[0], s[1]] + s[2..];
    }
  }

  lemma HexInjective(a: seq<byte>, b: seq<byte>)
    requires Hex(a) == Hex(b)
    ensures a == b
  {
    UnHexHex(a);
    UnHexHex(b);
  }

  /** The signature a holder of `secret` attaches to `body`. */
  function Signature(secret: seq<byte>, body: seq<byte>, hmac: Hmac): (sig: string)
    ensures StartsWith(sig, SignaturePrefix)
    ensures |sig| == |SignaturePrefix| + 2 * |hmac(secret, body)|
    ensures UnHex(sig[|SignaturePrefix|..]) == Some(hmac(secret, body))
  {
    var digest := hmac(secret, body);
    UnHexHex(digest);
    var sig := SignaturePrefix + Hex(digest);
    assert sig[|SignaturePrefix|..] == Hex(digest);
    sig
  }

  /** A tagged text that reads back as `digest` is the tagged rendering of `digest`. */
  lemma AcceptedSpelling(presented: string, digest: seq<byte>)
    ensures StartsWith(presented, SignaturePrefix) && UnHex(presented[|SignaturePrefix|..]) == Some(digest)
            ==> presented == SignaturePrefix + Hex(digest)
  {
    if StartsWith(presented, SignaturePrefix) && UnHex(presented[|SignaturePrefix|..]) == Some(digest) {
      HexUnHex(presented[|SignaturePrefix|..]);
      assert presented == SignaturePrefix + presented[|SignaturePrefix|..];
    }
  }

  /** `valid_signature`: a presented signature is accepted exactly when it is
      the algorithm tag followed by lowercase hexadecimal text that reads back
      as the HMAC of the body under the secret. */
  function ValidSignature(secret: seq<byte>, body: seq<byte>, presented: string, hmac: Hmac): (ok: bool)
    ensures ok <==>
      && StartsWith(presented, SignaturePrefix)
      && UnHex(presented[|SignaturePrefix|..]) == Some(hmac(secret, body))
  {
    var expected := Signature(secret, body, hmac);
    AcceptedSpelling(presented, hmac(secret, body));
    expected == presented
  }

  /** The signature computed with the secret is always accepted. */
  lemma SignedBodyAccepted(secret: seq<byte>, body: seq<byte>, hmac: Hmac)
    ensures ValidSignature(secret, body, Signature(secret, body, hmac), hmac)
  {
  }

  /** Any other presented text is refused, however close it is. */
  lemma OnlyTheSignatureAccepted(secret: seq<byte>, body: seq<byte>, presented: string, hmac: Hmac)
    requires presented != Signature(secret, body, hmac)
    ensures !ValidSignature(secret, body, presented, hmac)
  {
  }

  /** One presented signature stands for one digest: if it is accepted for two
      (secret, body) pairs, their HMACs agree. */
  lemma AcceptanceDeterminesDigest(secret: seq<byte>, body: seq<byte>, secret': seq<byte>, body': seq<byte>,
                                   presented: string, hmac: Hmac)
    requires ValidSignature(secret, body, presented, hmac)
    requires ValidSignature(secret', body', presented, hmac)
    ensures hmac(secret, body) == hmac(secret', body')
  {
  }
}
