/**
  * Host-key fingerprints: `calculate_sha256_fingerprint` and `verify_pinned_host_key` of
  * src/infrastructure/ssh/host_key.py, and the parser of src/tools/provision_lab.py. SHA-256 is
  * any function from bytes to 32 bytes.
  */
module Fingerprint {
  import opened Basics
  import Base64

  const PREFIX := "SHA256:"

  type Digest = d: Bytes | |d| == 32 witness seq(32, _ => 0)

  type HashFunction = Bytes -> Digest

  function Unpadded(d: Bytes): string {
    Base64.StripPadding(Base64.Encode(d))
  }

  /** The fingerprint of a digest. */
  function Of(d: Digest): string {
    PREFIX + Unpadded(d)
  }

  function Calculate(sha256: HashFunction, serverKey: Bytes): string {
    Of(sha256(serverKey))
  }

  /** `verify_pinned_host_key` returns rather than raises. */
  predicate PinMatches(sha256: HashFunction, pin: string, serverKey: Bytes) {
    Calculate(sha256, serverKey) == pin
  }

  /** `_parse_openssh_sha256_fingerprint`: `None` is `LabProvisioningError`. */
  function Parse(value: string): Option<string> {
    if !(PREFIX <= value) then None
    else
      var encoded := value[|PREFIX|..];
      if |encoded| != 43 || '=' in encoded then None
      else
        var digest :- Base64.Decode(encoded + "=");
        if |digest| != 32 || encoded != Unpadded(digest) then None else Some(value)
  }

  /** The 43 characters of an unpadded 32-byte digest: digits whose last one ends in two zero bits. */
  ghost predicate CanonicalDigits(e: string) {
    |e| == 43 && Base64.AllInAlphabet(e) && Base64.Value(e[42]) % 4 == 0
  }

  lemma LastDigitIsNotPadding(d: Digest)
    ensures |Base64.Encode(d)| == 44
    ensures Base64.InAlphabet(Base64.Encode(d)[42]) && Base64.Encode(d)[42] != '='
  {
    hide Base64.Encode;
    Base64.EncodedShape(d);
    assert Base64.Encode(d)[..43][42] == Base64.Encode(d)[42];
  }

  lemma UnpaddedIsCanonical(d: Digest)
    ensures CanonicalDigits(Unpadded(d)) && Base64.Decode(Unpadded(d) + "=") == Some(d)
  {
    hide Base64.Digit, Base64.Value, Base64.InAlphabet, Base64.Decode, Base64.Encode;
    assert Base64.InAlphabet(Base64.Encode(d)[42]) && Base64.Encode(d)[42] != '=' by {
      LastDigitIsNotPadding(d);
    }
    Base64.EncodedShape(d);
    var s := Base64.Encode(d);
    assert s[..43][42] == s[42];
    Base64.StripOnePad(s);
    assert s[..43] + "=" == s;
  }

  lemma CanonicalIsUnpadded(e: string)
    requires CanonicalDigits(e)
    ensures var d := Base64.Decode(e + "=");
            d.Some? && |d.value| == 32 && Unpadded(d.value) == e
  {
    hide Base64.Encode, Base64.Decode, Base64.Digit, Base64.Value, Base64.StripPadding;
    Base64.ReencodeClearsStrayBits(e);
    var d := Base64.Decode(e + "=").value;
    Base64.ValueDigit(e[42]);
    assert e[..42] + [e[42]] == e;
    assert Base64.Encode(d) == e + "=";
    Base64.StripOnePad(e + "=");
  }

  /** Two fingerprints are equal exactly when their digests are. */
  lemma OfIsInjective(d: Digest, d': Digest)
    ensures Of(d) == Of(d') <==> d == d'
  {
    UnpaddedIsCanonical(d);
    UnpaddedIsCanonical(d');
    assert Of(d)[|PREFIX|..] == Unpadded(d) && Of(d')[|PREFIX|..] == Unpadded(d');
  }

  /** The parser accepts exactly the prefix followed by 43 digits with zero trailing bits. */
  lemma ParseAcceptsCanonicalShape(value: string)
    ensures Parse(value).Some? <==> PREFIX <= value && CanonicalDigits(value[|PREFIX|..])
    ensures Parse(value).Some? ==> Parse(value).value == value
  {
    if PREFIX <= value {
      var e := value[|PREFIX|..];
      if CanonicalDigits(e) {
        CanonicalIsUnpadded(e);
        assert '=' !in e;
      } else if Parse(value).Some? {
        var d: Digest := Base64.Decode(e + "=").value;
        UnpaddedIsCanonical(d);
      }
    }
  }

  /** The parser accepts exactly the fingerprints of 32-byte digests, so every computed one is accepted. */
  lemma ParseAcceptsFingerprints(value: string)
    ensures Parse(value).Some? <==> exists d: Digest :: value == Of(d)
  {
    if Parse(value).Some? {
      var d: Digest := Base64.Decode(value[|PREFIX|..] + "=").value;
      assert value == PREFIX + value[|PREFIX|..];
      assert value == Of(d);
    }
    if d: Digest :| value == Of(d) {
      UnpaddedIsCanonical(d);
      assert value[|PREFIX|..] == Unpadded(d);
      ParseAcceptsCanonicalShape(value);
    }
  }

  /** With an accepted pin, comparing strings decides equality of digests. */
  lemma PinDecidesDigest(sha256: HashFunction, pin: string, serverKey: Bytes, pinned: Digest)
    requires pin == Of(pinned)
    ensures Parse(pin).Some?
    ensures PinMatches(sha256, pin, serverKey) <==> sha256(serverKey) == pinned
  {
    ParseAcceptsFingerprints(pin);
    OfIsInjective(sha256(serverKey), pinned);
  }

  /** A fingerprint is `SHA256:` and the base-64 text of the digest without its one pad. */
  lemma OfIsPrefixAndDigits(d: Digest)
    ensures |Base64.Encode(d)| == 44 && Base64.Encode(d)[43] == '='
    ensures Of(d) == "SHA256:" + Base64.Encode(d)[..43]
  {
    hide Base64.Encode, Base64.StripPadding, Base64.InAlphabet;
    LastDigitIsNotPadding(d);
    Base64.EncodedShape(d);
    Base64.StripOnePad(Base64.Encode(d));
  }
}
