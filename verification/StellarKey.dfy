/** Stellar keys as text (SEP-0023): version byte, key and checksum in base 32. */
module StellarKey {
  import opened Words
  import opened Base32
  import Crc

  datatype KeyError =
    | BadCharacter
    | BadEncoding
    | BadLength
    | BadChecksum(expected: u16, found: u16)
    | BadVersion

  datatype KeyResult = Key(key: seq<u8>) | Error(error: KeyError)

  function Low(crc: u16): u8 { (crc & 0xff) as u8 }

  function High(crc: u16): u8 { (crc >> 8) as u8 }

  function FromBytes(high: u8, low: u8): u16 { ((high as u16) << 8) | (low as u16) }

  lemma ChecksumBytes(crc: u16, high: u8, low: u8)
    ensures FromBytes(High(crc), Low(crc)) == crc
    ensures High(FromBytes(high, low)) == high && Low(FromBytes(high, low)) == low
  {}

  /** The bytes behind a key's text. */
  function Packed(key: seq<u8>, version: u8): seq<u8> {
    var body := [version] + key;
    var crc := Crc.Checksum(body);
    body + [Low(crc), High(crc)]
  }

  function EncodedKey(key: seq<u8>, version: u8): string {
    Encoded(Packed(key, version))
  }

  /** The checks in the order of the code. */
  function DecodedKey(text: string, version: u8, length: nat): KeyResult {
    match Decoded(text)
    case InvalidBase32Character => Error(BadCharacter)
    case Ok(bytes) =>
      var n := |bytes|;
      if text != Encoded(bytes) then Error(BadEncoding)
      else if n != 3 + length then Error(BadLength)
      else
        var found := FromBytes(bytes[n - 1], bytes[n - 2]);
        var expected := Crc.Checksum(bytes[..n - 2]);
        if found != expected then Error(BadChecksum(expected, found))
        else if bytes[0] != version then Error(BadVersion)
        else Key(bytes[1..n - 2])
  }

  method EncodeStellarKey(key: seq<u8>, version: u8) returns (text: string)
    ensures text == EncodedKey(key, version)
  {
    hide Encoded, Crc.Checksum, Low, High;
    var unencoded := [version];
    unencoded := unencoded + key;
    var crc := Crc.Compute(unencoded);
    unencoded := unencoded + [Low(crc)];
    unencoded := unencoded + [High(crc)];
    text := Encode(unencoded);
    assert unencoded == Packed(key, version);
  }

  method DecodeStellarKey(text: string, version: u8, length: nat) returns (r: KeyResult)
    ensures r == DecodedKey(text, version, length)
  {
    hide Encoded, Decoded, Crc.Checksum, FromBytes;
    var decoded := Decode(text);
    if decoded.InvalidBase32Character? {
      return Error(BadCharacter);
    }
    var bytes := decoded.bytes;
    var again := Encode(bytes);
    if text != again {
      return Error(BadEncoding);
    }
    var n := |bytes|;
    if n != 3 + length {
      return Error(BadLength);
    }
    var found := FromBytes(bytes[n - 1], bytes[n - 2]);
    var expected := Crc.Compute(bytes[..n - 2]);
    if found != expected {
      return Error(BadChecksum(expected, found));
    }
    if bytes[0] != version {
      return Error(BadVersion);
    }
    return Key(bytes[1..n - 2]);
  }

  // ----- the two are inverse to each other ----------------------------------------------

  lemma PackedParts(bytes: seq<u8>)
    requires |bytes| >= 3
    ensures var n := |bytes|;
            FromBytes(bytes[n - 1], bytes[n - 2]) == Crc.Checksum(bytes[..n - 2])
            <==> bytes == Packed(bytes[1..n - 2], bytes[0])
  {
    hide Crc.Checksum, Low, High, FromBytes;
    var n := |bytes|;
    var body := bytes[..n - 2];
    assert [bytes[0]] + bytes[1..n - 2] == body;
    var crc := Crc.Checksum(body);
    ChecksumBytes(crc, bytes[n - 1], bytes[n - 2]);
    assert bytes == body + [bytes[n - 2], bytes[n - 1]];
    if bytes == Packed(bytes[1..n - 2], bytes[0]) {
      assert bytes[n - 2] == Low(crc) && bytes[n - 1] == High(crc);
    }
  }

  /** A text is accepted, and read as `key`, exactly when it is the text of `key`. */
  lemma AcceptedIffEncoded(text: string, version: u8, length: nat, key: seq<u8>)
    ensures DecodedKey(text, version, length) == Key(key)
            <==> |key| == length && text == EncodedKey(key, version)
  {
    hide Encoded, Decoded, Crc.Checksum, FromBytes, Low, High;
    var packed := Packed(key, version);
    DecodeEncode(packed);
    assert packed[1..|packed| - 2] == key;
    if text == EncodedKey(key, version) && |key| == length {
      PackedParts(packed);
    }
    if DecodedKey(text, version, length) == Key(key) {
      PackedParts(Decoded(text).bytes);
    }
  }

  lemma DecodeEncodeKey(key: seq<u8>, version: u8)
    ensures DecodedKey(EncodedKey(key, version), version, |key|) == Key(key)
  {
    AcceptedIffEncoded(EncodedKey(key, version), version, |key|, key);
  }

  /** A key of another kind is told apart by its version byte, and by nothing else. */
  lemma OtherVersion(key: seq<u8>, version: u8, expected: u8)
    requires version != expected
    ensures DecodedKey(EncodedKey(key, version), expected, |key|) == Error(BadVersion)
  {
    hide Encoded, Decoded, Crc.Checksum, FromBytes, Low, High;
    var packed := Packed(key, version);
    DecodeEncode(packed);
    assert packed[1..|packed| - 2] == key;
    PackedParts(packed);
  }

  // ----- every error --------------------------------------------------------------------

  /** The checksum is stored low byte first. */
  lemma ChecksumOrder(crc: u16, high: u8, low: u8)
    ensures FromBytes(high, low) == 256 * (high as u16) + (low as u16)
    ensures 256 * (High(crc) as u16) + (Low(crc) as u16) == crc
  {}

  ghost predicate IsText(text: string) {
    exists bytes: seq<u8> :: text == Encoded(bytes)
  }

  lemma TextIff(text: string)
    requires Decoded(text).Ok?
    ensures IsText(text) <==> text == Encoded(Decoded(text).bytes)
  {
    hide Encoded, Decoded;
    if bytes: seq<u8> :| text == Encoded(bytes) {
      DecodeEncode(bytes);
    }
  }

  /** Before anything else the characters are checked, then that the text is one that encoding
      gives. */
  lemma EncodingErrorsIff(text: string, version: u8, length: nat)
    ensures DecodedKey(text, version, length) == Error(BadCharacter) <==> HasUnreadable(text)
    ensures DecodedKey(text, version, length) == Error(BadEncoding) <==> !HasUnreadable(text) && !IsText(text)
  {
    hide Encoded, Decoded, HasUnreadable, IsText, Crc.Checksum, FromBytes;
    DecodeFailsIff(text);
    if Decoded(text).Ok? {
      TextIff(text);
    }
  }

  /** Of a text of `bytes` the length is checked next, then the checksum over all but its two
      bytes, and the version last. A wrong checksum is reported with the expected one and the one
      found. */
  lemma TextOutcome(bytes: seq<u8>, version: u8, length: nat)
    ensures var r := DecodedKey(Encoded(bytes), version, length);
            var n := |bytes|;
            if n != 3 + length then r == Error(BadLength)
            else
              var found := FromBytes(bytes[n - 1], bytes[n - 2]);
              var expected := Crc.Checksum(bytes[..n - 2]);
              r == if found != expected then Error(BadChecksum(expected, found))
                   else if bytes[0] != version then Error(BadVersion)
                   else Key(bytes[1..n - 2])
  {
    hide Encoded, Decoded, Crc.Checksum, FromBytes;
    DecodeEncode(bytes);
  }

  lemma WrongChecksum(body: seq<u8>, low: u8, high: u8, version: u8)
    requires body != [] && FromBytes(high, low) != Crc.Checksum(body)
    ensures DecodedKey(Encoded(body + [low, high]), version, |body| - 1)
         == Error(BadChecksum(Crc.Checksum(body), FromBytes(high, low)))
  {
    hide DecodedKey, Encoded, Crc.Checksum, FromBytes;
    var bytes := body + [low, high];
    assert bytes[..|bytes| - 2] == body;
    TextOutcome(bytes, version, |body| - 1);
  }

  /** The length is what is wrong exactly with the texts of more or fewer bytes. */
  lemma BadLengthIff(text: string, version: u8, length: nat)
    ensures DecodedKey(text, version, length) == Error(BadLength)
            <==> exists bytes: seq<u8> :: text == Encoded(bytes) && |bytes| != 3 + length
  {
    hide Encoded, Decoded, Crc.Checksum, FromBytes;
    if bytes: seq<u8> :| text == Encoded(bytes) && |bytes| != 3 + length {
      DecodeEncode(bytes);
    }
    if DecodedKey(text, version, length) == Error(BadLength) {
      assert text == Encoded(Decoded(text).bytes);
    }
  }

  // ----- one wrong letter ---------------------------------------------------------------

  lemma SameLetterSameBits(a: seq<u8>, b: seq<u8>, m: nat)
    requires m / 5 < |Encoded(a)| && m / 5 < |Encoded(b)|
    requires Encoded(a)[m / 5] == Encoded(b)[m / 5]
    ensures StreamBit(a, m) == StreamBit(b, m)
  {
    hide Letter, Value, Quintet, StreamBit;
    EncodedLetters(a);
    EncodedLetters(b);
    var j := m / 5;
    assert Values(Encoded(a))[j] == Values(Encoded(b))[j];
    SameStream(a, m);
    SameStream(b, m);
  }

  lemma SameBitsSameByte(x: u8, y: u8)
    requires forall t: nat :: t < 8 ==> BitOfByte(x, t) == BitOfByte(y, t)
    ensures x == y
  {
    hide BitOfByte;
    JoinEightBits(x);
    JoinEightBits(y);
    assert BitOfByte(x, 0) == BitOfByte(y, 0) && BitOfByte(x, 1) == BitOfByte(y, 1);
    assert BitOfByte(x, 2) == BitOfByte(y, 2) && BitOfByte(x, 3) == BitOfByte(y, 3);
    assert BitOfByte(x, 4) == BitOfByte(y, 4) && BitOfByte(x, 5) == BitOfByte(y, 5);
    assert BitOfByte(x, 6) == BitOfByte(y, 6) && BitOfByte(x, 7) == BitOfByte(y, 7);
  }

  lemma SameHighHalf(x: u8, y: u8)
    requires BitOfByte(x, 0) == BitOfByte(y, 0) && BitOfByte(x, 1) == BitOfByte(y, 1)
    requires BitOfByte(x, 2) == BitOfByte(y, 2) && BitOfByte(x, 3) == BitOfByte(y, 3)
    ensures Crc.HighHalf(x) == Crc.HighHalf(y)
  {}

  /** Two texts that differ in letter `i` alone agree on all bits outside that letter. */
  ghost predicate AgreeOutside(a: seq<u8>, b: seq<u8>, i: nat) {
    |a| == |b| && forall m: nat :: m < 8 * |a| && m / 5 != i ==> StreamBit(a, m) == StreamBit(b, m)
  }

  lemma OneLetterBits(a: seq<u8>, b: seq<u8>, i: nat)
    requires |a| == |b|
    requires forall j :: 0 <= j < |Encoded(a)| && j != i ==> Encoded(a)[j] == Encoded(b)[j]
    ensures AgreeOutside(a, b, i)
  {
    hide StreamBit;
    forall m: nat | m < 8 * |a| && m / 5 != i
      ensures StreamBit(a, m) == StreamBit(b, m)
    {
      assert m / 5 < QuintetCount(|a|);
      hide Letter, Quintet;
      SameLetterSameBits(a, b, m);
    }
  }

  lemma SameByte(a: seq<u8>, b: seq<u8>, i: nat, k: nat)
    requires AgreeOutside(a, b, i) && k < |a|
    requires 8 * k + 8 <= 5 * i || 5 * i + 5 <= 8 * k
    ensures a[k] == b[k]
  {
    hide BitOfByte;
    forall t: nat | t < 8
      ensures BitOfByte(a[k], t) == BitOfByte(b[k], t)
    {
      var m := 8 * k + t;
      assert m / 8 == k && m % 8 == t;
      assert m / 5 != i;
      assert StreamBit(a, m) == StreamBit(b, m);
    }
    SameBitsSameByte(a[k], b[k]);
  }

  /** A letter that reaches into the next byte leaves the high half of its own byte alone;
      a letter that does not leaves the next byte alone. */
  lemma AtBoundary(a: seq<u8>, b: seq<u8>, i: nat, k: nat)
    requires AgreeOutside(a, b, i) && k + 1 < |a| && k == 5 * i / 8
    ensures a[k + 1] == b[k + 1] || Crc.HighHalf(a[k]) == Crc.HighHalf(b[k])
  {
    hide BitOfByte;
    var off := 5 * i - 8 * k;
    if off >= 4 {
      forall t: nat | t < 4
        ensures BitOfByte(a[k], t) == BitOfByte(b[k], t)
      {
        var m := 8 * k + t;
        assert m / 8 == k && m % 8 == t;
        assert m / 5 != i;
        assert StreamBit(a, m) == StreamBit(b, m);
      }
      SameHighHalf(a[k], b[k]);
    } else {
      SameByte(a, b, i, k + 1);
    }
  }

  lemma SameChecksum(x: u16, y: u16)
    requires Low(x) == Low(y) && High(x) == High(y)
    ensures x == y
  {
    hide Low, High, FromBytes;
    ChecksumBytes(x, 0, 0);
    ChecksumBytes(y, 0, 0);
  }

  lemma SameHighByte(x: u16, y: u16)
    requires High(x) == High(y)
    ensures Crc.HighByte(x) == Crc.HighByte(y)
  {}

  /** No two packed keys agree outside the five bits of one letter. */
  lemma OneLetterApart(key: seq<u8>, key': seq<u8>, version: u8, i: nat)
    requires |key| == |key'|
    requires AgreeOutside(Packed(key, version), Packed(key', version), i)
    ensures key == key'
  {
    hide Low, High, StreamBit, Crc.Checksum, Crc.HighHalf, Crc.HighByte, Crc.Round;
    var a, b := Packed(key, version), Packed(key', version);
    var body, body' := [version] + key, [version] + key';
    var crc, crc' := Crc.Checksum(body), Crc.Checksum(body');
    var n, p := |key|, 5 * i / 8;
    assert a[..n + 1] == body && b[..n + 1] == body';
    assert a[n + 1] == Low(crc) && a[n + 2] == High(crc);
    assert b[n + 1] == Low(crc') && b[n + 2] == High(crc');
    forall k: nat | k < n + 3 && k != p && k != p + 1
      ensures a[k] == b[k]
    {
      SameByte(a, b, i, k);
    }
    if body != body' {
      assert p <= n;
      Crc.ChangeDetected(body, body', p);
      if p < n {
        SameChecksum(crc, crc');
      } else {
        AtBoundary(a, b, i, n);
        if a[n + 1] == b[n + 1] {
          SameChecksum(crc, crc');
        } else {
          SameHighByte(crc, crc');
          Crc.ContinueOneMore(0, body, n);
          Crc.ContinueOneMore(0, body', n);
          assert body[..n + 1] == body && body'[..n + 1] == body' && body[..n] == body'[..n];
          Crc.ChecksumUnfolded(body);
          Crc.ChecksumUnfolded(body');
          Crc.LastHalfDetected(Crc.Continue(0, body[..n]), body[n], body'[n]);
        }
      }
    }
    assert key == body[1..] && key' == body'[1..];
  }

  /** Replacing any one letter of an accepted text by any other character makes it rejected,
      for keys of every length, also where the letter straddles key and checksum. */
  lemma WrongLetterRejected(text: string, version: u8, length: nat, i: nat, c: char)
    requires DecodedKey(text, version, length).Key?
    requires i < |text| && c != text[i]
    ensures DecodedKey(text[i := c], version, length).Error?
  {
    hide DecodedKey, Encoded, Packed;
    var changed := text[i := c];
    var r, r' := DecodedKey(text, version, length), DecodedKey(changed, version, length);
    if r'.Key? {
      AcceptedIffEncoded(text, version, length, r.key);
      AcceptedIffEncoded(changed, version, length, r'.key);
      var a, b := Packed(r.key, version), Packed(r'.key, version);
      PackedLength(r.key, version);
      PackedLength(r'.key, version);
      OneLetterBits(a, b, i);
      OneLetterApart(r.key, r'.key, version, i);
    }
  }

  lemma PackedLength(key: seq<u8>, version: u8)
    ensures |Packed(key, version)| == |key| + 3
  {}
}
