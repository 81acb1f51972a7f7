/** The text transform that functions/src/index.ts wraps around compression:
    `zippedObj` stores `deflate(unescape(encodeURIComponent(JSON.stringify(x))))` and
    `unzip` undoes it with `JSON.parse(decodeURIComponent(escape(inflate(bin))))`.
    `unescape(encodeURIComponent(s))` turns s into the UTF-8 bytes of RFC 3629, one
    character per byte, and `decodeURIComponent(escape(b))` decodes such a byte string,
    throwing a URIError on anything that is not well-formed UTF-8. The compressor and
    the JSON codec are opaque functions, assumed only to invert each other. */
module Utf8Zip {
  import opened Wrappers

  type Byte = b: int | 0 <= b < 256

  // ---------------------------------------------------------------------------
  // UTF-8 (RFC 3629, section 3)

  predicate IsContinuation(b: Byte)
  {
    0x80 <= b < 0xC0
  }

  /** The UTF-8 encoding of one scalar value: 1 to 4 bytes, a lead byte followed by
      continuation bytes carrying six bits each. */
  function EncodeChar(c: char): (bytes: seq<Byte>)
    ensures 1 <= |bytes| <= 4
    ensures |bytes| == 1 <==> c as int < 0x80
    ensures forall i :: 1 <= i < |bytes| ==> IsContinuation(bytes[i])
  {
    var cp := c as int;
    if cp < 0x80 then [cp]
    else if cp < 0x800 then [0xC0 + cp / 64, 0x80 + cp % 64]
    else if cp < 0x10000 then [0xE0 + cp / 4096, 0x80 + (cp / 64) % 64, 0x80 + cp % 64]
    else [0xF0 + cp / 262144, 0x80 + (cp / 4096) % 64, 0x80 + (cp / 64) % 64, 0x80 + cp % 64]
  }

  /** The UTF-8 encoding of a string. */
  function Encode(s: string): (bytes: seq<Byte>)
    ensures |s| <= |bytes| <= 4 * |s|
  {
    if s == [] then [] else EncodeChar(s[0]) + Encode(s[1..])
  }

  /** The character the leading bytes encode and how many bytes it takes, or None when
      they are not a well-formed encoding (a stray continuation byte, a lead byte 0xC0,
      0xC1 or above 0xF4, a missing continuation byte, an overlong form, a surrogate, or
      a value above 0x10FFFF). */
  function DecodeFirst(bytes: seq<Byte>): (r: Option<(char, nat)>)
    requires |bytes| >= 1
    ensures r.Some? ==> 1 <= r.value.1 <= |bytes|
  {
    var b0: int := bytes[0];
    if b0 < 0x80 then Some((b0 as char, 1))
    else if 0xC2 <= b0 < 0xE0 then
      if |bytes| < 2 || !IsContinuation(bytes[1]) then None
      else Some((Payload2(b0, bytes[1]) as char, 2))
    else if 0xE0 <= b0 < 0xF0 then
      if |bytes| < 3 || !IsContinuation(bytes[1]) || !IsContinuation(bytes[2]) then None
      else
        var cp := Payload3(b0, bytes[1], bytes[2]);
        if cp < 0x800 || 0xD800 <= cp < 0xE000 then None else Some((cp as char, 3))
    else if 0xF0 <= b0 < 0xF5 then
      if |bytes| < 4 || !IsContinuation(bytes[1]) || !IsContinuation(bytes[2]) || !IsContinuation(bytes[3]) then None
      else
        var cp := Payload4(b0, bytes[1], bytes[2], bytes[3]);
        if cp < 0x10000 || cp > 0x10FFFF then None else Some((cp as char, 4))
    else None
  }

  /** The value bits of a two-, three- and four-byte sequence. */
  function Payload2(b0: int, b1: int): int
  {
    (b0 - 0xC0) * 64 + (b1 - 0x80)
  }

  function Payload3(b0: int, b1: int, b2: int): int
  {
    (b0 - 0xE0) * 4096 + (b1 - 0x80) * 64 + (b2 - 0x80)
  }

  function Payload4(b0: int, b1: int, b2: int, b3: int): int
  {
    (b0 - 0xF0) * 262144 + (b1 - 0x80) * 4096 + (b2 - 0x80) * 64 + (b3 - 0x80)
  }

  /** Strict UTF-8 decoding: None when any part is not well formed. */
  function Decode(bytes: seq<Byte>): (r: Option<string>)
    decreases |bytes|
  {
    if bytes == [] then Some([])
    else
      match DecodeFirst(bytes)
      case None => None
      case Some((c, n)) =>
        match Decode(bytes[n..])
        case None => None
        case Some(rest) => Some([c] + rest)
  }

  lemma DivisionsOf64(x: int)
    requires x >= 0
    ensures (x / 64) / 64 == x / 4096
    ensures (x / 4096) / 64 == x / 262144
  {
  }

  /** Decoding the encoding of a character recovers it and consumes exactly its bytes,
      whatever follows. */
  lemma DecodeFirstOfEncoded(c: char, rest: seq<Byte>)
    ensures DecodeFirst(EncodeChar(c) + rest) == Some((c, |EncodeChar(c)|))
  {
    var cp := c as int;
    DivisionsOf64(cp);
    var bytes := EncodeChar(c) + rest;
    if cp < 0x80 {
    } else if cp < 0x800 {
      assert bytes[0] == 0xC0 + cp / 64 && bytes[1] == 0x80 + cp % 64;
      assert Payload2(bytes[0], bytes[1]) == cp;
    } else if cp < 0x10000 {
      assert bytes[0] == 0xE0 + cp / 4096 && bytes[1] == 0x80 + (cp / 64) % 64 && bytes[2] == 0x80 + cp % 64;
      assert (cp / 4096) * 4096 + ((cp / 64) % 64) * 64 == (cp / 64) * 64;
      assert Payload3(bytes[0], bytes[1], bytes[2]) == cp;
    } else {
      assert bytes[0] == 0xF0 + cp / 262144 && bytes[1] == 0x80 + (cp / 4096) % 64;
      assert bytes[2] == 0x80 + (cp / 64) % 64 && bytes[3] == 0x80 + cp % 64;
      assert (cp / 262144) * 64 + (cp / 4096) % 64 == cp / 4096;
      assert (cp / 4096) * 64 + (cp / 64) % 64 == cp / 64;
      assert Payload4(bytes[0], bytes[1], bytes[2], bytes[3]) == cp;
    }
  }

  /** Decoding inverts encoding (RFC 3629: UTF-8 encodes every scalar value). */
  lemma {:induction false} DecodeEncode(s: string)
    ensures Decode(Encode(s)) == Some(s)
  {
    if s != [] {
      var head := EncodeChar(s[0]);
      var bytes := Encode(s);
      assert bytes == head + Encode(s[1..]);
      DecodeFirstOfEncoded(s[0], Encode(s[1..]));
      assert bytes[|head|..] == Encode(s[1..]);
      DecodeEncode(s[1..]);
      assert [s[0]] + s[1..] == s;
    }
  }

  /** A well-formed sequence decodes to the character whose encoding it is. */
  lemma EncodedDecodedFirst(bytes: seq<Byte>)
    requires |bytes| >= 1 && DecodeFirst(bytes).Some?
    ensures EncodeChar(DecodeFirst(bytes).value.0) == bytes[..DecodeFirst(bytes).value.1]
  {
    var c := DecodeFirst(bytes).value.0;
    var cp := c as int;
    DivisionsOf64(cp);
    var b0: int := bytes[0];
    if b0 < 0x80 {
    } else if b0 < 0xE0 {
      var b1: int := bytes[1];
      assert cp == (b0 - 0xC0) * 64 + (b1 - 0x80);
      assert cp / 64 == b0 - 0xC0 && cp % 64 == b1 - 0x80;
    } else if b0 < 0xF0 {
      var b1: int, b2: int := bytes[1], bytes[2];
      assert cp == (b0 - 0xE0) * 4096 + (b1 - 0x80) * 64 + (b2 - 0x80);
      assert cp / 64 == (b0 - 0xE0) * 64 + (b1 - 0x80) && cp % 64 == b2 - 0x80;
      assert cp / 4096 == b0 - 0xE0;
    } else {
      var b1: int, b2: int, b3: int := bytes[1], bytes[2], bytes[3];
      assert cp == (b0 - 0xF0) * 262144 + (b1 - 0x80) * 4096 + (b2 - 0x80) * 64 + (b3 - 0x80);
      assert cp / 64 == (b0 - 0xF0) * 4096 + (b1 - 0x80) * 64 + (b2 - 0x80) && cp % 64 == b3 - 0x80;
      assert cp / 4096 == (b0 - 0xF0) * 64 + (b1 - 0x80);
      assert cp / 262144 == b0 - 0xF0;
    }
  }

  /** Encoding inverts decoding: a byte sequence that decodes is the encoding of what it
      decodes to, so every string has exactly one UTF-8 form. */
  lemma {:induction false} EncodeDecode(bytes: seq<Byte>)
    requires Decode(bytes).Some?
    ensures Encode(Decode(bytes).value) == bytes
    decreases |bytes|
  {
    if bytes != [] {
      var (c, n) := DecodeFirst(bytes).value;
      EncodedDecodedFirst(bytes);
      EncodeDecode(bytes[n..]);
      var s := Decode(bytes).value;
      assert s == [c] + Decode(bytes[n..]).value;
      assert s[1..] == Decode(bytes[n..]).value;
      assert bytes == bytes[..n] + bytes[n..];
    }
  }

  // ---------------------------------------------------------------------------
  // Byte strings: one character per byte

  /** The string whose character codes are the bytes. */
  function BinaryString(bytes: seq<Byte>): (s: string)
    ensures |s| == |bytes|
    ensures forall i :: 0 <= i < |s| ==> s[i] as int == bytes[i]
  {
    seq(|bytes|, i requires 0 <= i < |bytes| => bytes[i] as char)
  }

  /** The bytes of a byte string, or None when a character code is 256 or more. */
  function BytesOf(s: string): (r: Option<seq<Byte>>)
    ensures r.Some? <==> forall i :: 0 <= i < |s| ==> s[i] as int < 256
    ensures r.Some? ==> BinaryString(r.value) == s
  {
    if forall i :: 0 <= i < |s| ==> s[i] as int < 256
    then Some(seq(|s|, i requires 0 <= i < |s| => s[i] as int as Byte))
    else None
  }

  lemma BytesOfBinaryString(bytes: seq<Byte>)
    ensures BytesOf(BinaryString(bytes)) == Some(bytes)
  {
    var s := BinaryString(bytes);
    assert BytesOf(s).value == bytes;
  }

  /** `unescape(encodeURIComponent(s))`. A Dafny string holds no lone surrogate, so
      `encodeURIComponent` cannot throw here. */
  function Utf8Escape(s: string): (bin: string)
    ensures forall i :: 0 <= i < |bin| ==> bin[i] as int < 256
  {
    BinaryString(Encode(s))
  }

  /** `decodeURIComponent(escape(bin))`, None when it throws: a character above 0xFF
      escapes to `%uXXXX`, which is malformed, and the bytes must be well-formed UTF-8. */
  function Utf8Unescape(bin: string): Option<string>
  {
    match BytesOf(bin)
    case None => None
    case Some(bytes) => Decode(bytes)
  }

  /** The byte-string transform round-trips. */
  lemma Utf8UnescapeEscape(s: string)
    ensures Utf8Unescape(Utf8Escape(s)) == Some(s)
  {
    BytesOfBinaryString(Encode(s));
    DecodeEncode(s);
  }

  /** ASCII text is its own byte string. */
  lemma {:induction false} AsciiEscapesToItself(s: string)
    requires forall i :: 0 <= i < |s| ==> s[i] as int < 0x80
    ensures Utf8Escape(s) == s
  {
    AsciiEncodesToItsCodes(s);
  }

  lemma {:induction false} AsciiEncodesToItsCodes(s: string)
    requires forall i :: 0 <= i < |s| ==> s[i] as int < 0x80
    ensures |Encode(s)| == |s|
    ensures forall i :: 0 <= i < |s| ==> Encode(s)[i] == s[i] as int
  {
    if s != [] {
      AsciiEncodesToItsCodes(s[1..]);
      assert Encode(s) == [s[0] as int] + Encode(s[1..]);
    }
  }

  // ---------------------------------------------------------------------------
  // zippedObj and unzip

  /** JSON and pako, as opaque functions: `parse` and `inflate` return None where they
      throw. */
  datatype Codec<!T> = Codec(stringify: T -> string, parse: string -> Option<T>,
                            deflate: string -> string, inflate: string -> Option<string>)

  /** What the round trip relies on: parse inverts stringify, inflate inverts deflate,
      deflate never produces the empty string (a zlib stream has a header), and the
      empty string is not JSON. */
  ghost predicate Lawful<T(!new)>(c: Codec<T>)
  {
    (forall x :: c.parse(c.stringify(x)) == Some(x))
    && (forall s :: c.inflate(c.deflate(s)) == Some(s))
    && (forall s :: c.deflate(s) != "")
    && c.parse("") == None
  }

  /** `unzip`'s outcome: it throws, or it returns the parsed value or `undefined`. */
  datatype Unzipped<T> = Threw | Returned(value: Option<T>)

  /** `zippedObj(x)`. */
  function ZippedObj<T>(c: Codec<T>, x: T): string
  {
    c.deflate(Utf8Escape(c.stringify(x)))
  }

  /** `unzip(bin)`: an absent or empty input throws; an inflate failure is caught and
      leaves "" to decode; a malformed byte string throws from `decodeURIComponent`,
      which is outside both `try` blocks; a JSON failure is caught and gives
      `undefined`. */
  function Unzip<T>(c: Codec<T>, bin: Option<string>): (r: Unzipped<T>)
    ensures bin.None? || bin == Some("") ==> r.Threw?
  {
    if bin.None? || bin.value == "" then Threw
    else
      var uncompressed := c.inflate(bin.value).GetOr("");
      match Utf8Unescape(uncompressed)
      case None => Threw
      case Some(decoded) => Returned(c.parse(decoded))
  }

  /** What `zippedObj` stores, `unzip` reads back. */
  lemma UnzipZippedObj<T(!new)>(c: Codec<T>, x: T)
    requires Lawful(c)
    ensures Unzip(c, Some(ZippedObj(c, x))) == Returned(Some(x))
  {
    var s := c.stringify(x);
    Utf8UnescapeEscape(s);
    assert c.inflate(c.deflate(Utf8Escape(s))) == Some(Utf8Escape(s));
  }

  /** A non-empty input that does not inflate gives `undefined`, not an exception. */
  lemma UnzipOfUninflatable<T(!new)>(c: Codec<T>, bin: string)
    requires Lawful(c) && bin != "" && c.inflate(bin) == None
    ensures Unzip(c, Some(bin)) == Returned(None)
  {
    assert Utf8Unescape("") == Some("");
  }

  /** A byte string that decodes but is not JSON gives `undefined`: the parse failure
      is caught. */
  lemma UnzipOfUnparsable<T>(c: Codec<T>, bin: string, decoded: string)
    requires bin != "" && Utf8Unescape(c.inflate(bin).GetOr("")) == Some(decoded)
    requires c.parse(decoded) == None
    ensures Unzip(c, Some(bin)) == Returned(None)
  {
  }

  /** Inflated text that is not a UTF-8 byte string throws from `decodeURIComponent`:
      text holding a code above 255, or starting with a continuation byte. */
  lemma UnzipOfMalformedBytes<T>(c: Codec<T>, bin: string, text: string)
    requires bin != "" && c.inflate(bin) == Some(text) && |text| >= 1
    requires (exists i :: 0 <= i < |text| && text[i] as int >= 256) || 0x80 <= text[0] as int < 0xC0
    ensures Unzip(c, Some(bin)) == Threw
  {
    if BytesOf(text).Some? {
      var bytes := BytesOf(text).value;
      assert bytes[0] as int == text[0] as int by {
        assert BinaryString(bytes) == text;
      }
      assert DecodeFirst(bytes) == None;
    }
  }

  /** `unzip` throws only for an absent or empty input or undecodable bytes; a failed
      inflate or parse never throws. */
  lemma UnzipThrowsOnlyOnInputOrBytes<T>(c: Codec<T>, bin: Option<string>)
    ensures Unzip(c, bin).Threw? <==>
      bin.None? || bin.value == "" || Utf8Unescape(c.inflate(bin.value).GetOr("")).None?
    ensures Unzip(c, bin).Returned? ==>
      (Unzip(c, bin).value.None? <==> c.parse(Utf8Unescape(c.inflate(bin.value).GetOr("")).value).None?)
  {
  }
}
