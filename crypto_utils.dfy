/**
 * CryptoUtils: lowercase hex encoding and decoding of byte strings, the
 * "salt$hash" password format over SHA-256, the AES key and IV size guards
 * and the shape of the random string generator.
 *
 * The digest, the ciphers and the random sources are foreign code: the
 * SHA-256 digest is a function parameter returning 32 bytes, the cipher is a
 * function parameter, and random draws are parameters.
 */
module CryptoUtils {
  import opened Wrappers
  import StringUtils
  import Stoi

  type byte = x: int | 0 <= x < 256

  /** A SHA-256 digest: 32 bytes. */
  type Digest = d: seq<byte> | |d| == 32 witness seq(32, _ => 0)

  // ---------------------------------------------------------------------
  // hexEncode / hexDecode
  // ---------------------------------------------------------------------

  /** One byte printed with `std::hex`, `setw(2)` and fill '0'. */
  function ByteHex(b: byte): string
  {
    StringUtils.ToHex(b, 1)
  }

  /** Every byte prints as exactly two lowercase hex digits that read back
      as the byte. */
  lemma ByteHexDigits(b: byte)
    ensures |ByteHex(b)| == 2
    ensures StringUtils.IsLowerHexDigit(ByteHex(b)[0]) && StringUtils.IsLowerHexDigit(ByteHex(b)[1])
    ensures StringUtils.HexValue(ByteHex(b)) == b
  {
    assert StringUtils.Pow16(2) == 256;
    StringUtils.HexDigitsLength(b, 2);
    StringUtils.ToHexProperties(b, 1);
  }

  /** The text `hexEncode` produces: the bytes' two-digit forms, in order. */
  function HexEncodeSpec(data: seq<byte>): string
  {
    if data == [] then [] else ByteHex(data[0]) + HexEncodeSpec(data[1..])
  }

  lemma {:induction false} HexEncodeSnoc(data: seq<byte>, b: byte)
    ensures HexEncodeSpec(data + [b]) == HexEncodeSpec(data) + ByteHex(b)
  {
    if data == [] {
      assert [b][1..] == [];
    } else {
      assert (data + [b])[1..] == data[1..] + [b];
      HexEncodeSnoc(data[1..], b);
    }
  }

  /** `hexEncode` output has exactly two lowercase hex digits per byte, and
      the pair at position 2i reads back as byte i. */
  lemma {:induction false} HexEncodeShape(data: seq<byte>)
    ensures |HexEncodeSpec(data)| == 2 * |data|
    ensures forall i :: 0 <= i < |HexEncodeSpec(data)| ==> StringUtils.IsLowerHexDigit(HexEncodeSpec(data)[i])
    ensures forall i :: 0 <= i < |data| ==> HexEncodeSpec(data)[2 * i..2 * i + 2] == ByteHex(data[i])
  {
    if data != [] {
      var tail := data[1..];
      HexEncodeShape(tail);
      ByteHexDigits(data[0]);
      var e := HexEncodeSpec(data);
      var t := HexEncodeSpec(tail);
      assert e == ByteHex(data[0]) + t;
      forall i | 0 <= i < |data|
        ensures e[2 * i..2 * i + 2] == ByteHex(data[i])
      {
        if i > 0 {
          assert e[2 * i..2 * i + 2] == t[2 * (i - 1)..2 * (i - 1) + 2];
          assert data[i] == tail[i - 1];
        }
      }
    }
  }

  /** `hexEncode(data, length)`: the stream loop over the bytes. */
  method HexEncode(data: seq<byte>) returns (s: string)
    ensures s == HexEncodeSpec(data)
  {
    s := [];
    var i := 0;
    while i < |data|
      invariant 0 <= i <= |data|
      invariant s == HexEncodeSpec(data[..i])
    {
      assert data[..i + 1] == data[..i] + [data[i]];
      HexEncodeSnoc(data[..i], data[i]);
      s := s + ByteHex(data[i]);
      i := i + 1;
    }
    assert data[..i] == data;
  }

  /** `static_cast<uint8_t>` of an `int`: the value modulo 256. */
  function ToByte(v: int): byte
  {
    v % 256
  }

  /** The chunk `substr(i, 2)` of the text starting at a chunk boundary. */
  function Chunk(s: string): (c: string)
    ensures |c| == (if |s| < 2 then |s| else 2) && c == s[..|c|]
  {
    if |s| < 2 then s else s[..2]
  }

  /** `std::stoi(chunk, nullptr, 16)`. */
  function Stoi16(chunk: string): Option<int>
  {
    Stoi.Stoi(chunk, 16)
  }

  /** Decoding with chunk conversion `conv`: each two-character chunk, the
      last one possibly a single character, converted and cast to a byte;
      `None` as soon as a conversion fails. */
  function DecodeChunks(s: string, conv: string -> Option<int>): (r: Option<seq<byte>>)
    ensures r.Some? ==> |s| <= 2 * |r.value| <= |s| + 1
    decreases |s|
  {
    if s == [] then Some([])
    else
      var c := Chunk(s);
      match conv(c)
      case None => None
      case Some(v) =>
        match DecodeChunks(s[|c|..], conv)
        case None => None
        case Some(rest) => Some([ToByte(v)] + rest)
  }

  /** `hexDecode`: `None` when `std::stoi` throws on some chunk. */
  function HexDecodeSpec(s: string): (r: Option<seq<byte>>)
    ensures r.Some? ==> |s| <= 2 * |r.value| <= |s| + 1
  {
    DecodeChunks(s, Stoi16)
  }

  /** `std::stoi` in base 16 reads a lowercase digit string as its value. */
  lemma {:induction false} DigitsValueIsHexValue(s: string)
    requires forall i :: 0 <= i < |s| ==> StringUtils.IsLowerHexDigit(s[i])
    ensures Stoi.AllDigits(s, 16)
    ensures Stoi.DigitsValue(s, 16) == StringUtils.HexValue(s)
  {
    if s != [] {
      DigitsValueIsHexValue(s[..|s| - 1]);
    }
  }

  predicate IsHexPair(h: string)
  {
    |h| == 2 && StringUtils.IsLowerHexDigit(h[0]) && StringUtils.IsLowerHexDigit(h[1])
  }

  lemma {:induction false} DigitRunOfHexDigits(s: string)
    requires forall i :: 0 <= i < |s| ==> StringUtils.IsLowerHexDigit(s[i])
    ensures Stoi.DigitRun(s, 16) == |s|
  {
    if s != [] {
      DigitRunOfHexDigits(s[1..]);
    }
  }

  lemma HexValueBound(s: string)
    requires forall i :: 0 <= i < |s| ==> StringUtils.IsLowerHexDigit(s[i])
    ensures StringUtils.HexValue(s) < StringUtils.Pow16(|s|)
  {
    if s != [] {
      HexValueBound(s[..|s| - 1]);
    }
  }

  /** One or two lowercase hex digits convert to their value, which fits a
      byte. */
  lemma StoiOfLowerHex(s: string)
    requires 1 <= |s| <= 2
    requires forall i :: 0 <= i < |s| ==> StringUtils.IsLowerHexDigit(s[i])
    ensures Stoi16(s) == Some(StringUtils.HexValue(s))
    ensures StringUtils.HexValue(s) < 256
  {
    assert !StringUtils.IsSpace(s[0]) && s[0] != '-' && s[0] != '+';
    assert StringUtils.TrimLeft(s) == s;
    DigitRunOfHexDigits(s);
    assert s[..|s|] == s;
    DigitsValueIsHexValue(s);
    HexValueBound(s);
    assert StringUtils.Pow16(2) == 256;
  }

  /** A chunk of two lowercase hex digits converts to its value. */
  lemma StoiOfHexPair(c: string)
    requires IsHexPair(c)
    ensures Stoi16(c) == Some(StringUtils.HexValue(c))
    ensures StringUtils.HexValue(c) < 256
  {
    StoiOfLowerHex(c);
  }

  /** A single lowercase hex digit converts to its value. */
  lemma StoiOfHexDigit(c: char)
    requires StringUtils.IsLowerHexDigit(c)
    ensures Stoi16([c]) == Some(StringUtils.HexDigitValue(c))
  {
    StoiOfLowerHex([c]);
    assert [c][..0] == [];
  }

  /** The conversions that read every pair of lowercase hex digits as its
      value. */
  ghost predicate ReadsPairs(conv: string -> Option<int>)
  {
    forall h :: IsHexPair(h) ==> conv(h) == Some(StringUtils.HexValue(h))
  }

  lemma Stoi16ReadsPairs()
    ensures ReadsPairs(Stoi16)
  {
    StoiOfHexPairs();
  }

  lemma StoiOfHexPairs()
    ensures forall h :: IsHexPair(h) ==> Stoi16(h) == Some(StringUtils.HexValue(h))
  {
    forall h | IsHexPair(h)
      ensures Stoi16(h) == Some(StringUtils.HexValue(h))
    {
      StoiOfHexPair(h);
    }
  }

  /** `r` with `prefix` in front, when decoding succeeded. */
  function Prepend(prefix: seq<byte>, r: Option<seq<byte>>): Option<seq<byte>>
  {
    if r.Some? then Some(prefix + r.value) else None
  }

  lemma PrependPrepend(p: seq<byte>, q: seq<byte>, r: Option<seq<byte>>)
    ensures Prepend(p, Prepend(q, r)) == Prepend(p + q, r)
  {
    if r.Some? {
      assert p + (q + r.value) == (p + q) + r.value;
    }
  }

  /** One full chunk converted to a byte value, then the rest. */
  lemma DecodeByte(s: string, conv: string -> Option<int>, b: byte, tail: seq<byte>)
    requires |s| >= 2 && conv(s[..2]) == Some(b as int)
    requires DecodeChunks(s[2..], conv) == Some(tail)
    ensures DecodeChunks(s, conv) == Some([b] + tail)
  {
    assert Chunk(s) == s[..2];
  }

  /** Decoding the encoding of `data` followed by `rest` decodes `rest`
      after the bytes of `data`. */
  lemma {:induction false} HexDecodeAfter(data: seq<byte>, rest: string, r: seq<byte>, conv: string -> Option<int>)
    requires ReadsPairs(conv)
    requires DecodeChunks(rest, conv) == Some(r)
    ensures DecodeChunks(HexEncodeSpec(data) + rest, conv) == Some(data + r)
    decreases |data|
  {
    if data == [] {
      assert HexEncodeSpec(data) + rest == rest;
      assert data + r == r;
    } else {
      var h := ByteHex(data[0]);
      var e := HexEncodeSpec(data[1..]);
      var s := HexEncodeSpec(data) + rest;
      ByteHexDigits(data[0]);
      assert IsHexPair(h);
      assert HexEncodeSpec(data) == h + e;
      StringUtils.ConcatAssoc(h, e, rest);
      StringUtils.SliceConcat(h, e + rest, 0);
      HexDecodeAfter(data[1..], rest, r, conv);
      DecodeByte(s, conv, data[0], data[1..] + r);
      assert data == [data[0]] + data[1..];
      StringUtils.ConcatAssoc([data[0]], data[1..], r);
    }
  }

  /** Decoding what `hexEncode` produced gives the bytes back. */
  lemma HexDecodeEncode(data: seq<byte>)
    ensures HexDecodeSpec(HexEncodeSpec(data)) == Some(data)
  {
    Stoi16ReadsPairs();
    HexDecodeAfter(data, [], [], Stoi16);
    assert HexEncodeSpec(data) + [] == HexEncodeSpec(data);
    assert data + [] == data;
  }

  /** An odd trailing digit decodes as a single nibble. */
  lemma OddTrailingDigit(data: seq<byte>, c: char)
    requires StringUtils.IsLowerHexDigit(c)
    ensures HexDecodeSpec(HexEncodeSpec(data) + [c]) == Some(data + [StringUtils.HexDigitValue(c)])
  {
    Stoi16ReadsPairs();
    StoiOfHexDigit(c);
    SingleChunk([c], Stoi16);
    HexDecodeAfter(data, [c], [StringUtils.HexDigitValue(c)], Stoi16);
  }

  lemma SingleChunk(s: string, conv: string -> Option<int>)
    requires |s| == 1 && conv(s).Some?
    ensures DecodeChunks(s, conv) == Some([ToByte(conv(s).value)])
  {
    assert Chunk(s) == s;
    assert s[1..] == [];
    assert [ToByte(conv(s).value)] + [] == [ToByte(conv(s).value)];
  }

  /** A chunk that starts with a character `std::stoi` cannot begin a
      number with (not a hex digit, whitespace or sign) throws. */
  lemma NonHexThrows(s: string)
    requires s != [] && !Stoi.IsDigitIn(s[0], 16) && !StringUtils.IsSpace(s[0]) && s[0] != '+' && s[0] != '-'
    ensures HexDecodeSpec(s).None?
  {
    var c := Chunk(s);
    assert c[0] == s[0];
    assert StringUtils.TrimLeft(c) == c;
    assert Stoi16(c).None?;
  }

  /** The part of the text from index i on, empty once i is past the end. */
  function From(s: string, i: nat): string
  {
    if i <= |s| then s[i..] else []
  }

  /** `hexDecode`: the loop advancing by two; `None` where `std::stoi`
      throws. */
  method HexDecode(hexString: string) returns (r: Option<seq<byte>>)
    ensures r == HexDecodeSpec(hexString)
  {
    var result: seq<byte> := [];
    var i := 0;
    assert From(hexString, 0) == hexString;
    PrependEmpty(HexDecodeSpec(hexString));
    while i < |hexString|
      invariant i <= |hexString| + 1
      invariant HexDecodeSpec(hexString) == Prepend(result, DecodeChunks(From(hexString, i), Stoi16))
      decreases |hexString| + 1 - i
    {
      var byteString := hexString[i..if i + 2 <= |hexString| then i + 2 else |hexString|];
      var v := Stoi16(byteString);
      DecodeStep(hexString, i, byteString, Stoi16);
      if v.None? {
        return None;
      }
      var b := ToByte(v.value);
      PrependPrepend(result, [b], DecodeChunks(From(hexString, i + 2), Stoi16));
      result := result + [b];
      i := i + 2;
    }
    assert From(hexString, i) == [];
    assert result + [] == result;
    return Some(result);
  }

  lemma PrependEmpty(r: Option<seq<byte>>)
    ensures Prepend([], r) == r
  {
    if r.Some? {
      assert [] + r.value == r.value;
    }
  }

  /** One iteration of the decoding loop, in terms of the text left. */
  lemma DecodeStep(s: string, i: nat, chunk: string, conv: string -> Option<int>)
    requires i < |s| && chunk == s[i..if i + 2 <= |s| then i + 2 else |s|]
    ensures conv(chunk).None? ==> DecodeChunks(From(s, i), conv) == None
    ensures conv(chunk).Some? ==>
      DecodeChunks(From(s, i), conv) == Prepend([ToByte(conv(chunk).value)], DecodeChunks(From(s, i + 2), conv))
  {
    var rest := s[i..];
    assert chunk == Chunk(rest);
    assert From(s, i + 2) == rest[|chunk|..];
  }

  // ---------------------------------------------------------------------
  // sha256 and the salt$hash format
  // ---------------------------------------------------------------------

  /** `sha256(data)`: the hex form of the 32-byte digest. */
  function Sha256(digest: string -> Digest, data: string): string
  {
    HexEncodeSpec(digest(data))
  }

  /** A SHA-256 hex string has 64 characters, none of them '$'. */
  lemma Sha256Shape(digest: string -> Digest, data: string)
    ensures |Sha256(digest, data)| == 64
    ensures '$' !in Sha256(digest, data)
  {
    HexEncodeShape(digest(data));
  }

  /** The salt actually used: the given one, or the generated one (base64
      of 16 random bytes) when the given one is empty. */
  function UseSalt(salt: string, generatedSalt: string): (s: string)
    ensures salt != [] ==> s == salt
    ensures salt == [] ==> s == generatedSalt
  {
    if salt == [] then generatedSalt else salt
  }

  /** `hashPassword(password, salt)`: "salt$" + sha256(password + "$" + salt). */
  function HashPassword(digest: string -> Digest, password: string, salt: string, generatedSalt: string): string
  {
    var useSalt := UseSalt(salt, generatedSalt);
    useSalt + "$" + Sha256(digest, password + "$" + useSalt)
  }

  /** `verifyPassword(password, passwordHash)`: split at the first '$'
      (false when there is none) and compare sha256(password + "$" + salt)
      with the text after it. */
  function VerifyPassword(digest: string -> Digest, password: string, passwordHash: string): (ok: bool)
    ensures '$' !in passwordHash ==> !ok
  {
    var pos := StringUtils.IndexOfChar(passwordHash, '$');
    if pos == |passwordHash| then false
    else
      var salt := passwordHash[..pos];
      var expectedHash := passwordHash[pos + 1..];
      Sha256(digest, password + "$" + salt) == expectedHash
  }

  /** A stored hash verifies the password it was made from exactly when the
      salt used contains no '$': the split is at the first '$', and a
      SHA-256 hex string never contains one. */
  lemma HashThenVerify(digest: string -> Digest, password: string, salt: string, generatedSalt: string)
    ensures VerifyPassword(digest, password, HashPassword(digest, password, salt, generatedSalt))
      <==> '$' !in UseSalt(salt, generatedSalt)
  {
    var useSalt := UseSalt(salt, generatedSalt);
    var h := Sha256(digest, password + "$" + useSalt);
    var stored := useSalt + "$" + h;
    Sha256Shape(digest, password + "$" + useSalt);
    var pos := StringUtils.IndexOfChar(stored, '$');
    if '$' !in useSalt {
      StringUtils.IndexOfCharUnique(stored, '$', |useSalt|);
      assert stored[..pos] == useSalt;
      assert stored[pos + 1..] == h;
    } else {
      var k :| 0 <= k < |useSalt| && useSalt[k] == '$';
      assert stored[k] == '$';
      assert pos < |useSalt|;
      var expectedHash := stored[pos + 1..];
      assert expectedHash[|useSalt| - pos - 1] == '$';
      Sha256Shape(digest, password + "$" + stored[..pos]);
    }
  }

  /** With a given non-empty, '$'-free salt the stored form is the salt, a
      '$' and the 64-character hash, and it verifies. */
  lemma HashWithGivenSalt(digest: string -> Digest, password: string, salt: string, generatedSalt: string)
    requires salt != [] && '$' !in salt
    ensures var stored := HashPassword(digest, password, salt, generatedSalt);
      stored == salt + "$" + Sha256(digest, password + "$" + salt) &&
      |stored| == |salt| + 65 &&
      VerifyPassword(digest, password, stored)
  {
    Sha256Shape(digest, password + "$" + salt);
    HashThenVerify(digest, password, salt, generatedSalt);
  }

  // ---------------------------------------------------------------------
  // AES size guards
  // ---------------------------------------------------------------------

  /** `aesEncrypt`/`aesDecrypt`: "" unless the key has 32 characters and the
      IV 16; otherwise the result of the cipher. */
  function AesGuarded(cipher: (string, string, string) -> string, data: string, key: string, iv: string): (r: string)
    ensures |key| != 32 ==> r == []
    ensures |key| == 32 && |iv| != 16 ==> r == []
    ensures |key| == 32 && |iv| == 16 ==> r == cipher(data, key, iv)
  {
    if |key| != 32 then []
    else if |iv| != 16 then []
    else cipher(data, key, iv)
  }

  // ---------------------------------------------------------------------
  // generateRandomString
  // ---------------------------------------------------------------------

  const Digits: string := "0123456789"
  const UpperLetters: string := "ABCDEFGHIJKLMNOPQRSTUVWXYZ"
  const LowerLetters: string := "abcdefghijklmnopqrstuvwxyz"
  const Alphanum: string := Digits + UpperLetters + LowerLetters
  const SpecialChars: string := "!@#$%^&*()-_=+[]{};:,.<>?"

  function Charset(includeSpecialChars: bool): (cs: string)
    ensures |cs| == if includeSpecialChars then 87 else 62
  {
    if includeSpecialChars then Alphanum + SpecialChars else Alphanum
  }

  lemma DigitsAreDigits()
    ensures forall c :: c in Digits ==> StringUtils.IsDigit(c)
  {
  }

  lemma UpperLettersAreUpper()
    ensures forall c :: c in UpperLetters ==> StringUtils.IsUpper(c)
  {
  }

  lemma LowerLettersAreLower()
    ensures forall c :: c in LowerLetters ==> StringUtils.IsLower(c)
  {
  }

  lemma SpecialCharsAreNotAlnum()
    ensures forall c :: c in SpecialChars ==> !StringUtils.IsAlnum(c)
  {
  }

  /** The charset holds only ASCII letters and digits, and, when special
      characters are requested, the 25 special characters, none of which
      is a letter or digit. */
  lemma CharsetContents(includeSpecialChars: bool)
    ensures forall c :: c in Charset(includeSpecialChars) ==>
      StringUtils.IsAlnum(c) || (includeSpecialChars && c in SpecialChars)
    ensures forall c :: c in SpecialChars ==> !StringUtils.IsAlnum(c)
  {
    DigitsAreDigits();
    UpperLettersAreUpper();
    LowerLettersAreLower();
    SpecialCharsAreNotAlnum();
  }

  /** `generateRandomString(length, includeSpecialChars)`: `length`
      characters, the i-th the charset's character at the i-th draw of the
      uniform distribution over the charset's indices. */
  method GenerateRandomString(length: nat, includeSpecialChars: bool, draws: seq<nat>) returns (result: string)
    requires |draws| >= length
    requires forall i :: 0 <= i < length ==> draws[i] < |Charset(includeSpecialChars)|
    ensures |result| == length
    ensures forall i :: 0 <= i < length ==> result[i] == Charset(includeSpecialChars)[draws[i]]
    ensures forall i :: 0 <= i < length ==>
      StringUtils.IsAlnum(result[i]) || (includeSpecialChars && result[i] in SpecialChars)
  {
    CharsetContents(includeSpecialChars);
    var charset := Alphanum;
    if includeSpecialChars {
      charset := charset + SpecialChars;
    }
    result := [];
    var i := 0;
    while i < length
      invariant 0 <= i <= length
      invariant |result| == i
      invariant forall k :: 0 <= k < i ==> result[k] == charset[draws[k]]
    {
      result := result + [charset[draws[i]]];
      i := i + 1;
    }
  }
}
