/**
 * DbCrypto: the password helpers of the database layer. A salt is a run of
 * random bytes in lowercase hex; a password hash is `std::hash` of the salt
 * followed by the password, printed as 16 hex digits.
 *
 * `std::hash<std::string>` and the random bytes are foreign: the hasher is a
 * function parameter returning a 64-bit `size_t`, and the bytes drawn from
 * the distribution over 0..255 are a parameter.
 */
module DbCrypto {
  import StringUtils
  import CryptoUtils
  import Wrappers

  type byte = CryptoUtils.byte
  type uint64 = x: int | 0 <= x < 0x1_0000_0000_0000_0000

  /** `bytesToHex`: two lowercase, zero-padded hex digits per byte, in the
      same format as `hexEncode`. */
  method BytesToHex(bytes: seq<byte>) returns (s: string)
    ensures s == CryptoUtils.HexEncodeSpec(bytes)
    ensures |s| == 2 * |bytes|
    ensures forall i :: 0 <= i < |s| ==> StringUtils.IsLowerHexDigit(s[i])
  {
    s := [];
    var i := 0;
    while i < |bytes|
      invariant 0 <= i <= |bytes|
      invariant s == CryptoUtils.HexEncodeSpec(bytes[..i])
    {
      assert bytes[..i + 1] == bytes[..i] + [bytes[i]];
      CryptoUtils.HexEncodeSnoc(bytes[..i], bytes[i]);
      s := s + CryptoUtils.ByteHex(bytes[i]);
      i := i + 1;
    }
    assert bytes[..i] == bytes;
    CryptoUtils.HexEncodeShape(bytes);
  }

  /** `generateSalt(length)`: `length` bytes filled from the draws, then
      rendered by `bytesToHex`, so 2 * length hex digits that decode back to
      the bytes drawn. */
  method GenerateSalt(length: nat, draws: seq<byte>) returns (salt: string)
    requires |draws| >= length
    ensures salt == CryptoUtils.HexEncodeSpec(draws[..length])
    ensures |salt| == 2 * length
    ensures CryptoUtils.HexDecodeSpec(salt) == Wrappers.Some(draws[..length])
  {
    var buffer := new byte[length];
    var i := 0;
    while i < length
      invariant 0 <= i <= length
      invariant forall k :: 0 <= k < i ==> buffer[k] == draws[k]
    {
      buffer[i] := draws[i];
      i := i + 1;
    }
    assert buffer[..] == draws[..length];
    salt := BytesToHex(buffer[..]);
    CryptoUtils.HexDecodeEncode(draws[..length]);
  }

  /** A `size_t` printed by `std::hex` with `setw(16)` and fill '0'. */
  function Hex64(h: uint64): string
  {
    var digits := StringUtils.HexDigits(h);
    (if |digits| < 16 then StringUtils.Zeros(16 - |digits|) else []) + digits
  }

  lemma {:induction false} Pow16Add(a: nat, b: nat)
    ensures StringUtils.Pow16(a + b) == StringUtils.Pow16(a) * StringUtils.Pow16(b)
    decreases a
  {
    if a > 0 {
      Pow16Add(a - 1, b);
    }
  }

  lemma Pow16Of16()
    ensures StringUtils.Pow16(16) == 0x1_0000_0000_0000_0000
  {
    assert StringUtils.Pow16(2) == 256;
    Pow16Add(2, 2);
    Pow16Add(4, 4);
    Pow16Add(8, 8);
  }

  /** A 64-bit hash prints as exactly 16 lowercase hex digits that read back
      as the hash. */
  lemma Hex64Shape(h: uint64)
    ensures |Hex64(h)| == 16
    ensures forall i :: 0 <= i < 16 ==> StringUtils.IsLowerHexDigit(Hex64(h)[i])
    ensures StringUtils.HexValue(Hex64(h)) == h
  {
    Pow16Of16();
    StringUtils.HexDigitsLength(h, 16);
    var digits := StringUtils.HexDigits(h);
    StringUtils.HexValueOfDigits(h);
    StringUtils.HexValueLeadingZeros(16 - |digits|, digits);
    assert Hex64(h) == StringUtils.Zeros(16 - |digits|) + digits;
  }

  /** Distinct hashes print differently. */
  lemma Hex64Injective(a: uint64, b: uint64)
    ensures Hex64(a) == Hex64(b) <==> a == b
  {
    Hex64Shape(a);
    Hex64Shape(b);
  }

  /** `hashPassword(password, salt)`: the hash of salt + password, salt
      first and no separator. */
  function HashPassword(hasher: string -> uint64, password: string, salt: string): (r: string)
    ensures |r| == 16
    ensures forall i :: 0 <= i < |r| ==> StringUtils.IsLowerHexDigit(r[i])
    ensures StringUtils.HexValue(r) == hasher(salt + password)
  {
    Hex64Shape(hasher(salt + password));
    Hex64(hasher(salt + password))
  }

  /** `verifyPassword(password, storedHash, salt)`: the password's hash
      under the salt equals the stored one. */
  function VerifyPassword(hasher: string -> uint64, password: string, storedHash: string, salt: string): (ok: bool)
    ensures ok ==> |storedHash| == 16
  {
    HashPassword(hasher, password, salt) == storedHash
  }

  /** A hash made from a password and salt verifies with them; a stored
      string verifies exactly when it is the 16-digit rendering of the hash
      of salt + password. */
  lemma HashThenVerify(hasher: string -> uint64, password: string, salt: string, storedHash: string)
    ensures VerifyPassword(hasher, password, HashPassword(hasher, password, salt), salt)
    ensures VerifyPassword(hasher, password, storedHash, salt) <==>
      |storedHash| == 16 &&
      (forall i :: 0 <= i < 16 ==> StringUtils.IsLowerHexDigit(storedHash[i])) &&
      StringUtils.HexValue(storedHash) == hasher(salt + password)
  {
    if |storedHash| == 16 && (forall i :: 0 <= i < 16 ==> StringUtils.IsLowerHexDigit(storedHash[i])) &&
       StringUtils.HexValue(storedHash) == hasher(salt + password) {
      HexValueInjective(storedHash, HashPassword(hasher, password, salt));
    }
  }

  /** Two strings of the same length of lowercase hex digits with the same
      value are equal. */
  lemma {:induction false} HexValueInjective(s: string, t: string)
    requires |s| == |t|
    requires forall i :: 0 <= i < |s| ==> StringUtils.IsLowerHexDigit(s[i])
    requires forall i :: 0 <= i < |t| ==> StringUtils.IsLowerHexDigit(t[i])
    requires StringUtils.HexValue(s) == StringUtils.HexValue(t)
    ensures s == t
  {
    if s != [] {
      var n := |s| - 1;
      assert StringUtils.HexDigitValue(s[n]) == StringUtils.HexDigitValue(t[n]);
      HexValueInjective(s[..n], t[..n]);
      assert s == s[..n] + [s[n]];
      assert t == t[..n] + [t[n]];
    }
  }

  /** Only salt + password is hashed, so moving text across the boundary
      between salt and password does not change the hash. */
  lemma BoundaryIsNotHashed(hasher: string -> uint64, p1: string, s1: string, p2: string, s2: string)
    requires s1 + p1 == s2 + p2
    ensures HashPassword(hasher, p1, s1) == HashPassword(hasher, p2, s2)
  {
  }
}
