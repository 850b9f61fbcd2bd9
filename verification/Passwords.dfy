/** Password and token hashing. The hash function and the text encoding are parameters. */
module Passwords {
  import opened Prelude

  const HASH_BYTES := 32
  const ITERATIONS := 100000

  /** What the hash function returns. */
  type Digest = b: Bytes | |b| == 32
    witness [0, 0, 0, 0, 0, 0, 0, 0, 0, 0, 0, 0, 0, 0, 0, 0, 0, 0, 0, 0, 0, 0, 0, 0, 0, 0, 0, 0, 0, 0, 0, 0]

  datatype Crypto = Crypto(sha256: Bytes -> Digest, utf8: string -> Bytes)

  // ---------------------------------------------------------------- hexadecimal text

  function HexDigit(n: int): (c: char)
    requires 0 <= n < 16
    ensures '0' <= c <= '9' || 'a' <= c <= 'f'
  {
    if n < 10 then ('0' as int + n) as char else ('a' as int + n - 10) as char
  }

  function HexValue(c: char): (v: Option<int>)
    ensures v.Some? ==> 0 <= v.value < 16
  {
    if '0' <= c <= '9' then Some(c as int - '0' as int)
    else if 'a' <= c <= 'f' then Some(c as int - 'a' as int + 10)
    else if 'A' <= c <= 'F' then Some(c as int - 'A' as int + 10)
    else None
  }

  function Hex(b: Bytes): (s: string)
    ensures |s| == 2 * |b|
    ensures ':' !in s
  {
    if b == [] then "" else [HexDigit(b[0] / 16), HexDigit(b[0] % 16)] + Hex(b[1..])
  }

  /** QByteArray::fromHex: other characters are skipped and digits are paired from the end. */
  function FromHex(s: string): Bytes {
    Pairs(HexDigits(s))
  }

  function HexDigits(s: string): (d: seq<int>)
    ensures forall i | 0 <= i < |d| :: 0 <= d[i] < 16
  {
    if s == [] then []
    else (if HexValue(s[0]).Some? then [HexValue(s[0]).value] else []) + HexDigits(s[1..])
  }

  function Pairs(d: seq<int>): Bytes
    requires forall i | 0 <= i < |d| :: 0 <= d[i] < 16
  {
    if d == [] then []
    else if |d| % 2 == 1 then [d[0]] + Pairs(d[1..])
    else [d[0] * 16 + d[1]] + Pairs(d[2..])
  }

  lemma {:induction false} HexRoundTrip(b: Bytes)
    ensures FromHex(Hex(b)) == b
  {
    if b != [] {
      HexRoundTrip(b[1..]);
      var s := Hex(b);
      assert s[1..][1..] == Hex(b[1..]);
      assert HexDigits(s) == [b[0] / 16] + HexDigits(s[1..]);
      assert HexDigits(s[1..]) == [b[0] % 16] + HexDigits(Hex(b[1..]));
      HexDigitCount(b[1..]);
      assert HexDigits(s)[2..] == HexDigits(Hex(b[1..]));
    }
  }

  lemma {:induction false} HexDigitCount(b: Bytes)
    ensures |HexDigits(Hex(b))| == 2 * |b|
  {
    if b != [] {
      var s := Hex(b);
      assert s[1..][1..] == Hex(b[1..]);
      assert |HexDigits(s)| == 1 + |HexDigits(s[1..])| == 2 + |HexDigits(Hex(b[1..]))|;
      HexDigitCount(b[1..]);
    }
  }

  // ---------------------------------------------------------------- key derivation

  function Xor(a: byte, b: byte): byte {
    ((a as bv8) ^ (b as bv8)) as int
  }

  function XorBytes(a: Bytes, b: Bytes): (r: Bytes)
    requires |a| == |b|
    ensures |r| == |a|
    ensures forall j | 0 <= j < |a| :: r[j] == Xor(a[j], b[j])
  {
    if a == [] then [] else [Xor(a[0], b[0])] + XorBytes(a[1..], b[1..])
  }

  /** The pseudorandom function the server uses: the hash of key and data joined. It is not HMAC. */
  function Prf(c: Crypto, password: string, data: Bytes): (r: Bytes)
    ensures |r| == HASH_BYTES
  {
    c.sha256(c.utf8(password) + data)
  }

  /** U_i of section 5.2 of RFC 8018, for block number 1. */
  function U(c: Crypto, password: string, salt: Bytes, i: nat): (r: Bytes)
    requires i >= 1
    ensures |r| == HASH_BYTES
  {
    if i == 1 then Prf(c, password, salt + U32(1)) else Prf(c, password, U(c, password, salt, i - 1))
  }

  /** T_1 = U_1 xor ... xor U_n, the only block of a 32-byte key. */
  function T1(c: Crypto, password: string, salt: Bytes, n: nat): (r: Bytes)
    requires n >= 1
    ensures |r| == HASH_BYTES
  {
    if n == 1 then U(c, password, salt, 1) else XorBytes(T1(c, password, salt, n - 1), U(c, password, salt, n))
  }

  /** "hash:salt" for a password and a salt in hexadecimal; an empty salt text asks for the random bytes. */
  function HashedPassword(c: Crypto, password: string, salt: string, random: Bytes): string {
    var actual := if salt == "" then random else FromHex(salt);
    Hex(T1(c, password, actual, ITERATIONS)) + ":" + Hex(actual)
  }

  function HashToken(c: Crypto, token: string): string {
    Hex(c.sha256(c.utf8(token)))
  }

  /** QString::split on one character. */
  function Split(s: string, sep: char): (parts: seq<string>)
    ensures |parts| >= 1
  {
    if s == "" then [""]
    else
      var rest := Split(s[1..], sep);
      if s[0] == sep then [""] + rest else [[s[0]] + rest[0]] + rest[1..]
  }

  function PartOr(parts: seq<string>, i: nat): string {
    if i < |parts| then parts[i] else ""
  }

  predicate PasswordMatches(c: Crypto, storedHash: string, storedSalt: string, password: string, random: Bytes) {
    storedHash + ":" + storedSalt == HashedPassword(c, password, storedSalt, random)
  }

  // ---------------------------------------------------------------- what is stored

  /** All blocks combined by exclusive or, byte by byte. */
  function XorAll(us: seq<Bytes>): (r: Bytes)
    requires |us| > 0 && forall k | 0 <= k < |us| :: |us[k]| == 32
    ensures |r| == 32
  {
    if |us| == 1 then us[0] else XorBytes(XorAll(us[..|us| - 1]), us[|us| - 1])
  }

  /** Blocks made one from the other: the hash of password, salt and the block number 1 in four octets, and from then on
      the hash of password and block before. */
  predicate Chain(c: Crypto, password: string, salt: Bytes, us: seq<Bytes>) {
    && (forall k | 0 <= k < |us| :: |us[k]| == 32)
    && (|us| > 0 ==> us[0] == c.sha256(c.utf8(password) + (salt + [0, 0, 0, 1])))
    && (forall k | 0 < k < |us| :: us[k] == c.sha256(c.utf8(password) + us[k - 1]))
  }

  lemma {:induction false} ChainDerives(c: Crypto, password: string, salt: Bytes, us: seq<Bytes>)
    requires |us| > 0 && Chain(c, password, salt, us)
    ensures us[|us| - 1] == U(c, password, salt, |us|) && XorAll(us) == T1(c, password, salt, |us|)
  {
    if |us| == 1 {
      assert U32(1) == [0, 0, 0, 1];
    } else {
      ChainDerives(c, password, salt, us[..|us| - 1]);
    }
  }

  /** The text made of a password and a salt: the exclusive or of a chain of 100000 blocks, and the salt. */
  lemma StoredText(c: Crypto, password: string, salt: Bytes, us: seq<Bytes>)
    requires |us| == 100000 && Chain(c, password, salt, us)
    ensures HashedPassword(c, password, "", salt) == Hex(XorAll(us)) + ":" + Hex(salt)
    ensures salt != [] ==> HashedPassword(c, password, Hex(salt), []) == Hex(XorAll(us)) + ":" + Hex(salt)
  {
    hide Chain, T1, U, XorAll;
    ChainDerives(c, password, salt, us);
    HexRoundTrip(salt);
  }

  // ---------------------------------------------------------------- the round trip

  lemma {:induction false} SplitPair(a: string, b: string, sep: char)
    requires sep !in a && sep !in b
    ensures Split(a + [sep] + b, sep) == [a, b]
  {
    var s := a + [sep] + b;
    if a == "" {
      assert s[1..] == b;
      SplitAlone(b, sep);
    } else {
      assert s[1..] == a[1..] + [sep] + b;
      SplitPair(a[1..], b, sep);
      assert [a[0]] + a[1..] == a;
    }
  }

  lemma {:induction false} SplitAlone(a: string, sep: char)
    requires sep !in a
    ensures Split(a, sep) == [a]
  {
    if a != "" {
      SplitAlone(a[1..], sep);
      assert [a[0]] + a[1..] == a;
    }
  }

  /** An account made from one password accepts exactly the passwords deriving the same key from its salt; its own
      password in particular, whatever the random bytes of either moment. */
  lemma StoredPasswordMatches(c: Crypto, original: string, salt: Bytes, attempt: string, random: Bytes)
    requires |salt| == HASH_BYTES
    ensures var parts := Split(HashedPassword(c, original, "", salt), ':');
            PasswordMatches(c, PartOr(parts, 0), PartOr(parts, 1), attempt, random)
            <==> T1(c, attempt, salt, ITERATIONS) == T1(c, original, salt, ITERATIONS)
  {
    var h := Hex(T1(c, original, salt, ITERATIONS));
    var t := Hex(T1(c, attempt, salt, ITERATIONS));
    SplitPair(h, Hex(salt), ':');
    assert HashedPassword(c, original, "", salt) == h + [':'] + Hex(salt);
    HexRoundTrip(salt);
    HexRoundTrip(T1(c, original, salt, ITERATIONS));
    HexRoundTrip(T1(c, attempt, salt, ITERATIONS));
    if h + ":" + Hex(salt) == t + ":" + Hex(salt) {
      assert h == (h + ":" + Hex(salt))[..64] == (t + ":" + Hex(salt))[..64] == t;
    }
  }

  predicate HexText(s: string) {
    |s| % 2 == 0 && forall i | 0 <= i < |s| :: '0' <= s[i] <= '9' || 'a' <= s[i] <= 'f'
  }

  /** A stored salt is of use, some stored hash lets the password in with it, exactly when it is non-empty lower-case
      hexadecimal text of even length. For an empty one the server draws a fresh salt, which no stored pair matches. */
  lemma SaltUsable(c: Crypto, salt: string, password: string, random: Bytes)
    requires |random| == HASH_BYTES
    ensures (exists h :: PasswordMatches(c, h, salt, password, random)) <==> salt != "" && HexText(salt)
  {
    hide T1;
    var actual := if salt == "" then random else FromHex(salt);
    var key, t := Hex(T1(c, password, actual, ITERATIONS)), Hex(actual);
    HexAlphabet(actual);
    if h :| PasswordMatches(c, h, salt, password, random) {
      var computed := key + ":" + t;
      assert forall k | 0 <= k < |computed| && k != |key| :: computed[k] != ':';
      assert (h + ":" + salt)[|h|] == ':' && |h| == |key|;
      assert salt == (h + ":" + salt)[|h| + 1..] == computed[|key| + 1..] == t;
    }
    if salt != "" && HexText(salt) {
      HexTextRoundTrip(salt);
      assert PasswordMatches(c, key, salt, password, random);
    }
  }

  /** The seeded administrator accepts no password at all, whatever its stored hash. */
  lemma SeedAcceptsNothing(c: Crypto, storedHash: string, password: string, random: Bytes)
    requires |random| == HASH_BYTES
    ensures !PasswordMatches(c, storedHash, "fixed-salt-for-seed", password, random)
  {
    hide PasswordMatches, FromHex;
    var salt := "fixed-salt-for-seed";
    assert salt[1] == 'i';
    SaltUsable(c, salt, password, random);
  }

  lemma DigitBack(c: char)
    requires '0' <= c <= '9' || 'a' <= c <= 'f'
    ensures HexValue(c).Some? && HexDigit(HexValue(c).value) == c
  {
  }

  lemma {:induction false} HexTextRoundTrip(s: string)
    requires HexText(s)
    ensures |HexDigits(s)| == |s| && Hex(FromHex(s)) == s
  {
    hide HexDigit, HexValue;
    if s != "" {
      var d, rest := HexDigits(s), s[2..];
      HexTextRoundTrip(rest);
      DigitBack(s[0]);
      DigitBack(s[1]);
      assert s[1..][1..] == rest;
      assert d == [HexValue(s[0]).value] + ([HexValue(s[1]).value] + HexDigits(rest));
      assert d[2..] == HexDigits(rest);
      PairBack(d[0], d[1], FromHex(rest));
      assert s == [s[0], s[1]] + rest;
    }
  }

  lemma PairBack(high: int, low: int, rest: Bytes)
    requires 0 <= high < 16 && 0 <= low < 16
    ensures Hex([high * 16 + low] + rest) == [HexDigit(high), HexDigit(low)] + Hex(rest)
  {
    hide HexDigit;
    var b: Bytes := [high * 16 + low] + rest;
    assert b[1..] == rest;
    assert b[0] / 16 == high && b[0] % 16 == low;
  }

  lemma {:induction false} HexAlphabet(b: Bytes)
    ensures forall k | 0 <= k < |Hex(b)| :: '0' <= Hex(b)[k] <= '9' || 'a' <= Hex(b)[k] <= 'f'
  {
    if b != [] {
      HexAlphabet(b[1..]);
    }
  }

  /** A colliding pair of tokens is a collision of the hash itself: hexadecimal text loses nothing. */
  lemma TokenHashInjective(c: Crypto, s: string, t: string)
    ensures HashToken(c, s) == HashToken(c, t) <==> c.sha256(c.utf8(s)) == c.sha256(c.utf8(t))
  {
    HexRoundTrip(c.sha256(c.utf8(s)));
    HexRoundTrip(c.sha256(c.utf8(t)));
  }

  // ---------------------------------------------------------------- the loop

  method XorInto(result: array<byte>, u: Bytes)
    requires |u| == result.Length
    modifies result
    ensures result[..] == XorBytes(old(result[..]), u)
  {
    for j := 0 to result.Length
      invariant forall k | 0 <= k < j :: result[k] == Xor(old(result[k]), u[k])
      invariant forall k | j <= k < result.Length :: result[k] == old(result[k])
    {
      result[j] := Xor(result[j], u[j]);
    }
  }

  /** The server's loop: `u` runs through U_2, U_3, ... while `result` accumulates their exclusive or in place. */
  method HashPassword(c: Crypto, password: string, salt: string, random: Bytes) returns (r: string)
    ensures r == HashedPassword(c, password, salt, random)
  {
    var actual := if salt == "" then random else FromHex(salt);
    var block := actual + U32(1);
    var u := Prf(c, password, block);
    var result := new byte[HASH_BYTES](j requires 0 <= j < HASH_BYTES => u[j]);
    assert result[..] == u;
    for i := 1 to ITERATIONS
      invariant u == U(c, password, actual, i)
      invariant result[..] == T1(c, password, actual, i)
    {
      u := Prf(c, password, u);
      XorInto(result, u);
    }
    return Hex(result[..]) + ":" + Hex(actual);
  }
}
