/**
 * `hash_file_collection`, written identically in apollo_script_master/_asm/files.py and
 * apollo_script_master/_asm/file_management.py: a generator that, once advanced, yields the
 * lowercase hex digest of the UTF-8 bytes of `contents` under the named algorithm, or raises
 * `ValueError` when the name is none of "sha256", "md5" and "sha512". The three hash
 * functions belong to `hashlib` and are parameters here.
 */
module Checksum {
  import opened Wrappers
  import opened Utf8

  datatype Algorithm = Sha256 | Md5 | Sha512

  datatype HashError = ValueError(message: string)

  /** The `hashlib` constructors, each taken straight to its raw digest. */
  datatype Hashers = Hashers(sha256: seq<byte> -> seq<byte>, md5: seq<byte> -> seq<byte>, sha512: seq<byte> -> seq<byte>)

  /** The name the default argument of `hash_file_collection` gives. */
  const DefaultAlgorithm: string := "md5"

  /** The string that selects `a`. */
  function Name(a: Algorithm): string {
    match a
    case Sha256 => "sha256"
    case Md5 => "md5"
    case Sha512 => "sha512"
  }

  /** The `if`/`elif` chain: exact, case-sensitive comparison with the three names. */
  function Select(name: string): Option<Algorithm> {
    if name == "sha256" then Some(Sha256)
    else if name == "md5" then Some(Md5)
    else if name == "sha512" then Some(Sha512)
    else None
  }

  /** `Select` accepts exactly the three names, each for its own algorithm. */
  lemma {:induction false} SelectIsNameInverse(name: string, a: Algorithm)
    ensures Select(name) == Some(a) <==> name == Name(a)
  {
  }

  /** The default name selects MD5; any other spelling of a name, such as "SHA256", is rejected. */
  lemma {:induction false} DefaultAndCase()
    ensures Select(DefaultAlgorithm) == Some(Md5)
    ensures Select("SHA256").None? && Select("MD5").None? && Select("SHA512").None?
  {
  }

  /** Digest length in bytes of each algorithm. */
  function DigestSize(a: Algorithm): nat {
    match a
    case Sha256 => 32
    case Md5 => 16
    case Sha512 => 64
  }

  /** Each hasher returns digests of its algorithm's length. */
  ghost predicate SizedHashers(h: Hashers) {
    forall bs :: |h.sha256(bs)| == 32 && |h.md5(bs)| == 16 && |h.sha512(bs)| == 64
  }

  function Digest(h: Hashers, a: Algorithm, bs: seq<byte>): seq<byte> {
    match a
    case Sha256 => h.sha256(bs)
    case Md5 => h.md5(bs)
    case Sha512 => h.sha512(bs)
  }

  const HexDigits: string := "0123456789abcdef"

  /** `hexdigest()`: two lowercase hexadecimal digits per byte, high nibble first. */
  function HexDigest(bs: seq<byte>): (r: string)
    ensures |r| == 2 * |bs|
  {
    if bs == [] then [] else [HexDigits[bs[0] / 16], HexDigits[bs[0] % 16]] + HexDigest(bs[1..])
  }

  function HexValue(c: char): Option<nat> {
    if '0' <= c <= '9' then Some(c as int - '0' as int)
    else if 'a' <= c <= 'f' then Some(c as int - 'a' as int + 10)
    else None
  }

  /** Reads a hex digest back into bytes. */
  function ParseHex(s: string): Option<seq<byte>>
    decreases |s|
  {
    if s == [] then Some([])
    else if |s| < 2 || HexValue(s[0]).None? || HexValue(s[1]).None? then None
    else
      match ParseHex(s[2..])
      case None => None
      case Some(rest) => Some([(HexValue(s[0]).value * 16 + HexValue(s[1]).value) as byte] + rest)
  }

  lemma {:induction false} HexDigitRoundTrip(d: nat)
    requires d < 16
    ensures HexValue(HexDigits[d]) == Some(d)
  {
  }

  /** The hex digest loses nothing: it parses back to the raw digest. */
  lemma {:induction false} ParseHexDigest(bs: seq<byte>)
    ensures ParseHex(HexDigest(bs)) == Some(bs)
  {
    if bs != [] {
      var hi, lo := (bs[0] / 16) as nat, (bs[0] % 16) as nat;
      HexDigitRoundTrip(hi);
      HexDigitRoundTrip(lo);
      var s := HexDigest(bs);
      assert s[2..] == HexDigest(bs[1..]);
      ParseHexDigest(bs[1..]);
      assert (hi * 16 + lo) as byte == bs[0];
      assert [bs[0]] + bs[1..] == bs;
    }
  }

  /**
   * The values the generator yields once advanced, or the error it raises: for a supported
   * name, exactly one value, the hex digest of the UTF-8 bytes of `contents`.
   */
  function HashFileCollection(contents: string, h: Hashers, algorithm: string := DefaultAlgorithm): (r: Result<seq<string>, HashError>)
    ensures r.Success? <==> Select(algorithm).Some?
    ensures r.Success? ==> |r.value| == 1
    ensures r.Failure? ==> r.error == ValueError("Algorithm " + algorithm + " is not supported.")
  {
    match Select(algorithm)
    case Some(a) => Success([HexDigest(Digest(h, a, Encode(contents)))])
    case None => Failure(ValueError("Algorithm " + algorithm + " is not supported."))
  }

  /**
   * Under a supported name the single value yielded is the digest of the contents' bytes under
   * that algorithm: parsing it back gives the raw digest, and it has two digits per digest byte.
   */
  lemma {:induction false} HashYieldsDigest(contents: string, a: Algorithm, h: Hashers)
    requires SizedHashers(h)
    ensures HashFileCollection(contents, h, Name(a)).Success?
    ensures ParseHex(HashFileCollection(contents, h, Name(a)).value[0]) == Some(Digest(h, a, Encode(contents)))
    ensures |HashFileCollection(contents, h, Name(a)).value[0]| == 2 * DigestSize(a)
  {
    ParseHexDigest(Digest(h, a, Encode(contents)));
  }

  /** Called without an algorithm, the generator yields the MD5 digest of the contents. */
  lemma {:induction false} DefaultIsMd5(contents: string, h: Hashers)
    requires SizedHashers(h)
    ensures HashFileCollection(contents, h).Success?
    ensures ParseHex(HashFileCollection(contents, h).value[0]) == Some(h.md5(Encode(contents)))
  {
    HashYieldsDigest(contents, Md5, h);
  }

  /** Different algorithms give values of different lengths, so they never coincide. */
  lemma {:induction false} AlgorithmsDistinct(contents: string, a: Algorithm, b: Algorithm, h: Hashers)
    requires SizedHashers(h) && a != b
    ensures HashFileCollection(contents, h, Name(a)) != HashFileCollection(contents, h, Name(b))
  {
    HashYieldsDigest(contents, a, h);
    HashYieldsDigest(contents, b, h);
  }

  /**
   * The value depends on the contents only through their UTF-8 bytes, and different contents
   * reach the hash function as different bytes.
   */
  lemma {:induction false} ContentsReachHasherIntact(c1: string, c2: string, a: Algorithm, h: Hashers)
    requires c1 != c2
    ensures Encode(c1) != Encode(c2)
    ensures HashFileCollection(c1, h, Name(a)).value[0] == HexDigest(Digest(h, a, Encode(c1)))
  {
    if Encode(c1) == Encode(c2) {
      EncodeInjective(c1, c2);
    }
  }
}
