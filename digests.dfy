/** Content digests of the form `<algorithm>:<hex-encoded hash>`, as the
    digest library the descriptor type relies on parses and validates them.
    Hashing itself is not modelled: it is a parameter of the operations that need it. */
module Digests {
  import opened Wrappers

  /** The registered hash algorithms. */
  datatype Algorithm = SHA256 | SHA384 | SHA512

  /** The default algorithm, used whenever a digest cannot be parsed. */
  const Canonical: Algorithm := SHA256

  function Name(a: Algorithm): string {
    match a
    case SHA256 => "sha256"
    case SHA384 => "sha384"
    case SHA512 => "sha512"
  }

  /** Length of the hex encoding of one hash value. */
  function EncodedLength(a: Algorithm): nat {
    match a
    case SHA256 => 64
    case SHA384 => 96
    case SHA512 => 128
  }

  /** The registered algorithm with this name, if any. */
  function LookupAlgorithm(name: string): (r: Option<Algorithm>)
    ensures r.Some? ==> Name(r.value) == name
    ensures forall a: Algorithm :: Name(a) == name ==> r == Some(a)
  {
    if name == "sha256" then Some(SHA256)
    else if name == "sha384" then Some(SHA384)
    else if name == "sha512" then Some(SHA512)
    else None
  }

  datatype DigestError = InvalidFormat | UnsupportedAlgorithm | InvalidEncoding

  predicate IsLowerHex(s: string) {
    forall i | 0 <= i < |s| :: s[i] in "0123456789abcdef"
  }

  /** Position of the first ':' in `s`. */
  function ColonIndex(s: string): (r: Option<nat>)
    ensures r.Some? ==> r.value < |s| && s[r.value] == ':' && ':' !in s[..r.value]
    ensures r.None? ==> ':' !in s
  {
    if |s| == 0 then None
    else if s[0] == ':' then Some(0)
    else match ColonIndex(s[1..])
      case None => None
      case Some(i) =>
        assert s[..i + 1] == [s[0]] + s[1..][..i];
        Some(i + 1)
  }

  /** The digest string made of an algorithm and an encoded hash. */
  function Compose(a: Algorithm, encoded: string): string {
    Name(a) + ":" + encoded
  }

  /** Splits a digest at its first ':' and checks the algorithm is registered and
      the encoded part is lower-case hex of the algorithm's length. */
  function Parse(d: string): (r: Result<(Algorithm, string), DigestError>)
    ensures r.Success? ==> d == Compose(r.value.0, r.value.1)
    ensures r.Success? ==> |r.value.1| == EncodedLength(r.value.0) && IsLowerHex(r.value.1)
    ensures ':' !in d ==> r == Failure(InvalidFormat)
  {
    match ColonIndex(d)
    case None => Failure(InvalidFormat)
    case Some(i) =>
      if i == 0 || i + 1 == |d| then Failure(InvalidFormat)
      else match LookupAlgorithm(d[..i])
        case None => Failure(UnsupportedAlgorithm)
        case Some(a) =>
          var encoded := d[i + 1..];
          assert d == d[..i] + ":" + encoded;
          if |encoded| == EncodedLength(a) && IsLowerHex(encoded) then Success((a, encoded))
          else Failure(InvalidEncoding)
  }

  predicate Valid(d: string) {
    Parse(d).Success?
  }

  function AlgorithmOf(d: string): Algorithm
    requires Valid(d)
  {
    Parse(d).value.0
  }

  /** Composing a well-formed hash and parsing it back gives the same algorithm and hash. */
  lemma ParseCompose(a: Algorithm, encoded: string)
    requires |encoded| == EncodedLength(a) && IsLowerHex(encoded)
    ensures Parse(Compose(a, encoded)) == Success((a, encoded))
  {
    var d := Compose(a, encoded);
    var n := |Name(a)|;
    assert ':' !in Name(a);
    assert d[n] == ':';
    assert d[..n] == Name(a);
    assert d[n + 1..] == encoded;
  }

  /** A valid digest is exactly the composition of its parsed parts. */
  lemma ValidIsComposed(d: string)
    requires Valid(d)
    ensures exists a, e :: d == Compose(a, e) && |e| == EncodedLength(a) && IsLowerHex(e) && AlgorithmOf(d) == a
  {
    var (a, e) := Parse(d).value;
    assert d == Compose(a, e);
  }
}
