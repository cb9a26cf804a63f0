/** Descriptors: content-addressable references (media type, size, digest and
    optional metadata), with the full-metadata relation `Equal`, the content
    identity relation `Same`, embedded-data extraction and digest-algorithm
    resolution. */
module Descriptors {
  import opened Wrappers
  import opened Digests

  newtype byte = x: int | 0 <= x < 256

  const Docker2Manifest: string := "application/vnd.docker.distribution.manifest.v2+json"
  const Docker2ManifestList: string := "application/vnd.docker.distribution.manifest.list.v2+json"
  const Docker2ImageConfig: string := "application/vnd.docker.container.image.v1+json"
  const Docker2LayerGzip: string := "application/vnd.docker.image.rootfs.diff.tar.gzip"
  const OCI1Manifest: string := "application/vnd.oci.image.manifest.v1+json"
  const OCI1ManifestList: string := "application/vnd.oci.image.index.v1+json"
  const OCI1ImageConfig: string := "application/vnd.oci.image.config.v1+json"
  const OCI1LayerGzip: string := "application/vnd.oci.image.layer.v1.tar+gzip"

  /** The OCI media type a Docker or OCI media type converts to, or "" for a
      media type without such a counterpart. */
  function ToOCI(mt: string): string {
    if mt == Docker2Manifest || mt == OCI1Manifest then OCI1Manifest
    else if mt == Docker2ManifestList || mt == OCI1ManifestList then OCI1ManifestList
    else if mt == Docker2ImageConfig || mt == OCI1ImageConfig then OCI1ImageConfig
    else if mt == Docker2LayerGzip || mt == OCI1LayerGzip then OCI1LayerGzip
    else ""
  }

  datatype Platform = Platform(os: string, architecture: string, variant: string, osVersion: string, osFeatures: seq<string>)

  datatype Descriptor = Descriptor(
    mediaType: string,
    size: int,
    digest: string,
    data: Option<seq<byte>>,
    platform: Option<Platform>,
    annotations: Option<map<string, string>>,
    artifactType: string,        // "" when unset
    urls: Option<seq<string>>,
    digestAlgo: Option<Algorithm>)  // preferred algorithm, consulted only for an unparsable digest

  const Empty: Descriptor := Descriptor("", 0, "", None, None, None, "", None, None)

  datatype DescriptorError = ParsingFailed | Unsupported | NotFound

  /** Two media types label the same content: equal, or Docker/OCI counterparts. */
  predicate ConvertibleMediaTypes(a: string, b: string) {
    a == b || (ToOCI(a) != "" && ToOCI(a) == ToOCI(b))
  }

  /** A media type's class under Docker/OCI conversion: its OCI counterpart
      when it has one, otherwise the media type itself. */
  function MediaClass(mt: string): string {
    if ToOCI(mt) != "" then ToOCI(mt) else mt
  }

  /** Both descriptors point at the same content-addressed object: `Same` is
      equality of the key (digest, size, media-type class). */
  function Same(a: Descriptor, b: Descriptor): (r: bool)
    ensures r <==> (a.digest, a.size, MediaClass(a.mediaType)) == (b.digest, b.size, MediaClass(b.mediaType))
  {
    a.digest == b.digest && a.size == b.size && ConvertibleMediaTypes(a.mediaType, b.mediaType)
  }

  /** Both lists are absent, or both present with the same elements. */
  predicate SameUrls(a: Option<seq<string>>, b: Option<seq<string>>) {
    a.None? == b.None? &&
    (a.Some? ==> (forall u | u in a.value :: u in b.value) && (forall u | u in b.value :: u in a.value))
  }

  /** The two descriptors agree on every field; an absent optional field differs
      from a present one. The preferred digest algorithm is not compared. */
  function Equal(a: Descriptor, b: Descriptor): (r: bool)
    ensures r ==> Same(a, b)
    ensures r ==> a.mediaType == b.mediaType && a.artifactType == b.artifactType
    ensures r ==> a.platform == b.platform && a.annotations == b.annotations && a.data == b.data
    ensures a.(digestAlgo := None) == b.(digestAlgo := None) ==> r
  {
    Same(a, b) && a.mediaType == b.mediaType && a.artifactType == b.artifactType &&
    a.platform == b.platform && a.annotations == b.annotations &&
    SameUrls(a.urls, b.urls) && a.data == b.data
  }

  /** Both relations are equivalences. */
  lemma SameAndEqualAreEquivalences(a: Descriptor, b: Descriptor, c: Descriptor)
    ensures Same(a, a) && Equal(a, a)
    ensures Same(a, b) ==> Same(b, a)
    ensures Equal(a, b) ==> Equal(b, a)
    ensures Same(a, b) && Same(b, c) ==> Same(a, c)
    ensures Equal(a, b) && Equal(b, c) ==> Equal(a, c)
  {
  }

  /** A different size or digest breaks both relations. */
  lemma SizeOrDigestDiffers(a: Descriptor, b: Descriptor)
    requires a.size != b.size || a.digest != b.digest
    ensures !Same(a, b) && !Equal(a, b)
  {
  }

  /** Relabelling with a Docker/OCI counterpart media type keeps the content
      identity and, when the label changes, breaks equality. */
  lemma ConvertedMediaType(d: Descriptor, mt: string)
    requires ToOCI(d.mediaType) != "" && ToOCI(mt) == ToOCI(d.mediaType)
    ensures Same(d, d.(mediaType := mt))
    ensures mt != d.mediaType ==> !Equal(d, d.(mediaType := mt))
  {
  }

  /** Changing annotations, urls, platform or artifact type keeps `Same`; the
      result is still `Equal` exactly when none of them really changed. */
  lemma MetadataChange(d: Descriptor, annotations: Option<map<string, string>>, urls: Option<seq<string>>,
                       platform: Option<Platform>, artifactType: string)
    ensures var d' := d.(annotations := annotations, urls := urls, platform := platform, artifactType := artifactType);
      Same(d, d') &&
      (Equal(d, d') <==> annotations == d.annotations && SameUrls(d.urls, urls) &&
                         platform == d.platform && artifactType == d.artifactType)
  {
  }

  function Manifest(mt: string, size: int, digest: string): Descriptor {
    Empty.(mediaType := mt, size := size, digest := digest)
  }

  /** The comparison table: the expected `Equal` and `Same` of each pair. */
  lemma CompareCases(digA: string, digB: string)
    requires digA != digB
    ensures var m := Manifest(Docker2Manifest, 1234, digA);
      && Equal(Empty, Empty) && Same(Empty, Empty)
      && !Equal(Empty, m) && !Same(Empty, m) && !Equal(m, Empty) && !Same(m, Empty)
      && Equal(m, m) && Same(m, m)
      && !Equal(m, Manifest(OCI1Manifest, 1234, digA)) && Same(m, Manifest(OCI1Manifest, 1234, digA))
      && !Equal(m, Manifest(Docker2ManifestList, 1234, digA)) && !Same(m, Manifest(Docker2ManifestList, 1234, digA))
      && !Equal(m, Manifest(Docker2Manifest, 4321, digA)) && !Same(m, Manifest(Docker2Manifest, 4321, digA))
      && !Equal(m, Manifest(Docker2Manifest, 1234, digB)) && !Same(m, Manifest(Docker2Manifest, 1234, digB))
      && Equal(m.(annotations := Some(map["key a" := "value a", "key b" := "value b"])),
               m.(annotations := Some(map["key b" := "value b", "key a" := "value a"])))
      && !Equal(m.(annotations := Some(map["key a" := "value a"])), m)
      && Same(m.(annotations := Some(map["key a" := "value a"])), m)
      && !Equal(m.(urls := Some(["url a", "url b"])), m.(urls := Some(["url c", "url d"])))
      && Same(m.(urls := Some(["url a", "url b"])), m.(urls := Some(["url c", "url d"])))
      && !Equal(m.(platform := Some(Platform("linux", "amd64", "", "", []))),
                m.(platform := Some(Platform("linux", "arm64", "", "", []))))
      && !Equal(m.(artifactType := "application/vnd.example.test"), m)
  {
    var m := Manifest(Docker2Manifest, 1234, digA);
    assert "url a" !in ["url c", "url d"];
    assert "key a" != "key b";
    assert map["key a" := "value a", "key b" := "value b"] == map["key b" := "value b", "key a" := "value a"];
    assert ToOCI(Docker2Manifest) != ToOCI(Docker2ManifestList);
  }

  /** The remaining metadata rows of the comparison table: each pair is `Same`,
      and `Equal` exactly when the metadata agrees. */
  lemma MetadataCompareCases(digA: string)
    ensures var m := Manifest(Docker2Manifest, 1234, digA);
      var ab, cd := Some(map["key a" := "value a", "key b" := "value b"]), Some(map["key a" := "value c", "key d" := "value b"]);
      var linux, arm := Some(Platform("linux", "amd64", "", "", [])), Some(Platform("linux", "arm64", "", "", []));
      && !Equal(m.(annotations := ab), m.(annotations := cd)) && Same(m.(annotations := ab), m.(annotations := cd))
      && Equal(m.(urls := Some(["url a", "url b"])), m.(urls := Some(["url a", "url b"])))
      && !Equal(m.(urls := Some(["url a", "url b"])), m) && Same(m.(urls := Some(["url a", "url b"])), m)
      && Equal(m.(platform := linux), m.(platform := linux))
      && Same(m.(platform := linux), m.(platform := arm))
      && !Equal(m.(platform := linux), m) && Same(m.(platform := linux), m)
      && Equal(m.(artifactType := "application/vnd.example.test"), m.(artifactType := "application/vnd.example.test"))
      && !Equal(m.(artifactType := "application/vnd.example.test"), m.(artifactType := "application/vnd.example.test2"))
      && Same(m.(artifactType := "application/vnd.example.test"), m.(artifactType := "application/vnd.example.test2"))
      && Same(m.(artifactType := "application/vnd.example.test"), m)
  {
    var ab, cd := map["key a" := "value a", "key b" := "value b"], map["key a" := "value c", "key d" := "value b"];
    assert "key b" in ab && "key b" !in cd;
    assert |"application/vnd.example.test"| != |"application/vnd.example.test2"|;
  }

  /** The algorithm of the digest when it parses; otherwise the preferred
      algorithm when one was set, else the canonical one. */
  function DigestAlgo(d: Descriptor): (a: Algorithm)
    ensures Valid(d.digest) ==> a == AlgorithmOf(d.digest)
    ensures !Valid(d.digest) && d.digestAlgo.None? ==> a == Canonical
    ensures !Valid(d.digest) && d.digestAlgo.Some? ==> a == d.digestAlgo.value
    ensures Valid(d.digest) ==> exists e :: d.digest == Compose(a, e) && |e| == EncodedLength(a) && IsLowerHex(e)
  {
    if Valid(d.digest) then AlgorithmOf(d.digest)
    else if d.digestAlgo.Some? then d.digestAlgo.value
    else Canonical
  }

  /** A preference never overrides the algorithm of a valid digest, and always
      decides it for an empty or malformed one. */
  lemma PreferenceOnlyForUnparsable(d: Descriptor, p: Algorithm)
    ensures Valid(d.digest) ==> DigestAlgo(d.(digestAlgo := Some(p))) == DigestAlgo(d)
    ensures !Valid(d.digest) ==> DigestAlgo(d.(digestAlgo := Some(p))) == p
  {
  }

  /** The digest-algorithm table: valid digests give their own algorithm,
      empty and malformed ones the canonical algorithm. */
  lemma DigestAlgoCases(h256: string, h512: string)
    requires |h256| == 64 && IsLowerHex(h256) && |h512| == 128 && IsLowerHex(h512)
    ensures DigestAlgo(Empty) == Canonical == SHA256
    ensures DigestAlgo(Empty.(digest := Compose(SHA256, h256))) == SHA256
    ensures DigestAlgo(Empty.(digest := Compose(SHA512, h512))) == SHA512
    ensures DigestAlgo(Empty.(digest := "sha512:1234")) == Canonical
    ensures DigestAlgo(Empty.(digest := "unknown")) == Canonical
    ensures DigestAlgo(Empty.(digest := "sha123:123412341234")) == Canonical
    ensures DigestAlgo(Empty.(digestAlgo := Some(SHA512))) == SHA512
    ensures DigestAlgo(Empty.(digest := Compose(SHA256, h256), digestAlgo := Some(SHA512))) == SHA256
  {
    ParseCompose(SHA256, h256);
    ParseCompose(SHA512, h512);
    assert "sha512:1234"[..6] == "sha512";
    assert "sha123:123412341234"[..6] == "sha123";
  }

  /** A hash function that yields a lower-case hex string of the algorithm's length. */
  ghost predicate WellFormedHasher(hash: (Algorithm, seq<byte>) -> string) {
    forall a, b :: |hash(a, b)| == EncodedLength(a) && IsLowerHex(hash(a, b))
  }

  /** The embedded data, after checking it is present, has the declared size and
      hashes (under the descriptor's algorithm) to the declared digest. */
  function GetData(d: Descriptor, hash: (Algorithm, seq<byte>) -> string): (r: Result<seq<byte>, DescriptorError>)
    ensures r.Success? ==> d.data == Some(r.value)
    ensures r.Success? <==> d.data.Some? && |d.data.value| == d.size &&
                            d.digest == Compose(DigestAlgo(d), hash(DigestAlgo(d), d.data.value))
    ensures r.Failure? ==> r.error == ParsingFailed
    ensures WellFormedHasher(hash) ==>
      (r.Success? <==> d.data.Some? && |d.data.value| == d.size &&
                       exists a: Algorithm :: d.digest == Compose(a, hash(a, d.data.value)))
  {
    if d.data.None? then Failure(ParsingFailed)
    else if |d.data.value| != d.size then Failure(ParsingFailed)
    else
      ComposedDigestAlgo(d, d.data.value, hash);
      if d.digest != Compose(DigestAlgo(d), hash(DigestAlgo(d), d.data.value)) then Failure(ParsingFailed)
      else Success(d.data.value)
  }

  /** A digest that composes some algorithm with that algorithm's hash of the
      data names that algorithm, whatever the stored preference. */
  lemma ComposedDigestAlgo(d: Descriptor, bytes: seq<byte>, hash: (Algorithm, seq<byte>) -> string)
    ensures WellFormedHasher(hash) ==>
      forall a: Algorithm | d.digest == Compose(a, hash(a, bytes)) :: DigestAlgo(d) == a
  {
    if WellFormedHasher(hash) {
      forall a: Algorithm | d.digest == Compose(a, hash(a, bytes))
        ensures DigestAlgo(d) == a
      {
        ParseCompose(a, hash(a, bytes));
      }
    }
  }

  /** A descriptor built from bytes, their length and their digest returns exactly those bytes. */
  lemma GetDataRoundTrip(d: Descriptor, bytes: seq<byte>, a: Algorithm, hash: (Algorithm, seq<byte>) -> string)
    requires WellFormedHasher(hash)
    requires d.data == Some(bytes) && d.size == |bytes| && d.digest == Compose(a, hash(a, bytes))
    ensures GetData(d, hash) == Success(bytes)
  {
    ParseCompose(a, hash(a, bytes));
  }

  /** A descriptor whose digest names a valid hash other than that of its data is rejected. */
  lemma GetDataRejectsWrongDigest(d: Descriptor, bytes: seq<byte>, a: Algorithm, other: string, hash: (Algorithm, seq<byte>) -> string)
    requires WellFormedHasher(hash)
    requires |other| == EncodedLength(a) && IsLowerHex(other) && other != hash(a, bytes)
    requires d.data == Some(bytes) && d.size == |bytes| && d.digest == Compose(a, other)
    ensures GetData(d, hash) == Failure(ParsingFailed)
  {
    ParseCompose(a, other);
    assert d.digest[|Name(a)| + 1..] == other;
    assert Compose(a, hash(a, bytes))[|Name(a)| + 1..] == hash(a, bytes);
  }

  /** A descriptor variable: `DigestAlgoPrefer` updates the descriptor it is called on. */
  class MutableDescriptor {
    var value: Descriptor

    constructor (d: Descriptor)
      ensures value == d
    {
      value := d;
    }

    /** Records a preferred algorithm for an empty or malformed digest; an
        unregistered algorithm is refused and nothing changes. */
    method DigestAlgoPrefer(algo: string) returns (err: Option<DescriptorError>)
      modifies this
      ensures LookupAlgorithm(algo).None? ==> err == Some(Unsupported) && value == old(value)
      ensures LookupAlgorithm(algo).Some? ==> err == None && value == old(value).(digestAlgo := LookupAlgorithm(algo))
    {
      var a := LookupAlgorithm(algo);
      if a.None? {
        return Some(Unsupported);
      }
      value := value.(digestAlgo := a);
      err := None;
    }
  }

  /** The accepted-preference rows of the digest-algorithm table, driven through the mutable descriptor. */
  method DigestAlgoPreferCases(h256: string)
    requires |h256| == 64 && IsLowerHex(h256)
  {
    ParseCompose(SHA256, h256);
    assert LookupAlgorithm("sha512") == Some(SHA512);
    assert !Valid("");
    var d := new MutableDescriptor(Empty);
    var err := d.DigestAlgoPrefer("sha512");
    assert err == None && DigestAlgo(d.value) == SHA512;

    d := new MutableDescriptor(Empty.(digest := Compose(SHA256, h256)));
    err := d.DigestAlgoPrefer("sha512");
    assert err == None && DigestAlgo(d.value) == SHA256;
  }

  /** The rows of the digest-algorithm table whose preference is refused. */
  method DigestAlgoRefusedCases()
  {
    assert LookupAlgorithm("invalid") == None;
    assert !Valid("");
    var d := new MutableDescriptor(Empty);
    var err := d.DigestAlgoPrefer("invalid");
    assert err == Some(Unsupported) && DigestAlgo(d.value) == Canonical;

    d := new MutableDescriptor(Empty.(digest := "sha512:1234"));
    err := d.DigestAlgoPrefer("invalid");
    assert "sha512:1234"[..6] == "sha512";
    assert err == Some(Unsupported) && DigestAlgo(d.value) == Canonical;
  }
}
