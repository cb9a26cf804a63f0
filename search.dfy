/** Selecting one descriptor out of a list (the entries of a manifest list)
    under a match specification: artifact type, annotation subset, platform with
    an exact match preferred over a compatible one, and an optional annotation
    sort key. */
module DescriptorSearch {
  import opened Wrappers
  import opened Seqs
  import opened Descriptors

  /** A selection specification; "" and `None` mean "not set". */
  datatype MatchOpt = MatchOpt(
    platform: Option<Platform>,
    annotations: Option<map<string, string>>,
    artifactType: string,
    sortAnnotation: string,
    sortDesc: bool)

  const NoOpt: MatchOpt := MatchOpt(None, None, "", "", false)

  function AnnotationsOf(m: Option<map<string, string>>): map<string, string> {
    if m.Some? then m.value else map[]
  }

  /** `orig` refined by `changes`: every field `changes` sets overrides, every
      field it leaves unset is kept, and annotation constraints are unioned with
      `changes` winning on a shared key. */
  function Merge(orig: MatchOpt, changes: MatchOpt): (r: MatchOpt)
    ensures r.artifactType == if changes.artifactType != "" then changes.artifactType else orig.artifactType
    ensures r.platform == if changes.platform.Some? then changes.platform else orig.platform
    ensures r.sortAnnotation == if changes.sortAnnotation != "" then changes.sortAnnotation else orig.sortAnnotation
    ensures r.sortDesc <==> orig.sortDesc || changes.sortDesc
    ensures r.annotations.Some? <==> orig.annotations.Some? || changes.annotations.Some?
    ensures AnnotationsOf(r.annotations).Keys == AnnotationsOf(orig.annotations).Keys + AnnotationsOf(changes.annotations).Keys
    ensures forall k | k in AnnotationsOf(changes.annotations) :: AnnotationsOf(r.annotations)[k] == AnnotationsOf(changes.annotations)[k]
    ensures forall k | k in AnnotationsOf(orig.annotations) && k !in AnnotationsOf(changes.annotations) ::
              AnnotationsOf(r.annotations)[k] == AnnotationsOf(orig.annotations)[k]
  {
    MatchOpt(
      if changes.platform.Some? then changes.platform else orig.platform,
      if changes.annotations.None? then orig.annotations
      else if orig.annotations.None? then changes.annotations
      else Some(orig.annotations.value + changes.annotations.value),
      if changes.artifactType != "" then changes.artifactType else orig.artifactType,
      if changes.sortAnnotation != "" then changes.sortAnnotation else orig.sortAnnotation,
      orig.sortDesc || changes.sortDesc)
  }

  /** The empty specification is a two-sided identity of `Merge`. */
  lemma MergeIdentity(opt: MatchOpt)
    ensures Merge(opt, NoOpt) == opt
    ensures Merge(NoOpt, opt) == opt
  {
  }

  /** Refining in steps is the same as refining by the merged steps. */
  lemma MergeAssociative(a: MatchOpt, b: MatchOpt, c: MatchOpt)
    ensures Merge(Merge(a, b), c) == Merge(a, Merge(b, c))
  {
    if a.annotations.Some? && b.annotations.Some? && c.annotations.Some? {
      var x, y, z := a.annotations.value, b.annotations.value, c.annotations.value;
      assert (x + y) + z == x + (y + z);
    }
  }

  /** Merging a specification into itself changes nothing. */
  lemma MergeIdempotent(opt: MatchOpt)
    ensures Merge(opt, opt) == opt
  {
    if opt.annotations.Some? {
      assert opt.annotations.value + opt.annotations.value == opt.annotations.value;
    }
  }

  /** The merge table: each step adds one kind of constraint and keeps the rest. */
  lemma MergeCases()
    ensures Merge(NoOpt, NoOpt) == NoOpt
    ensures Merge(NoOpt, NoOpt.(artifactType := "application/vnd.example.artifact")).artifactType == "application/vnd.example.artifact"
    ensures var linux := Some(Platform("linux", "amd64", "", "", []));
      var a := NoOpt.(artifactType := "application/vnd.example.artifact");
      var b := a.(platform := linux);
      var c := b.(annotations := Some(map["annotation1" := "value1", "annotation2" := "value2"]));
      var d := c.(sortAnnotation := "annotationSort", sortDesc := true);
      && Merge(a, NoOpt.(platform := linux)) == b
      && Merge(b, NoOpt.(annotations := c.annotations)) == c
      && Merge(c, NoOpt.(sortAnnotation := "annotationSort", sortDesc := true)) == d
      && Merge(d, NoOpt.(annotations := Some(map["annotation3" := "value3"]))) ==
           d.(annotations := Some(map["annotation1" := "value1", "annotation2" := "value2", "annotation3" := "value3"]))
  {
    assert map["annotation1" := "value1", "annotation2" := "value2"] + map["annotation3" := "value3"] ==
           map["annotation1" := "value1", "annotation2" := "value2", "annotation3" := "value3"];
    assert map[] + map["annotation1" := "value1", "annotation2" := "value2"] ==
           map["annotation1" := "value1", "annotation2" := "value2"];
  }

  // ---- matching ----

  /** Every constrained annotation is present on the candidate with the same value. */
  predicate AnnotationsMatch(want: Option<map<string, string>>, have: Option<map<string, string>>) {
    forall k | k in AnnotationsOf(want) :: k in AnnotationsOf(have) && AnnotationsOf(have)[k] == AnnotationsOf(want)[k]
  }

  /** Same OS, architecture and variant. */
  predicate ExactPlatform(want: Platform, have: Platform) {
    want.os == have.os && want.architecture == have.architecture && want.variant == have.variant
  }

  /** The facts the platform-compatibility table must satisfy: exact matches are
      compatible, a darwin request runs linux images of its architecture, and
      neither a darwin nor a linux request accepts a windows image. */
  ghost predicate CompatWellFormed(compat: (Platform, Platform) -> bool) {
    && (forall want: Platform, have: Platform :: ExactPlatform(want, have) ==> compat(want, have))
    && (forall want: Platform, have: Platform ::
          (want.os == "darwin" && have.os == "linux" && want.architecture == have.architecture &&
           want.variant == have.variant) ==> compat(want, have))
    && (forall want: Platform, have: Platform ::
          ((want.os == "darwin" || want.os == "linux") && have.os == "windows") ==> !compat(want, have))
  }

  /** The candidate satisfies the artifact-type, annotation and platform constraints;
      when a platform is requested, a candidate without one never matches. */
  predicate Matches(d: Descriptor, opt: MatchOpt, compat: (Platform, Platform) -> bool) {
    && (opt.artifactType == "" || d.artifactType == opt.artifactType)
    && AnnotationsMatch(opt.annotations, d.annotations)
    && (opt.platform.Some? ==> d.platform.Some? && compat(opt.platform.value, d.platform.value))
  }

  predicate IsExact(d: Descriptor, want: Platform) {
    d.platform.Some? && ExactPlatform(want, d.platform.value)
  }

  function MatchesOpt(opt: MatchOpt, compat: (Platform, Platform) -> bool): Descriptor -> bool {
    d => Matches(d, opt, compat)
  }

  function ExactFor(want: Platform): Descriptor -> bool {
    d => IsExact(d, want)
  }

  /** Some matching entry has exactly the requested platform. */
  predicate ExactExists(dl: seq<Descriptor>, opt: MatchOpt, compat: (Platform, Platform) -> bool) {
    opt.platform.Some? && exists d | d in dl :: Matches(d, opt, compat) && IsExact(d, opt.platform.value)
  }

  /** The matching entries, in list order. */
  function Candidates(dl: seq<Descriptor>, opt: MatchOpt, compat: (Platform, Platform) -> bool): seq<Descriptor> {
    Filter(dl, MatchesOpt(opt, compat))
  }

  /** The entries the result is chosen from: the exact-platform candidates when
      there are any, otherwise all candidates. */
  function Pool(dl: seq<Descriptor>, opt: MatchOpt, compat: (Platform, Platform) -> bool): (r: seq<Descriptor>)
    ensures forall d | d in r :: d in dl && Matches(d, opt, compat)
    ensures ExactExists(dl, opt, compat) ==> forall d | d in r :: IsExact(d, opt.platform.value)
    ensures r == [] <==> forall d | d in dl :: !Matches(d, opt, compat)
  {
    var c := Candidates(dl, opt, compat);
    if opt.platform.Some? && Filter(c, ExactFor(opt.platform.value)) != [] then
      var e := Filter(c, ExactFor(opt.platform.value));
      assert e[0] in e;
      e
    else
      assert c != [] ==> c[0] in c;
      c
  }

  // ---- sorting on an annotation ----

  /** Byte-wise string order (code-point order equals UTF-8 byte order). */
  predicate StrLess(a: string, b: string) {
    if a == [] then b != []
    else if b == [] then false
    else if a[0] != b[0] then a[0] < b[0]
    else StrLess(a[1..], b[1..])
  }

  lemma {:induction false} StrLessIrreflexive(a: string)
    ensures !StrLess(a, a)
  {
    if a != [] { StrLessIrreflexive(a[1..]); }
  }

  lemma {:induction false} StrLessTransitive(a: string, b: string, c: string)
    requires StrLess(a, b) && StrLess(b, c)
    ensures StrLess(a, c)
  {
    if a != [] && b != [] && c != [] && a[0] == b[0] && b[0] == c[0] {
      StrLessTransitive(a[1..], b[1..], c[1..]);
    }
  }

  lemma {:induction false} StrLessTotal(a: string, b: string)
    ensures a == b || StrLess(a, b) || StrLess(b, a)
  {
    if a != [] && b != [] && a[0] == b[0] {
      StrLessTotal(a[1..], b[1..]);
      if a[1..] == b[1..] {
        assert a == [a[0]] + a[1..] && b == [b[0]] + b[1..];
      }
    }
  }

  /** Strings that agree up to position `i` and differ there are ordered by that position. */
  lemma {:induction false} StrLessAt(a: string, b: string, i: nat)
    requires i < |a| && i < |b| && a[..i] == b[..i] && a[i] < b[i]
    ensures StrLess(a, b)
  {
    if i > 0 {
      assert a[0] == a[..i][0] == b[..i][0] == b[0];
      assert a[1..][..i - 1] == a[..i][1..] == b[..i][1..] == b[1..][..i - 1];
      StrLessAt(a[1..], b[1..], i - 1);
    }
  }

  predicate HasKey(d: Descriptor, key: string) {
    d.annotations.Some? && key in d.annotations.value
  }

  /** `a` sorts strictly before `b` on annotation `key`: entries that carry the
      key come before entries that lack it, in either direction. */
  predicate Before(a: Descriptor, b: Descriptor, key: string, desc: bool) {
    HasKey(a, key) &&
    (!HasKey(b, key) ||
     (if desc then StrLess(b.annotations.value[key], a.annotations.value[key])
      else StrLess(a.annotations.value[key], b.annotations.value[key])))
  }

  lemma BeforeAsymmetric(a: Descriptor, b: Descriptor, key: string, desc: bool)
    requires Before(a, b, key, desc)
    ensures !Before(b, a, key, desc)
  {
    if HasKey(b, key) {
      var x, y := a.annotations.value[key], b.annotations.value[key];
      if StrLess(x, y) && StrLess(y, x) { StrLessTransitive(x, y, x); StrLessIrreflexive(x); }
    }
  }

  /** "Does not sort before" is transitive, so a best entry exists. */
  lemma NotBeforeTransitive(x: Descriptor, y: Descriptor, z: Descriptor, key: string, desc: bool)
    requires !Before(x, y, key, desc) && !Before(y, z, key, desc)
    ensures !Before(x, z, key, desc)
  {
    if Before(x, z, key, desc) && HasKey(y, key) && HasKey(z, key) {
      var vx, vy, vz := x.annotations.value[key], y.annotations.value[key], z.annotations.value[key];
      StrLessTotal(vx, vy);
      StrLessTotal(vy, vz);
      if desc {
        if StrLess(vy, vx) {} else if vx == vy {} else { StrLessTransitive(vz, vx, vy); }
      } else {
        if StrLess(vx, vy) {} else if vx == vy {} else { StrLessTransitive(vy, vx, vz); }
      }
    }
  }

  lemma NotBeforeAll(s: seq<Descriptor>, y: Descriptor, z: Descriptor, key: string, desc: bool)
    requires forall x | x in s :: !Before(x, y, key, desc)
    requires !Before(y, z, key, desc)
    ensures forall x | x in s :: !Before(x, z, key, desc)
  {
    forall x | x in s ensures !Before(x, z, key, desc) {
      NotBeforeTransitive(x, y, z, key, desc);
    }
  }

  /** The earliest entry that no other entry sorts before. */
  function Best(s: seq<Descriptor>, key: string, desc: bool): (r: Descriptor)
    requires s != []
    ensures r in s
    ensures forall x | x in s :: !Before(x, r, key, desc)
    decreases |s|
  {
    if |s| == 1 then
      assert !Before(s[0], s[0], key, desc) by {
        if Before(s[0], s[0], key, desc) { BeforeAsymmetric(s[0], s[0], key, desc); }
      }
      s[0]
    else
      var b := Best(s[1..], key, desc);
      assert forall x | x in s :: x == s[0] || x in s[1..];
      if Before(b, s[0], key, desc) then
        BeforeAsymmetric(b, s[0], key, desc);
        b
      else
        NotBeforeAll(s[1..], b, s[0], key, desc);
        assert !Before(s[0], s[0], key, desc) by {
          if Before(s[0], s[0], key, desc) { BeforeAsymmetric(s[0], s[0], key, desc); }
        }
        s[0]
  }

  // ---- the search ----

  /** The selected entry: from the pool, the first one, or with a sort key the
      best one; `NotFound` when nothing matches. */
  function ListSearch(dl: seq<Descriptor>, opt: MatchOpt, compat: (Platform, Platform) -> bool): (r: Result<Descriptor, DescriptorError>)
    ensures r.Failure? <==> forall d | d in dl :: !Matches(d, opt, compat)
    ensures r.Failure? ==> r.error == NotFound
    ensures r.Success? ==> r.value in dl && Matches(r.value, opt, compat)
    ensures r.Success? && ExactExists(dl, opt, compat) ==> IsExact(r.value, opt.platform.value)
    ensures r.Success? ==> r.value in Pool(dl, opt, compat)
    ensures r.Success? && opt.sortAnnotation != "" ==>
              forall d | d in Pool(dl, opt, compat) :: !Before(d, r.value, opt.sortAnnotation, opt.sortDesc)
  {
    var pool := Pool(dl, opt, compat);
    if pool == [] then Failure(NotFound)
    else if opt.sortAnnotation == "" then
      assert pool[0] in pool;
      Success(pool[0])
    else Success(Best(pool, opt.sortAnnotation, opt.sortDesc))
  }

  /** Without a sort key the result is the first entry in list order that
      matches (and, when an exact platform match exists, matches exactly). */
  lemma SearchFirstInOrder(dl: seq<Descriptor>, opt: MatchOpt, compat: (Platform, Platform) -> bool)
    requires opt.sortAnnotation == "" && ListSearch(dl, opt, compat).Success?
    ensures var r := ListSearch(dl, opt, compat).value;
      exists i | 0 <= i < |dl| ::
        && dl[i] == r
        && (forall j | 0 <= j < i ::
              !(Matches(dl[j], opt, compat) && (ExactExists(dl, opt, compat) ==> IsExact(dl[j], opt.platform.value))))
  {
    var pool := Pool(dl, opt, compat);
    assert ListSearch(dl, opt, compat).value == pool[0];
    var keep := PoolAsFilter(dl, opt, compat);
    FilterFirst(dl, keep);
  }

  /** Conversely, without a sort key the first entry in list order that
      qualifies is the result. */
  lemma SearchPicksFirst(dl: seq<Descriptor>, opt: MatchOpt, compat: (Platform, Platform) -> bool, i: nat)
    requires opt.sortAnnotation == "" && i < |dl|
    requires Matches(dl[i], opt, compat) && (ExactExists(dl, opt, compat) ==> IsExact(dl[i], opt.platform.value))
    requires forall j | 0 <= j < i ::
               !(Matches(dl[j], opt, compat) && (ExactExists(dl, opt, compat) ==> IsExact(dl[j], opt.platform.value)))
    ensures ListSearch(dl, opt, compat) == Success(dl[i])
  {
    var keep := PoolAsFilter(dl, opt, compat);
    FilterAt(dl, keep, i);
  }

  /** Conversely, with a sort key and no platform constraint, an entry that
      matches and sorts before every other match is the result. */
  lemma SearchPicksBest(dl: seq<Descriptor>, opt: MatchOpt, compat: (Platform, Platform) -> bool, w: Descriptor)
    requires opt.sortAnnotation != "" && opt.platform.None?
    requires w in dl && Matches(w, opt, compat)
    requires forall d | d in dl && Matches(d, opt, compat) && d != w :: Before(w, d, opt.sortAnnotation, opt.sortDesc)
    ensures ListSearch(dl, opt, compat) == Success(w)
  {
    assert w in Pool(dl, opt, compat);
  }

  /** The pool is the list filtered by one predicate: "matches, and matches the
      platform exactly when some entry does". */
  lemma PoolAsFilter(dl: seq<Descriptor>, opt: MatchOpt, compat: (Platform, Platform) -> bool)
    returns (keep: Descriptor -> bool)
    ensures Pool(dl, opt, compat) == Filter(dl, keep)
    ensures forall x :: keep(x) <==> Matches(x, opt, compat) && (ExactExists(dl, opt, compat) ==> IsExact(x, opt.platform.value))
  {
    var m := MatchesOpt(opt, compat);
    keep := m;
    if ExactExists(dl, opt, compat) {
      var e := ExactFor(opt.platform.value);
      var d :| d in dl && Matches(d, opt, compat) && IsExact(d, opt.platform.value);
      assert d in Filter(Candidates(dl, opt, compat), e);
      FilterFilter(dl, m, e);
      keep := Both(m, e);
    } else if opt.platform.Some? {
      var c := Candidates(dl, opt, compat);
      assert forall x | x in c :: !ExactFor(opt.platform.value)(x);
      FilterNone(c, ExactFor(opt.platform.value));
    }
  }

  /** With a sort key, an entry carrying the key wins over entries lacking it,
      and its value is the least (ascending) or greatest (descending) among the
      pool entries that carry the key. */
  lemma SearchSortExtremum(dl: seq<Descriptor>, opt: MatchOpt, compat: (Platform, Platform) -> bool)
    requires opt.sortAnnotation != "" && ListSearch(dl, opt, compat).Success?
    ensures var r, key := ListSearch(dl, opt, compat).value, opt.sortAnnotation;
      && ((exists d | d in Pool(dl, opt, compat) :: HasKey(d, key)) ==> HasKey(r, key))
      && forall d | d in Pool(dl, opt, compat) && HasKey(d, key) ::
           var v, w := r.annotations.value[key], d.annotations.value[key];
           v == w || (if opt.sortDesc then StrLess(w, v) else StrLess(v, w))
  {
    var r, key := ListSearch(dl, opt, compat).value, opt.sortAnnotation;
    forall d | d in Pool(dl, opt, compat) && HasKey(d, key)
      ensures HasKey(r, key)
      ensures var v, w := r.annotations.value[key], d.annotations.value[key];
                v == w || (if opt.sortDesc then StrLess(w, v) else StrLess(v, w))
    {
      assert !Before(d, r, key, opt.sortDesc);
      StrLessTotal(r.annotations.value[key], d.annotations.value[key]);
    }
  }

  /** An artifact-type search that also names a platform finds nothing when no
      entry of that artifact type has a platform. */
  lemma SearchNeedsPlatform(dl: seq<Descriptor>, opt: MatchOpt, compat: (Platform, Platform) -> bool)
    requires opt.platform.Some? && opt.artifactType != ""
    requires forall d | d in dl && d.artifactType == opt.artifactType :: d.platform.None?
    ensures ListSearch(dl, opt, compat) == Failure(NotFound)
  {
  }

  // ---- the search table ----

  const TestDigest: string := "sha256:e3b0c44298fc1c149afbf4c8996fb92427ae41e4649b934ca495991b7852b855"

  function Entry(platform: Option<Platform>, annotations: Option<map<string, string>>, artifactType: string): Descriptor {
    Descriptor(OCI1Manifest, 12345, TestDigest, None, platform, annotations, artifactType, None, None)
  }

  function Plat(os: string, architecture: string): Platform {
    Platform(os, architecture, "", "", [])
  }

  const DAmd64: Descriptor := Entry(Some(Plat("linux", "amd64")), None, "")
  const DAmd64Win: Descriptor := Entry(Some(Plat("windows", "amd64")), None, "")
  const DArm64: Descriptor := Entry(Some(Plat("linux", "arm64")), None, "")
  const DAnnotations: Descriptor := Entry(Some(Plat("linux", "amd64")),
    Some(map["runtime" := "special runtime", "version" := "1.2.3", "date" := "2022-01-01 12:34:56"]), "")
  const DAnnotations2: Descriptor := Entry(Some(Plat("linux", "amd64")),
    Some(map["runtime" := "special runtime", "version" := "1.3.0", "date" := "2022-04-01 01:02:03"]), "")
  const ArtifactType: string := "application/example.artifact"
  const Date1: string := "2022-01-01 12:34:56"
  const Date2: string := "2022-04-01 01:02:03"
  const Date3: string := "2022-02-28 02:04:08"
  const DArtifact: Descriptor := Entry(None, Some(map["version" := "1.2.3", "date" := Date1]), ArtifactType)
  const DArtifact2: Descriptor := Entry(None, Some(map["version" := "1.2.9", "date" := Date2, "unique" := "x"]), ArtifactType)
  const DArtifact3: Descriptor := Entry(None, Some(map["version" := "1.3.0", "date" := Date3]), ArtifactType)

  const TestList: seq<Descriptor> :=
    [DAmd64, DArm64, DAmd64Win, DAnnotations, DAnnotations2, DArtifact, DArtifact2, DArtifact3]

  /** Platform rows: an exact match is taken first, and a darwin request falls
      back to the first compatible linux entry. */
  lemma SearchLinuxCase(compat: (Platform, Platform) -> bool)
    requires CompatWellFormed(compat)
    ensures ListSearch(TestList, NoOpt.(platform := Some(Plat("linux", "amd64"))), compat) == Success(DAmd64)
  {
    var opt := NoOpt.(platform := Some(Plat("linux", "amd64")));
    assert TestList[0] == DAmd64 && Matches(DAmd64, opt, compat) && IsExact(DAmd64, opt.platform.value);
    SearchPicksFirst(TestList, opt, compat, 0);
  }

  lemma SearchDarwinCase(compat: (Platform, Platform) -> bool)
    requires CompatWellFormed(compat)
    ensures ListSearch(TestList, NoOpt.(platform := Some(Plat("darwin", "amd64"))), compat) == Success(DAmd64)
  {
    var opt := NoOpt.(platform := Some(Plat("darwin", "amd64")));
    forall d | d in TestList ensures !IsExact(d, opt.platform.value) {
      assert d.platform.None? || d.platform.value.os in {"linux", "windows"};
    }
    assert TestList[0] == DAmd64 && Matches(DAmd64, opt, compat);
    SearchPicksFirst(TestList, opt, compat, 0);
  }

  lemma SearchWindowsCase(compat: (Platform, Platform) -> bool)
    requires CompatWellFormed(compat)
    ensures ListSearch(TestList, NoOpt.(platform := Some(Plat("windows", "amd64"))), compat) == Success(DAmd64Win)
  {
    var opt := NoOpt.(platform := Some(Plat("windows", "amd64")));
    assert TestList[2] == DAmd64Win && Matches(DAmd64Win, opt, compat) && IsExact(DAmd64Win, opt.platform.value);
    assert !IsExact(TestList[0], opt.platform.value) && !IsExact(TestList[1], opt.platform.value);
    SearchPicksFirst(TestList, opt, compat, 2);
  }

  /** The annotation constraint is a subset test. */
  lemma SearchAnnotationCase(compat: (Platform, Platform) -> bool)
    requires CompatWellFormed(compat)
    ensures ListSearch(TestList, NoOpt.(platform := Some(Plat("linux", "amd64")),
                                        annotations := Some(map["runtime" := "special runtime"])), compat)
            == Success(DAnnotations)
  {
    var opt := NoOpt.(platform := Some(Plat("linux", "amd64")), annotations := Some(map["runtime" := "special runtime"]));
    assert TestList[3] == DAnnotations && Matches(DAnnotations, opt, compat) && IsExact(DAnnotations, opt.platform.value);
    forall j | 0 <= j < 3 ensures !Matches(TestList[j], opt, compat) {
      assert TestList[j].annotations.None?;
      assert "runtime" !in AnnotationsOf(TestList[j].annotations);
    }
    SearchPicksFirst(TestList, opt, compat, 3);
  }

  lemma SearchArtifactPlatformCase(compat: (Platform, Platform) -> bool)
    ensures ListSearch(TestList, NoOpt.(platform := Some(Plat("linux", "amd64")), artifactType := ArtifactType), compat)
            == Failure(NotFound)
  {
    SearchNeedsPlatform(TestList, NoOpt.(platform := Some(Plat("linux", "amd64")), artifactType := ArtifactType), compat);
  }

  /** The artifact rows: without a sort key the first artifact is chosen. */
  lemma SearchArtifactCase(compat: (Platform, Platform) -> bool)
    ensures ListSearch(TestList, NoOpt.(artifactType := ArtifactType, annotations := Some(map[])), compat)
            == Success(DArtifact)
  {
    var opt := NoOpt.(artifactType := ArtifactType, annotations := Some(map[]));
    assert TestList[5] == DArtifact && Matches(DArtifact, opt, compat);
    forall j | 0 <= j < 5 ensures !Matches(TestList[j], opt, compat) {
      assert TestList[j].artifactType == "";
    }
    SearchPicksFirst(TestList, opt, compat, 5);
  }

  /** The artifact entries are the only ones of that artifact type. */
  lemma ArtifactMatches(opt: MatchOpt, compat: (Platform, Platform) -> bool)
    requires opt.artifactType == ArtifactType && opt.platform.None? && opt.annotations == Some(map[])
    ensures forall d | d in TestList && Matches(d, opt, compat) :: d in {DArtifact, DArtifact2, DArtifact3}
    ensures Matches(DArtifact, opt, compat) && Matches(DArtifact2, opt, compat) && Matches(DArtifact3, opt, compat)
  {
  }

  /** The three artifact dates, oldest first: DArtifact, DArtifact3, DArtifact2. */
  lemma DateOrder()
    ensures StrLess(Date1, Date3) && StrLess(Date3, Date2) && StrLess(Date1, Date2)
  {
    assert Date1[..6] == Date3[..6];
    StrLessAt(Date1, Date3, 6);
    assert Date3[..6] == Date2[..6];
    StrLessAt(Date3, Date2, 6);
    StrLessTransitive(Date1, Date3, Date2);
  }

  /** Sorting on the date picks the oldest entry ascending ... */
  lemma SearchDateSortCase(compat: (Platform, Platform) -> bool)
    ensures ListSearch(TestList, NoOpt.(artifactType := ArtifactType, annotations := Some(map[]),
                                        sortAnnotation := "date"), compat)
            == Success(DArtifact)
  {
    var opt := NoOpt.(artifactType := ArtifactType, annotations := Some(map[]), sortAnnotation := "date");
    DateOrder();
    assert HasKey(DArtifact, "date") && DArtifact.annotations.value["date"] == Date1;
    assert HasKey(DArtifact2, "date") && DArtifact2.annotations.value["date"] == Date2;
    assert HasKey(DArtifact3, "date") && DArtifact3.annotations.value["date"] == Date3;
    assert Before(DArtifact, DArtifact2, "date", false);
    assert Before(DArtifact, DArtifact3, "date", false);
    ArtifactMatches(opt, compat);
    forall d | d in TestList && Matches(d, opt, compat) && d != DArtifact
      ensures Before(DArtifact, d, "date", false)
    {
      assert d == DArtifact2 || d == DArtifact3;
    }
    SearchPicksBest(TestList, opt, compat, DArtifact);
  }

  /** ... and the newest descending. */
  lemma SearchDateSortDescCase(compat: (Platform, Platform) -> bool)
    ensures ListSearch(TestList, NoOpt.(artifactType := ArtifactType, annotations := Some(map[]),
                                        sortAnnotation := "date", sortDesc := true), compat)
            == Success(DArtifact2)
  {
    var opt := NoOpt.(artifactType := ArtifactType, annotations := Some(map[]), sortAnnotation := "date", sortDesc := true);
    DateOrder();
    assert HasKey(DArtifact, "date") && DArtifact.annotations.value["date"] == Date1;
    assert HasKey(DArtifact2, "date") && DArtifact2.annotations.value["date"] == Date2;
    assert HasKey(DArtifact3, "date") && DArtifact3.annotations.value["date"] == Date3;
    assert Before(DArtifact2, DArtifact, "date", true);
    assert Before(DArtifact2, DArtifact3, "date", true);
    ArtifactMatches(opt, compat);
    forall d | d in TestList && Matches(d, opt, compat) && d != DArtifact2
      ensures Before(DArtifact2, d, "date", true)
    {
      assert d == DArtifact || d == DArtifact3;
    }
    SearchPicksBest(TestList, opt, compat, DArtifact2);
  }

  /** Entries lacking the sort key come last in either direction, with or
      without other constraints. */
  lemma SearchUniqueSortCase(compat: (Platform, Platform) -> bool)
    ensures ListSearch(TestList, NoOpt.(artifactType := ArtifactType, annotations := Some(map[]),
                                        sortAnnotation := "unique"), compat)
            == Success(DArtifact2)
    ensures ListSearch(TestList, NoOpt.(artifactType := ArtifactType, annotations := Some(map[]),
                                        sortAnnotation := "unique", sortDesc := true), compat)
            == Success(DArtifact2)
    ensures ListSearch(TestList, NoOpt.(sortAnnotation := "unique", sortDesc := true), compat)
            == Success(DArtifact2)
  {
    forall d | d in TestList && d != DArtifact2 ensures !HasKey(d, "unique") {}
    var asc := NoOpt.(artifactType := ArtifactType, annotations := Some(map[]), sortAnnotation := "unique");
    ArtifactMatches(asc, compat);
    SearchPicksBest(TestList, asc, compat, DArtifact2);
    ArtifactMatches(asc.(sortDesc := true), compat);
    SearchPicksBest(TestList, asc.(sortDesc := true), compat, DArtifact2);
    SearchPicksBest(TestList, NoOpt.(sortAnnotation := "unique", sortDesc := true), compat, DArtifact2);
  }

  /** An empty list has nothing to find. */
  lemma SearchEmptyCase(opt: MatchOpt, compat: (Platform, Platform) -> bool)
    ensures ListSearch([], opt, compat) == Failure(NotFound)
  {
  }
}
