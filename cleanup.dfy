/** Tag cleanup for a target repository that several sync rules may share
    (regsync's `cleanupTags`). The registry, the reference parser, the tag
    filter, regular expressions and cancellation are inputs of the model. */
module Regsync {
  import opened Wrappers
  import opened Seqs

  // ---- configuration ----

  /** One tag filter: allow and deny regex lists and a semver range. */
  datatype TagFilterSet = TagFilterSet(allow: seq<string>, deny: seq<string>, semverRange: string)

  /** A sync rule: its target repository, its top-level filter, further filter
      sets, and the regexes of tags its cleanup must never delete. */
  datatype ConfigSync = ConfigSync(
    source: string,
    target: string,
    tags: TagFilterSet,
    tagSets: seq<TagFilterSet>,
    cleanupTagsExclude: seq<string>)

  /** The failures a cleanup can report, each tagged with what caused it. */
  datatype Error =
    | RefParseFailed(cause: string)
    | TagListFailed(cause: string)
    | FilterFailed(cause: string)
    | InvalidExclusionPattern(pattern: string)
    | DeleteFailed(target: string, tag: string, cause: string)
    | Canceled

  /** The regular-expression engine: which patterns compile, and which
      compiled patterns match which tags. */
  datatype Regexp = Regexp(compiles: string -> bool, matches: (string, string) -> bool)

  /** The tag filter applied to the listed tags: the surviving tags, or the
      filter's error text. */
  type TagFilter = (TagFilterSet, seq<string>) -> Result<seq<string>, string>

  // ---- matchesExclusionPattern ----

  /** The pattern compiles and does not match the tag. */
  predicate Passes(pattern: string, tag: string, re: Regexp) {
    re.compiles(pattern) && !re.matches(pattern, tag)
  }

  /** The verdict of checking a tag against an exclusion list in order. */
  datatype Exclusion = NotExcluded | ExcludedBy(pattern: string) | BadPattern(pattern: string)

  /** Patterns are tried in list order; the first that fails to compile or
      matches decides. A broken pattern behind a matching one is never seen. */
  function FirstExclusion(tag: string, patterns: seq<string>, re: Regexp): (r: Exclusion)
    ensures r.NotExcluded? <==> forall i | 0 <= i < |patterns| :: Passes(patterns[i], tag, re)
    ensures r.ExcludedBy? ==>
      exists i | 0 <= i < |patterns| ::
        && patterns[i] == r.pattern && re.compiles(r.pattern) && re.matches(r.pattern, tag)
        && forall j | 0 <= j < i :: Passes(patterns[j], tag, re)
    ensures r.BadPattern? ==>
      exists i | 0 <= i < |patterns| ::
        && patterns[i] == r.pattern && !re.compiles(r.pattern)
        && forall j | 0 <= j < i :: Passes(patterns[j], tag, re)
  {
    if patterns == [] then NotExcluded
    else if !re.compiles(patterns[0]) then BadPattern(patterns[0])
    else if re.matches(patterns[0], tag) then ExcludedBy(patterns[0])
    else
      var r := FirstExclusion(tag, patterns[1..], re);
      assert forall i | 0 < i < |patterns| :: patterns[i] == patterns[1..][i - 1];
      if r.ExcludedBy? || r.BadPattern? then
        var i :| 0 <= i < |patterns[1..]| && patterns[1..][i] == r.pattern
                 && forall j | 0 <= j < i :: Passes(patterns[1..][j], tag, re);
        assert patterns[i + 1] == r.pattern;
        assert forall j | 0 <= j < i + 1 :: Passes(patterns[j], tag, re);
        r
      else r
  }

  /** A tag no pattern excludes passes each of them. */
  lemma NotExcludedPasses(tag: string, patterns: seq<string>, re: Regexp, p: string)
    requires FirstExclusion(tag, patterns, re).NotExcluded? && p in patterns
    ensures Passes(p, tag, re)
  {
    var i :| 0 <= i < |patterns| && patterns[i] == p;
  }

  /** matchesExclusionPattern: whether the tag is excluded and by which
      pattern, or the error for the first pattern that does not compile. */
  method MatchesExclusionPattern(tag: string, patterns: seq<string>, re: Regexp)
    returns (matched: bool, pattern: string, err: Option<Error>)
    ensures FirstExclusion(tag, patterns, re).NotExcluded? ==> !matched && pattern == "" && err == None
    ensures FirstExclusion(tag, patterns, re).ExcludedBy? ==>
              matched && pattern == FirstExclusion(tag, patterns, re).pattern && err == None
    ensures FirstExclusion(tag, patterns, re).BadPattern? ==>
              !matched && pattern == "" && err == Some(InvalidExclusionPattern(FirstExclusion(tag, patterns, re).pattern))
  {
    if |patterns| == 0 {
      return false, "", None;
    }
    for i := 0 to |patterns|
      invariant FirstExclusion(tag, patterns[i..], re) == FirstExclusion(tag, patterns, re)
    {
      assert patterns[i..][0] == patterns[i] && patterns[i..][1..] == patterns[i + 1..];
      if !re.compiles(patterns[i]) {
        return false, "", Some(InvalidExclusionPattern(patterns[i]));
      }
      if re.matches(patterns[i], tag) {
        return true, patterns[i], None;
      }
    }
    return false, "", None;
  }

  // ---- findSyncEntriesForTarget ----

  function TargetIs(tgt: string): ConfigSync -> bool {
    (e: ConfigSync) => e.target == tgt
  }

  /** The sibling set: the rules whose target is `tgt`, in configuration order. */
  function SyncEntriesFor(conf: seq<ConfigSync>, tgt: string): seq<ConfigSync> {
    Filter(conf, TargetIs(tgt))
  }

  /** The sibling set holds exactly the rules naming `tgt`, and adding rules to
      the configuration only appends their siblings. */
  lemma SyncEntriesForSpec(conf: seq<ConfigSync>, more: seq<ConfigSync>, tgt: string)
    ensures forall e | e in SyncEntriesFor(conf, tgt) :: e in conf && e.target == tgt
    ensures forall e | e in conf && e.target == tgt :: e in SyncEntriesFor(conf, tgt)
    ensures SyncEntriesFor(conf + more, tgt) == SyncEntriesFor(conf, tgt) + SyncEntriesFor(more, tgt)
  {
    FilterAppend(conf, more, TargetIs(tgt));
  }

  /** findSyncEntriesForTarget. */
  method FindSyncEntriesForTarget(conf: seq<ConfigSync>, tgt: string) returns (entries: seq<ConfigSync>)
    ensures entries == SyncEntriesFor(conf, tgt)
  {
    entries := [];
    assert conf[0..] == conf;
    for i := 0 to |conf|
      invariant entries + SyncEntriesFor(conf[i..], tgt) == SyncEntriesFor(conf, tgt)
    {
      FilterSuffix(conf, i, TargetIs(tgt));
      ghost var rest := SyncEntriesFor(conf[i + 1..], tgt);
      if conf[i].target == tgt {
        assert entries + ([conf[i]] + rest) == (entries + [conf[i]]) + rest;
        entries := entries + [conf[i]];
      } else {
        assert [] + rest == rest;
      }
    }
    assert conf[|conf|..] == [] && entries + [] == entries;
  }

  // ---- the wanted tags ----

  /** Whether the top-level filter of a rule constrains anything. */
  predicate HasTagFilter(f: TagFilterSet) {
    |f.allow| > 0 || |f.deny| > 0 || |f.semverRange| > 0
  }

  /** A rule's effective filter sets: its tag sets, then its top-level filter
      when that constrains anything. */
  function EffectiveSets(e: ConfigSync): seq<TagFilterSet> {
    if HasTagFilter(e.tags) then e.tagSets + [e.tags] else e.tagSets
  }

  /** All effective filter sets of the siblings, rule after rule. */
  function AllSets(entries: seq<ConfigSync>): seq<TagFilterSet> {
    if entries == [] then [] else EffectiveSets(entries[0]) + AllSets(entries[1..])
  }

  /** A filter set is among all sets exactly when some sibling has it. */
  lemma {:induction false} AllSetsSpec(entries: seq<ConfigSync>)
    ensures forall f | f in AllSets(entries) :: exists e | e in entries :: f in EffectiveSets(e)
    ensures forall e, f | e in entries && f in EffectiveSets(e) :: f in AllSets(entries)
    ensures AllSets(entries) == [] <==> forall e | e in entries :: EffectiveSets(e) == []
  {
    if entries != [] {
      AllSetsSpec(entries[1..]);
      assert forall e | e in entries :: e == entries[0] || e in entries[1..];
      if AllSets(entries) == [] {
        assert EffectiveSets(entries[0]) == [];
      }
    }
  }

  /** The same, rule by rule: a sibling contributes its tag sets, and its
      top-level filter when that constrains anything. */
  lemma AllSetsByRule(entries: seq<ConfigSync>)
    ensures forall f | f in AllSets(entries) ::
              exists e | e in entries :: f in e.tagSets || (f == e.tags && HasTagFilter(e.tags))
    ensures forall e, f | e in entries && f in e.tagSets :: f in AllSets(entries)
    ensures forall e | e in entries && HasTagFilter(e.tags) :: e.tags in AllSets(entries)
    ensures AllSets(entries) == [] <==> forall e | e in entries :: e.tagSets == [] && !HasTagFilter(e.tags)
  {
    AllSetsSpec(entries);
    forall e | e in entries
      ensures (forall f | f in e.tagSets :: f in EffectiveSets(e))
      ensures HasTagFilter(e.tags) ==> e.tags in EffectiveSets(e)
      ensures EffectiveSets(e) == [] <==> e.tagSets == [] && !HasTagFilter(e.tags)
    {
    }
  }

  /** The outputs of the filter sets, concatenated in order, or the first
      filter error. */
  function Outputs(sets: seq<TagFilterSet>, listed: seq<string>, filter: TagFilter): (r: Result<seq<string>, Error>)
    ensures r.Failure? <==> exists k | 0 <= k < |sets| :: filter(sets[k], listed).Failure?
    ensures r.Failure? ==>
      exists k | 0 <= k < |sets| ::
        && filter(sets[k], listed).Failure? && r.error == FilterFailed(filter(sets[k], listed).error)
        && forall j | 0 <= j < k :: filter(sets[j], listed).Success?
    ensures r.Success? ==>
      forall k, t | 0 <= k < |sets| && t in filter(sets[k], listed).value :: t in r.value
    ensures r.Success? ==>
      forall t | t in r.value :: exists k | 0 <= k < |sets| :: t in filter(sets[k], listed).value
  {
    if sets == [] then Success([])
    else
      assert forall k | 0 < k < |sets| :: sets[k] == sets[1..][k - 1];
      match filter(sets[0], listed)
      case Failure(e) => Failure(FilterFailed(e))
      case Success(out) =>
        var rest := Outputs(sets[1..], listed, filter);
        if rest.Failure? then
          var k :| 0 <= k < |sets[1..]| && filter(sets[1..][k], listed).Failure?
                   && rest.error == FilterFailed(filter(sets[1..][k], listed).error)
                   && forall j | 0 <= j < k :: filter(sets[1..][j], listed).Success?;
          assert sets[k + 1] == sets[1..][k];
          Failure(rest.error)
        else
          var r := Success(out + rest.value);
          assert forall t | t in r.value :: t in out || t in rest.value;
          r
  }

  /** Merging the filter outputs into a first-seen-order union. */
  function Combine(acc: seq<string>, outputs: Result<seq<string>, Error>): Result<seq<string>, Error> {
    match outputs
    case Failure(e) => Failure(e)
    case Success(ts) => Success(AddUnique(acc, ts))
  }

  /** The wanted tags: every listed tag when no sibling has a filter set,
      otherwise the union of all filter outputs. */
  function WantedTags(entries: seq<ConfigSync>, listed: seq<string>, filter: TagFilter): Result<seq<string>, Error> {
    if AllSets(entries) == [] then Success(listed)
    else Combine([], Outputs(AllSets(entries), listed, filter))
  }

  /** What the wanted tags are: a filter error of any sibling's set fails the
      cleanup; otherwise the union holds every tag any set keeps, nothing
      else, without duplicates; with no filter set anywhere it is the listing. */
  lemma WantedTagsSpec(entries: seq<ConfigSync>, listed: seq<string>, filter: TagFilter)
    ensures var w := WantedTags(entries, listed, filter);
      && (w.Failure? <==> exists e, f | e in entries && f in EffectiveSets(e) :: filter(f, listed).Failure?)
      && (w.Failure? ==> w.error.FilterFailed?)
      && ((forall e | e in entries :: EffectiveSets(e) == []) ==> w == Success(listed))
    ensures var w := WantedTags(entries, listed, filter);
      w.Success? && AllSets(entries) != [] ==>
        && NoDup(w.value)
        && (forall e, f | e in entries && f in EffectiveSets(e) :: filter(f, listed).Success?)
        && (forall e, f, t | e in entries && f in EffectiveSets(e) && filter(f, listed).Success? && t in filter(f, listed).value
              :: t in w.value)
        && (forall t | t in w.value :: exists f | f in AllSets(entries) :: t in filter(f, listed).value)
  {
    AllSetsSpec(entries);
    var sets := AllSets(entries);
    var o := Outputs(sets, listed, filter);
    if sets != [] && o.Success? {
      forall e, f | e in entries && f in EffectiveSets(e) ensures filter(f, listed).Success? {
        assert f in sets;
        var k :| 0 <= k < |sets| && sets[k] == f;
      }
      forall e, f, t | e in entries && f in EffectiveSets(e) && filter(f, listed).Success? && t in filter(f, listed).value
        ensures t in AddUnique([], o.value)
      {
        assert f in sets;
        var k :| 0 <= k < |sets| && sets[k] == f;
      }
      forall t | t in AddUnique([], o.value)
        ensures exists f | f in sets :: t in filter(f, listed).value
      {
        var k :| 0 <= k < |sets| && t in filter(sets[k], listed).value;
        assert sets[k] in sets;
      }
    }
    if o.Failure? {
      var k :| 0 <= k < |sets| && filter(sets[k], listed).Failure?;
      assert sets[k] in sets;
    }
  }

  /** Appends each tag not yet present (the `slices.Contains` loop). */
  method AppendUnique(wanted: seq<string>, tags: seq<string>) returns (r: seq<string>)
    ensures r == AddUnique(wanted, tags)
  {
    r := wanted;
    for k := 0 to |tags|
      invariant AddUnique(r, tags[k..]) == AddUnique(wanted, tags)
    {
      assert tags[k..][0] == tags[k] && tags[k..][1..] == tags[k + 1..];
      if tags[k] !in r {
        r := r + [tags[k]];
      }
    }
  }

  /** Continuing a merge: merging the outputs of `a + b` is merging those of
      `a`, then those of `b`. */
  lemma {:induction false} CombineAppend(acc: seq<string>, a: seq<TagFilterSet>, b: seq<TagFilterSet>,
                                          listed: seq<string>, filter: TagFilter)
    ensures Combine(acc, Outputs(a + b, listed, filter)) ==
      match Combine(acc, Outputs(a, listed, filter))
      case Failure(e) => Failure(e)
      case Success(w) => Combine(w, Outputs(b, listed, filter))
    decreases |a|
  {
    if a == [] {
      assert a + b == b;
    } else {
      assert (a + b)[0] == a[0] && (a + b)[1..] == a[1..] + b;
      var f := filter(a[0], listed);
      if f.Success? {
        CombineAppend(AddUnique(acc, f.value), a[1..], b, listed, filter);
        var ra, rb := Outputs(a[1..], listed, filter), Outputs(a[1..] + b, listed, filter);
        if ra.Success? {
          AddUniqueConcat(acc, f.value, ra.value);
          if rb.Success? { AddUniqueConcat(acc, f.value, rb.value); }
        }
        if rb.Success? { AddUniqueConcat(acc, f.value, rb.value); }
      }
    }
  }

  /** The loop over one rule's filter sets: each output is merged into the
      union; the first filter error is returned. */
  method MergeFilterSets(wanted: seq<string>, sets: seq<TagFilterSet>, listed: seq<string>, filter: TagFilter)
    returns (r: Result<seq<string>, Error>)
    ensures r == Combine(wanted, Outputs(sets, listed, filter))
  {
    var acc := wanted;
    for j := 0 to |sets|
      invariant Combine(acc, Outputs(sets[j..], listed, filter)) == Combine(wanted, Outputs(sets, listed, filter))
    {
      assert sets[j..][0] == sets[j] && sets[j..][1..] == sets[j + 1..];
      var filtered := filter(sets[j], listed);
      if filtered.Failure? {
        return Failure(FilterFailed(filtered.error));
      }
      ghost var tail := Outputs(sets[j + 1..], listed, filter);
      if tail.Success? {
        AddUniqueConcat(acc, filtered.value, tail.value);
      }
      acc := AppendUnique(acc, filtered.value);
    }
    return Success(acc);
  }

  /** The wanted-tags loops of cleanupTags: every filter set of every sibling
      is applied to the listing and its output merged into the union; the
      first filter error ends the cleanup. */
  method CollectWantedTags(entries: seq<ConfigSync>, listed: seq<string>, filter: TagFilter)
    returns (r: Result<seq<string>, Error>)
    ensures r == WantedTags(entries, listed, filter)
  {
    var wanted: seq<string> := [];
    var allSetsEmpty := true;
    ghost var total := Combine([], Outputs(AllSets(entries), listed, filter));
    for i := 0 to |entries|
      invariant Combine(wanted, Outputs(AllSets(entries[i..]), listed, filter)) == total
      invariant allSetsEmpty ==> wanted == [] && AllSets(entries[i..]) == AllSets(entries)
      invariant !allSetsEmpty ==> AllSets(entries) != []
    {
      assert entries[i..][0] == entries[i] && entries[i..][1..] == entries[i + 1..];
      var sets := entries[i].tagSets;
      if HasTagFilter(entries[i].tags) {
        sets := sets + [entries[i].tags];
      }
      assert sets == EffectiveSets(entries[i]);
      ghost var rest := AllSets(entries[i + 1..]);
      assert AllSets(entries[i..]) == sets + rest;
      if |sets| > 0 {
        allSetsEmpty := false;
        CombineAppend(wanted, sets, rest, listed, filter);
        var merged := MergeFilterSets(wanted, sets, listed, filter);
        if merged.Failure? {
          return merged;
        }
        assert Combine(wanted, Outputs(sets + rest, listed, filter)) == Combine(merged.value, Outputs(rest, listed, filter));
        wanted := merged.value;
      } else {
        assert sets + rest == rest;
      }
    }
    if allSetsEmpty {
      return Success(listed);
    }
    return Success(wanted);
  }

  // ---- the pooled exclusions ----

  /** The siblings' cleanup exclusions, concatenated in rule order. */
  function Exclusions(entries: seq<ConfigSync>): seq<string> {
    if entries == [] then [] else entries[0].cleanupTagsExclude + Exclusions(entries[1..])
  }

  /** A pattern is pooled exactly when some sibling lists it. */
  lemma {:induction false} ExclusionsSpec(entries: seq<ConfigSync>)
    ensures forall p | p in Exclusions(entries) :: exists e | e in entries :: p in e.cleanupTagsExclude
    ensures forall e, p | e in entries && p in e.cleanupTagsExclude :: p in Exclusions(entries)
  {
    if entries != [] {
      ExclusionsSpec(entries[1..]);
      assert forall e | e in entries :: e == entries[0] || e in entries[1..];
    }
  }

  /** The exclusion-pooling loop of cleanupTags. */
  method CollectExclusionPatterns(entries: seq<ConfigSync>) returns (patterns: seq<string>)
    ensures patterns == Exclusions(entries)
  {
    patterns := [];
    for i := 0 to |entries|
      invariant patterns + Exclusions(entries[i..]) == Exclusions(entries)
    {
      assert entries[i..][0] == entries[i] && entries[i..][1..] == entries[i + 1..];
      patterns := patterns + entries[i].cleanupTagsExclude;
    }
    assert entries[|entries|..] == [];
  }

  // ---- classification ----

  /** A listed tag is deletable when unwanted and excluded by no pattern. */
  predicate Deletable(tag: string, wanted: seq<string>, patterns: seq<string>, re: Regexp) {
    tag !in wanted && FirstExclusion(tag, patterns, re).NotExcluded?
  }

  function DeletableIn(wanted: seq<string>, patterns: seq<string>, re: Regexp): string -> bool {
    t => Deletable(t, wanted, patterns, re)
  }

  /** Puts `acc` in front of a successful result. */
  function Prepend(acc: seq<string>, r: Result<seq<string>, Error>): Result<seq<string>, Error> {
    match r
    case Failure(e) => Failure(e)
    case Success(ts) => Success(acc + ts)
  }

  /** The tags scheduled for deletion, in listing order, or the error of the
      first unwanted tag whose check reaches a pattern that does not compile. */
  function Schedule(listed: seq<string>, wanted: seq<string>, patterns: seq<string>, re: Regexp): Result<seq<string>, Error> {
    if listed == [] then Success([])
    else if listed[0] in wanted then Schedule(listed[1..], wanted, patterns, re)
    else match FirstExclusion(listed[0], patterns, re)
      case BadPattern(p) => Failure(InvalidExclusionPattern(p))
      case ExcludedBy(_) => Schedule(listed[1..], wanted, patterns, re)
      case NotExcluded => Prepend([listed[0]], Schedule(listed[1..], wanted, patterns, re))
  }

  /** An unwanted tag whose exclusion check hits a broken pattern. */
  predicate Trips(tag: string, wanted: seq<string>, patterns: seq<string>, re: Regexp) {
    tag !in wanted && FirstExclusion(tag, patterns, re).BadPattern?
  }

  /** The schedule is the listing filtered to its deletable tags. */
  lemma {:induction false} ScheduleIsFilter(listed: seq<string>, wanted: seq<string>, patterns: seq<string>, re: Regexp)
    requires Schedule(listed, wanted, patterns, re).Success?
    ensures Schedule(listed, wanted, patterns, re).value == Filter(listed, DeletableIn(wanted, patterns, re))
  {
    if listed != [] {
      ScheduleIsFilter(listed[1..], wanted, patterns, re);
    }
  }

  /** The schedule goes past a head tag that does not trip. */
  lemma ScheduleHead(listed: seq<string>, wanted: seq<string>, patterns: seq<string>, re: Regexp)
    requires listed != [] && !Trips(listed[0], wanted, patterns, re)
    ensures Schedule(listed, wanted, patterns, re).Failure? <==> Schedule(listed[1..], wanted, patterns, re).Failure?
    ensures Schedule(listed, wanted, patterns, re).Failure? ==>
              Schedule(listed, wanted, patterns, re).error == Schedule(listed[1..], wanted, patterns, re).error
  {
  }

  /** The schedule fails exactly when some unwanted tag trips over a broken
      pattern, with the error of the first such tag. */
  lemma {:induction false} ScheduleFailure(listed: seq<string>, wanted: seq<string>, patterns: seq<string>, re: Regexp)
    ensures var r := Schedule(listed, wanted, patterns, re);
      r.Failure? <==> exists i | 0 <= i < |listed| :: Trips(listed[i], wanted, patterns, re)
    ensures var r := Schedule(listed, wanted, patterns, re);
      r.Failure? ==>
        exists i | 0 <= i < |listed| ::
          && Trips(listed[i], wanted, patterns, re)
          && r.error == InvalidExclusionPattern(FirstExclusion(listed[i], patterns, re).pattern)
          && forall j | 0 <= j < i :: !Trips(listed[j], wanted, patterns, re)
  {
    if listed == [] {
    } else if Trips(listed[0], wanted, patterns, re) {
      assert Schedule(listed, wanted, patterns, re).error == InvalidExclusionPattern(FirstExclusion(listed[0], patterns, re).pattern);
    } else {
      var tail := listed[1..];
      ScheduleFailure(tail, wanted, patterns, re);
      ScheduleHead(listed, wanted, patterns, re);
      assert forall i | 0 < i < |listed| :: listed[i] == tail[i - 1];
      var rest := Schedule(tail, wanted, patterns, re);
      if rest.Failure? {
        var i :| 0 <= i < |tail| && Trips(tail[i], wanted, patterns, re)
                 && rest.error == InvalidExclusionPattern(FirstExclusion(tail[i], patterns, re).pattern)
                 && forall j | 0 <= j < i :: !Trips(tail[j], wanted, patterns, re);
        assert listed[i + 1] == tail[i];
        assert forall j | 0 <= j < i + 1 :: !Trips(listed[j], wanted, patterns, re);
      } else {
        assert forall i | 0 <= i < |listed| :: !Trips(listed[i], wanted, patterns, re);
      }
    }
  }

  /** The classification loop of cleanupTags. */
  method SelectTagsToDelete(listed: seq<string>, wanted: seq<string>, patterns: seq<string>, re: Regexp)
    returns (r: Result<seq<string>, Error>)
    ensures r == Schedule(listed, wanted, patterns, re)
  {
    var toDelete: seq<string> := [];
    ghost var whole := Schedule(listed, wanted, patterns, re);
    if whole.Success? { assert [] + whole.value == whole.value; }
    assert listed[0..] == listed;
    for i := 0 to |listed|
      invariant Prepend(toDelete, Schedule(listed[i..], wanted, patterns, re)) == Schedule(listed, wanted, patterns, re)
    {
      assert listed[i..][0] == listed[i] && listed[i..][1..] == listed[i + 1..];
      var tag := listed[i];
      if tag !in wanted {
        var excluded, pattern, err := MatchesExclusionPattern(tag, patterns, re);
        if err.Some? {
          return Failure(err.value);
        }
        if !excluded {
          ghost var rest := Schedule(listed[i + 1..], wanted, patterns, re);
          if rest.Success? { assert toDelete + ([tag] + rest.value) == (toDelete + [tag]) + rest.value; }
          toDelete := toDelete + [tag];
        }
      }
    }
    assert listed[|listed|..] == [] && toDelete + [] == toDelete;
    return Success(toDelete);
  }

  // ---- the delete loop ----

  /** The errors collected and the tags whose deletion was issued. */
  datatype DeleteLog = DeleteLog(errs: seq<Error>, attempted: seq<string>)

  function Then(a: DeleteLog, b: DeleteLog): DeleteLog {
    DeleteLog(a.errs + b.errs, a.attempted + b.attempted)
  }

  /** The per-tag failure record. */
  function FailureAt(tags: seq<string>, k: nat, reply: nat -> Option<string>, tgt: string): seq<Error>
    requires k < |tags|
  {
    if reply(k).Some? then [DeleteFailed(tgt, tags[k], reply(k).value)] else []
  }

  /** Deleting `tags[k..]`: before the deletion at position `k` the caller may
      have canceled (`canceled(k)`), which ends the run with a `Canceled`
      marker; otherwise the deletion is issued and `reply(k)` is the
      registry's error, if any, which is recorded and the run goes on. */
  function DeleteRun(tags: seq<string>, k: nat, canceled: nat -> bool, reply: nat -> Option<string>, tgt: string): DeleteLog
    requires k <= |tags|
    decreases |tags| - k
  {
    if k == |tags| then DeleteLog([], [])
    else if canceled(k) then DeleteLog([Canceled], [])
    else Then(DeleteLog(FailureAt(tags, k, reply, tgt), [tags[k]]), DeleteRun(tags, k + 1, canceled, reply, tgt))
  }

  lemma ThenAssoc(a: DeleteLog, b: DeleteLog, c: DeleteLog)
    ensures Then(Then(a, b), c) == Then(a, Then(b, c))
  {
  }

  /** The delete loop of cleanupTags. */
  method DeleteTags(tags: seq<string>, tgt: string, canceled: nat -> bool, reply: nat -> Option<string>)
    returns (errs: seq<Error>, ghost attempted: seq<string>)
    ensures errs == DeleteRun(tags, 0, canceled, reply, tgt).errs
    ensures attempted == DeleteRun(tags, 0, canceled, reply, tgt).attempted
  {
    errs, attempted := [], [];
    ghost var total := DeleteRun(tags, 0, canceled, reply, tgt);
    assert [] + total.errs == total.errs && [] + total.attempted == total.attempted;
    for i := 0 to |tags|
      invariant Then(DeleteLog(errs, attempted), DeleteRun(tags, i, canceled, reply, tgt)) == total
    {
      if canceled(i) {
        assert attempted + [] == attempted;
        errs := errs + [Canceled];
        return;
      }
      ghost var before := DeleteLog(errs, attempted);
      ghost var step := DeleteLog(FailureAt(tags, i, reply, tgt), [tags[i]]);
      ThenAssoc(before, step, DeleteRun(tags, i + 1, canceled, reply, tgt));
      attempted := attempted + [tags[i]];
      var err := reply(i);
      if err.Some? {
        errs := errs + [DeleteFailed(tgt, tags[i], err.value)];
      } else {
        assert errs + [] == errs;
      }
      assert DeleteLog(errs, attempted) == Then(before, step);
    }
    assert errs + [] == errs && attempted + [] == attempted;
  }

  /** The position of the first cancellation, or the length when none is seen. */
  function FirstCancel(tags: seq<string>, canceled: nat -> bool, k: nat): (n: nat)
    requires k <= |tags|
    ensures k <= n <= |tags|
    ensures forall j | k <= j < n :: !canceled(j)
    ensures n < |tags| ==> canceled(n)
    decreases |tags| - k
  {
    if k == |tags| || canceled(k) then k else FirstCancel(tags, canceled, k + 1)
  }

  /** The deletion failures among the first `n` tags, in order. */
  function FailuresBefore(tags: seq<string>, n: nat, reply: nat -> Option<string>, tgt: string): seq<Error>
    requires n <= |tags|
  {
    if n == 0 then [] else FailuresBefore(tags, n - 1, reply, tgt) + FailureAt(tags, n - 1, reply, tgt)
  }

  lemma {:induction false} AttemptedFrom(tags: seq<string>, k: nat, n: nat, canceled: nat -> bool, reply: nat -> Option<string>, tgt: string)
    requires k <= n <= |tags|
    requires forall j | k <= j < n :: !canceled(j)
    requires n < |tags| ==> canceled(n)
    ensures tags[..k] + DeleteRun(tags, k, canceled, reply, tgt).attempted == tags[..n]
    decreases n - k
  {
    var log := DeleteRun(tags, k, canceled, reply, tgt);
    if k < n {
      var rest := DeleteRun(tags, k + 1, canceled, reply, tgt);
      AttemptedFrom(tags, k + 1, n, canceled, reply, tgt);
      assert log.attempted == [tags[k]] + rest.attempted;
      assert tags[..k] + [tags[k]] == tags[..k + 1];
      assert tags[..k] + log.attempted == (tags[..k] + [tags[k]]) + rest.attempted;
    } else {
      assert log.attempted == [];
    }
  }

  lemma {:induction false} ErrorsFrom(tags: seq<string>, k: nat, n: nat, canceled: nat -> bool, reply: nat -> Option<string>, tgt: string)
    requires k <= n <= |tags|
    requires forall j | k <= j < n :: !canceled(j)
    requires n < |tags| ==> canceled(n)
    ensures FailuresBefore(tags, k, reply, tgt) + DeleteRun(tags, k, canceled, reply, tgt).errs ==
            FailuresBefore(tags, n, reply, tgt) + (if n < |tags| then [Canceled] else [])
    decreases n - k
  {
    var log := DeleteRun(tags, k, canceled, reply, tgt);
    if k < n {
      var rest := DeleteRun(tags, k + 1, canceled, reply, tgt);
      ErrorsFrom(tags, k + 1, n, canceled, reply, tgt);
      assert log.errs == FailureAt(tags, k, reply, tgt) + rest.errs;
      assert FailuresBefore(tags, k + 1, reply, tgt) == FailuresBefore(tags, k, reply, tgt) + FailureAt(tags, k, reply, tgt);
      assert FailuresBefore(tags, k, reply, tgt) + log.errs
          == (FailuresBefore(tags, k, reply, tgt) + FailureAt(tags, k, reply, tgt)) + rest.errs;
    }
  }

  /** What the delete loop does: deletions are issued for exactly the tags
      before the first cancellation, in order; each failed one contributes one
      error for its tag; a cancellation adds a final `Canceled` marker. */
  lemma DeleteRunShape(tags: seq<string>, canceled: nat -> bool, reply: nat -> Option<string>, tgt: string)
    ensures var n, log := FirstCancel(tags, canceled, 0), DeleteRun(tags, 0, canceled, reply, tgt);
      && log.attempted == tags[..n]
      && log.errs == FailuresBefore(tags, n, reply, tgt) + (if n < |tags| then [Canceled] else [])
  {
    var n := FirstCancel(tags, canceled, 0);
    AttemptedFrom(tags, 0, n, canceled, reply, tgt);
    ErrorsFrom(tags, 0, n, canceled, reply, tgt);
  }

  /** The loop reports nothing exactly when no cancellation is seen and every
      deletion succeeds. */
  lemma {:induction false} DeleteRunClean(tags: seq<string>, k: nat, canceled: nat -> bool, reply: nat -> Option<string>, tgt: string)
    requires k <= |tags|
    ensures DeleteRun(tags, k, canceled, reply, tgt).errs == [] <==>
              forall j | k <= j < |tags| :: !canceled(j) && reply(j).None?
    decreases |tags| - k
  {
    if k < |tags| && !canceled(k) {
      var rest := DeleteRun(tags, k + 1, canceled, reply, tgt);
      assert DeleteRun(tags, k, canceled, reply, tgt).errs == FailureAt(tags, k, reply, tgt) + rest.errs;
      DeleteRunClean(tags, k + 1, canceled, reply, tgt);
    }
  }

  // ---- cleanupTags ----

  /** What a cleanup reports: success, one fatal error before any deletion,
      or the joined errors of the delete loop. */
  datatype CleanupOutcome = Clean | Fatal(cause: Error) | Aggregate(errs: seq<Error>)

  /** `errors.Join`: no error for an empty list. */
  function Joined(errs: seq<Error>): (r: CleanupOutcome)
    ensures r == Clean <==> errs == []
    ensures r != Clean ==> r == Aggregate(errs)
  {
    if errs == [] then Clean else Aggregate(errs)
  }

  /** The tags a cleanup of `tgt` would delete, or the fatal error that stops
      it first: the reference parse, the listing, a sibling's filter, a broken
      exclusion pattern. `refError` and `listing` are the outcomes of parsing
      `tgt` and of listing its tags. */
  function Plan(conf: seq<ConfigSync>, tgt: string, refError: Option<string>, listing: Result<seq<string>, string>,
                filter: TagFilter, re: Regexp): Result<seq<string>, Error>
  {
    if refError.Some? then Failure(RefParseFailed(refError.value))
    else if listing.Failure? then Failure(TagListFailed(listing.error))
    else
      var entries := SyncEntriesFor(conf, tgt);
      match WantedTags(entries, listing.value, filter)
      case Failure(e) => Failure(e)
      case Success(wanted) => Schedule(listing.value, wanted, Exclusions(entries), re)
  }

  /** cleanupTags. The rule `s` that triggers the cleanup is not consulted:
      the siblings come from the configuration by target alone. */
  method CleanupTags(conf: seq<ConfigSync>, s: ConfigSync, tgt: string,
                     refError: Option<string>, listing: Result<seq<string>, string>,
                     filter: TagFilter, re: Regexp, canceled: nat -> bool, reply: nat -> Option<string>)
    returns (outcome: CleanupOutcome, ghost attempted: seq<string>)
    ensures var plan := Plan(conf, tgt, refError, listing, filter, re);
      plan.Failure? ==> outcome == Fatal(plan.error)
    ensures var plan := Plan(conf, tgt, refError, listing, filter, re);
      plan.Success? ==> outcome == Joined(DeleteRun(plan.value, 0, canceled, reply, tgt).errs)
    ensures var plan := Plan(conf, tgt, refError, listing, filter, re);
      attempted == if plan.Failure? then [] else DeleteRun(plan.value, 0, canceled, reply, tgt).attempted
    ensures var plan := Plan(conf, tgt, refError, listing, filter, re);
      plan.Success? ==>
        (outcome == Clean <==> forall j | 0 <= j < |plan.value| :: !canceled(j) && reply(j).None?)
  {
    attempted := [];
    if refError.Some? {
      return Fatal(RefParseFailed(refError.value)), attempted;
    }
    if listing.Failure? {
      return Fatal(TagListFailed(listing.error)), attempted;
    }
    var tags := listing.value;
    var entries := FindSyncEntriesForTarget(conf, tgt);
    var wanted := CollectWantedTags(entries, tags, filter);
    if wanted.Failure? {
      return Fatal(wanted.error), attempted;
    }
    var patterns := CollectExclusionPatterns(entries);
    var toDelete := SelectTagsToDelete(tags, wanted.value, patterns, re);
    if toDelete.Failure? {
      return Fatal(toDelete.error), attempted;
    }
    var errs;
    errs, attempted := DeleteTags(toDelete.value, tgt, canceled, reply);
    DeleteRunClean(toDelete.value, 0, canceled, reply, tgt);
    outcome := Joined(errs);
  }

  // ---- what a cleanup deletes ----

  /** The schedule is the listing, in order, filtered to the tags that no
      sibling wants and no pooled pattern excludes. */
  lemma PlanOrder(conf: seq<ConfigSync>, tgt: string, refError: Option<string>, listing: Result<seq<string>, string>,
                  filter: TagFilter, re: Regexp)
    requires Plan(conf, tgt, refError, listing, filter, re).Success?
    ensures refError.None? && listing.Success?
    ensures var entries := SyncEntriesFor(conf, tgt);
      WantedTags(entries, listing.value, filter).Success? &&
      Plan(conf, tgt, refError, listing, filter, re).value ==
        Filter(listing.value, DeletableIn(WantedTags(entries, listing.value, filter).value, Exclusions(entries), re))
  {
    var entries := SyncEntriesFor(conf, tgt);
    ScheduleIsFilter(listing.value, WantedTags(entries, listing.value, filter).value, Exclusions(entries), re);
  }

  /** Safety: a scheduled tag is listed, some sibling has a filter set, no
      filter set of any sibling keeps the tag, and every exclusion pattern of
      every sibling compiles and does not match it. */
  lemma PlanSafety(conf: seq<ConfigSync>, tgt: string, refError: Option<string>, listing: Result<seq<string>, string>,
                   filter: TagFilter, re: Regexp)
    requires Plan(conf, tgt, refError, listing, filter, re).Success?
    ensures listing.Success?
    ensures forall t | t in Plan(conf, tgt, refError, listing, filter, re).value :: t in listing.value
    ensures Plan(conf, tgt, refError, listing, filter, re).value != [] ==>
      exists e | e in SyncEntriesFor(conf, tgt) :: EffectiveSets(e) != []
    ensures forall t, e, f | t in Plan(conf, tgt, refError, listing, filter, re).value &&
                             e in SyncEntriesFor(conf, tgt) && f in EffectiveSets(e) ::
      filter(f, listing.value).Success? && t !in filter(f, listing.value).value
    ensures forall t, e, p | t in Plan(conf, tgt, refError, listing, filter, re).value &&
                             e in SyncEntriesFor(conf, tgt) && p in e.cleanupTagsExclude ::
      Passes(p, t, re)
  {
    var entries := SyncEntriesFor(conf, tgt);
    var listed := listing.value;
    PlanOrder(conf, tgt, refError, listing, filter, re);
    var wanted := WantedTags(entries, listed, filter).value;
    var sched := Plan(conf, tgt, refError, listing, filter, re).value;
    assert forall t | t in sched :: t !in wanted && FirstExclusion(t, Exclusions(entries), re).NotExcluded?;
    WantedTagsSpec(entries, listed, filter);
    AllSetsSpec(entries);
    if sched != [] {
      assert sched[0] in sched;
      assert AllSets(entries) != [];
    }
    ExclusionsSpec(entries);
    forall t, e, p | t in sched && e in entries && p in e.cleanupTagsExclude ensures Passes(p, t, re) {
      NotExcludedPasses(t, Exclusions(entries), re, p);
    }
  }

  /** Completeness: with some filter set among the siblings, every listed tag
      that no set keeps and no pooled pattern excludes is scheduled. */
  lemma PlanComplete(conf: seq<ConfigSync>, tgt: string, refError: Option<string>, listing: Result<seq<string>, string>,
                     filter: TagFilter, re: Regexp, t: string)
    requires Plan(conf, tgt, refError, listing, filter, re).Success?
    requires listing.Success? && t in listing.value
    requires forall e, f | e in SyncEntriesFor(conf, tgt) && f in EffectiveSets(e) ::
               filter(f, listing.value).Success? && t !in filter(f, listing.value).value
    requires forall p | p in Exclusions(SyncEntriesFor(conf, tgt)) :: Passes(p, t, re)
    requires exists e | e in SyncEntriesFor(conf, tgt) :: EffectiveSets(e) != []
    ensures t in Plan(conf, tgt, refError, listing, filter, re).value
  {
    var entries := SyncEntriesFor(conf, tgt);
    var listed := listing.value;
    PlanOrder(conf, tgt, refError, listing, filter, re);
    WantedTagsSpec(entries, listed, filter);
    AllSetsSpec(entries);
    var wanted := WantedTags(entries, listed, filter).value;
    assert AllSets(entries) != [];
    assert t !in wanted;
    assert forall i | 0 <= i < |Exclusions(entries)| :: Passes(Exclusions(entries)[i], t, re);
  }

  /** Every fatal error stops the cleanup before its first deletion, and is
      the first of: the reference parse, the listing, a sibling's filter, then
      a pooled pattern, reached by an unwanted tag, that does not compile. */
  lemma PlanFatal(conf: seq<ConfigSync>, tgt: string, refError: Option<string>, listing: Result<seq<string>, string>,
                  filter: TagFilter, re: Regexp)
    ensures var plan, entries := Plan(conf, tgt, refError, listing, filter, re), SyncEntriesFor(conf, tgt);
      && (refError.Some? ==> plan == Failure(RefParseFailed(refError.value)))
      && (refError.None? && listing.Failure? ==> plan == Failure(TagListFailed(listing.error)))
      && (refError.None? && listing.Success? ==>
            ((exists e, f | e in entries && f in EffectiveSets(e) :: filter(f, listing.value).Failure?) ==>
               plan.Failure? && plan.error.FilterFailed?))
    ensures var plan, entries := Plan(conf, tgt, refError, listing, filter, re), SyncEntriesFor(conf, tgt);
      plan.Failure? && plan.error.InvalidExclusionPattern? ==>
        && listing.Success?
        && WantedTags(entries, listing.value, filter).Success?
        && (exists t | t in listing.value ::
              && Trips(t, WantedTags(entries, listing.value, filter).value, Exclusions(entries), re)
              && FirstExclusion(t, Exclusions(entries), re).pattern == plan.error.pattern)
        && !re.compiles(plan.error.pattern)
        && exists e | e in entries :: plan.error.pattern in e.cleanupTagsExclude
  {
    var entries := SyncEntriesFor(conf, tgt);
    var plan := Plan(conf, tgt, refError, listing, filter, re);
    if refError.None? && listing.Success? {
      WantedTagsSpec(entries, listing.value, filter);
      var w := WantedTags(entries, listing.value, filter);
      if w.Success? {
        var listed := listing.value;
        ScheduleFailure(listed, w.value, Exclusions(entries), re);
        if plan.Failure? {
          ExclusionsSpec(entries);
          var i :| 0 <= i < |listed| && Trips(listed[i], w.value, Exclusions(entries), re)
                   && plan.error == InvalidExclusionPattern(FirstExclusion(listed[i], Exclusions(entries), re).pattern);
          assert listed[i] in listed;
          var x := FirstExclusion(listed[i], Exclusions(entries), re);
          var k :| 0 <= k < |Exclusions(entries)| && Exclusions(entries)[k] == x.pattern && !re.compiles(x.pattern);
          assert Exclusions(entries)[k] in Exclusions(entries);
        }
      }
    }
  }

  /** When no sibling has a filter set every listed tag is wanted, so the
      cleanup schedules nothing, whatever the exclusion patterns are. */
  lemma PlanNoFilters(conf: seq<ConfigSync>, tgt: string, listed: seq<string>, filter: TagFilter, re: Regexp)
    requires forall e | e in SyncEntriesFor(conf, tgt) :: EffectiveSets(e) == []
    ensures Plan(conf, tgt, None, Success(listed), filter, re) == Success([])
  {
    var entries := SyncEntriesFor(conf, tgt);
    WantedTagsSpec(entries, listed, filter);
    ScheduleFailure(listed, listed, Exclusions(entries), re);
    ScheduleIsFilter(listed, listed, Exclusions(entries), re);
    assert forall i | 0 <= i < |listed| :: listed[i] in listed;
    FilterNone(listed, DeletableIn(listed, Exclusions(entries), re));
  }

  // ---- scenarios ----

  /** A stand-in regular-expression engine in which every pattern compiles
      and matches exactly the tag it spells. */
  function Literal(): Regexp {
    Regexp(p => true, (p, t) => p == t)
  }

  function InList(xs: seq<string>): string -> bool {
    t => t in xs
  }

  /** A stand-in tag filter that keeps the listed tags its allow list spells out. */
  function AllowFilter(): TagFilter {
    (f: TagFilterSet, tags: seq<string>) => Success(Filter(tags, InList(f.allow)))
  }

  const Repo: string := "registry.example.com/repo"

  function Rule(target: string, allow: seq<string>, exclude: seq<string>): ConfigSync {
    ConfigSync("registry.example.com/upstream", target, TagFilterSet(allow, [], ""), [], exclude)
  }

  /** The three tag names of the scenarios are distinct. */
  lemma TagNamesDistinct()
    ensures "stable" != "latest" && "stable" != "old" && "latest" != "old"
  {
    assert "stable"[0] != "latest"[0];
  }

  /** Two rules for the same target are each other's siblings. */
  lemma SiblingsPair(a: ConfigSync, b: ConfigSync, tgt: string)
    requires a.target == tgt && b.target == tgt
    ensures SyncEntriesFor([a, b], tgt) == [a, b]
  {
    FilterPair(a, b, TargetIs(tgt));
  }

  /** The filter sets of two rules, first rule first. */
  lemma AllSetsPair(a: ConfigSync, b: ConfigSync)
    ensures AllSets([a, b]) == EffectiveSets(a) + EffectiveSets(b)
  {
    assert [a, b][1..] == [b] && [b][1..] == [];
    assert AllSets([b]) == EffectiveSets(b) + [] == EffectiveSets(b);
  }

  /** The pooled exclusions of two rules, first rule first. */
  lemma ExclusionsPair(a: ConfigSync, b: ConfigSync)
    ensures Exclusions([a, b]) == a.cleanupTagsExclude + b.cleanupTagsExclude
  {
    assert [a, b][1..] == [b] && [b][1..] == [];
    assert Exclusions([b]) == b.cleanupTagsExclude + [] == b.cleanupTagsExclude;
  }

  /** The outputs of one filter set that succeeds. */
  lemma OutputsOne(x: TagFilterSet, listed: seq<string>, filter: TagFilter)
    requires filter(x, listed).Success?
    ensures Outputs([x], listed, filter) == Success(filter(x, listed).value)
  {
    assert [x][1..] == [];
    assert filter(x, listed).value + [] == filter(x, listed).value;
  }

  /** The outputs of two filter sets that succeed, concatenated. */
  lemma OutputsPair(x: TagFilterSet, y: TagFilterSet, listed: seq<string>, filter: TagFilter)
    requires filter(x, listed).Success? && filter(y, listed).Success?
    ensures Outputs([x, y], listed, filter) == Success(filter(x, listed).value + filter(y, listed).value)
  {
    assert [x, y][1..] == [y];
    OutputsOne(y, listed, filter);
  }

  /** From the siblings and their wanted tags to the schedule. */
  lemma PlanFrom(conf: seq<ConfigSync>, tgt: string, listed: seq<string>, filter: TagFilter, re: Regexp,
                 entries: seq<ConfigSync>, wanted: seq<string>)
    requires SyncEntriesFor(conf, tgt) == entries
    requires WantedTags(entries, listed, filter) == Success(wanted)
    ensures Plan(conf, tgt, None, Success(listed), filter, re) == Schedule(listed, wanted, Exclusions(entries), re)
  {
  }

  /** An allow list of one tag keeps exactly that tag of the three-tag listing. */
  lemma AllowOnly(t: string)
    requires t in ["stable", "latest", "old"]
    ensures AllowFilter()(TagFilterSet([t], [], ""), ["stable", "latest", "old"]) == Success([t])
  {
    TagNamesDistinct();
    var keep := InList([t]);
    FilterTriple("stable", "latest", "old", keep);
    assert keep("stable") <==> t == "stable";
    assert keep("latest") <==> t == "latest";
    assert keep("old") <==> t == "old";
    assert AllowFilter()(TagFilterSet([t], [], ""), ["stable", "latest", "old"])
        == Success(Filter(["stable", "latest", "old"], keep));
    if t == "stable" {
      assert Filter(["stable", "latest", "old"], keep) == ["stable"] + [] + [];
      assert ["stable"] + [] + [] == [t];
    } else if t == "latest" {
      assert Filter(["stable", "latest", "old"], keep) == [] + ["latest"] + [];
      assert [] + ["latest"] + [] == [t];
    } else {
      assert Filter(["stable", "latest", "old"], keep) == [] + [] + ["old"];
      assert [] + [] + ["old"] == [t];
    }
  }

  /** Merging two distinct tags into an empty union keeps both, in order. */
  lemma AddUniquePair(x: string, y: string)
    requires x != y
    ensures AddUnique([], [x, y]) == [x, y]
  {
    assert [x, y][1..] == [y] && [y][1..] == [];
    assert [] + [x] == [x] && [x] + [y] == [x, y];
    assert AddUnique([], [x, y]) == AddUnique([x], [y]);
    assert AddUnique([x], [y]) == AddUnique([x, y], []);
  }

  /** The filter sets of a rule with a top-level allow list and nothing else. */
  lemma RuleSets(target: string, allow: seq<string>, exclude: seq<string>)
    requires allow != []
    ensures EffectiveSets(Rule(target, allow, exclude)) == [TagFilterSet(allow, [], "")]
  {
  }

  /** The wanted tags of two rules that allow `stable` and `latest`. */
  lemma TwoRulesWanted(a: ConfigSync, b: ConfigSync)
    requires a == Rule(Repo, ["stable"], []) && b == Rule(Repo, ["latest"], [])
    ensures WantedTags([a, b], ["stable", "latest", "old"], AllowFilter()) == Success(["stable", "latest"])
  {
    var listed := ["stable", "latest", "old"];
    AllSetsPair(a, b);
    RuleSets(Repo, ["stable"], []);
    RuleSets(Repo, ["latest"], []);
    assert AllSets([a, b]) == [a.tags, b.tags];
    AllowOnly("stable");
    AllowOnly("latest");
    OutputsPair(a.tags, b.tags, listed, AllowFilter());
    assert Outputs([a.tags, b.tags], listed, AllowFilter()) == Success(["stable"] + ["latest"]);
    TagNamesDistinct();
    AddUniquePair("stable", "latest");
    assert ["stable"] + ["latest"] == ["stable", "latest"];
  }

  /** Scheduling one more listed tag in front of the rest. */
  lemma ScheduleCons(t: string, rest: seq<string>, wanted: seq<string>, patterns: seq<string>, re: Regexp)
    requires !Trips(t, wanted, patterns, re)
    ensures Schedule([t] + rest, wanted, patterns, re) ==
      if Deletable(t, wanted, patterns, re) then Prepend([t], Schedule(rest, wanted, patterns, re))
      else Schedule(rest, wanted, patterns, re)
  {
    assert ([t] + rest)[0] == t && ([t] + rest)[1..] == rest;
  }

  /** With the stand-in engine and no exclusion patterns, nothing trips and a
      tag is deletable exactly when unwanted. */
  lemma LiteralUnexcluded(t: string, wanted: seq<string>)
    ensures !Trips(t, wanted, [], Literal())
    ensures Deletable(t, wanted, [], Literal()) <==> t !in wanted
  {
  }

  /** Two rules share the target, one allowing `stable` and one `latest`: only
      `old` is deleted. A rule for another repository is not a sibling. */
  lemma TwoRulesScenario()
    ensures Plan([Rule(Repo, ["stable"], []), Rule("registry.example.com/other", ["old"], []),
                  Rule(Repo, ["latest"], [])],
                 Repo, None, Success(["stable", "latest", "old"]), AllowFilter(), Literal())
            == Success(["old"])
  {
    var a, o, b := Rule(Repo, ["stable"], []), Rule("registry.example.com/other", ["old"], []), Rule(Repo, ["latest"], []);
    FilterTriple(a, o, b, TargetIs(Repo));
    assert SyncEntriesFor([a, o, b], Repo) == [a, b];
    TwoRulesWanted(a, b);
    ExclusionsPair(a, b);
    PlanFrom([a, o, b], Repo, ["stable", "latest", "old"], AllowFilter(), Literal(), [a, b], ["stable", "latest"]);
    TwoRulesSchedule();
  }

  lemma TwoRulesSchedule()
    ensures Schedule(["stable", "latest", "old"], ["stable", "latest"], [], Literal()) == Success(["old"])
  {
    var wanted := ["stable", "latest"];
    TagNamesDistinct();
    LiteralUnexcluded("stable", wanted);
    LiteralUnexcluded("latest", wanted);
    LiteralUnexcluded("old", wanted);
    ScheduleCons("old", [], wanted, [], Literal());
    assert Schedule(["old"], wanted, [], Literal()) == Success(["old"] + []);
    assert ["old"] + [] == ["old"];
    ScheduleCons("latest", ["old"], wanted, [], Literal());
    assert ["latest", "old"] == ["latest"] + ["old"];
    assert Schedule(["latest", "old"], wanted, [], Literal()) == Success(["old"]);
    ScheduleCons("stable", ["latest", "old"], wanted, [], Literal());
    assert ["stable", "latest", "old"] == ["stable"] + ["latest", "old"];
  }

  /** The wanted tags when the first rule allows `stable` and the second has
      no filter set. */
  lemma OneFilteredWanted(a: ConfigSync, b: ConfigSync)
    requires a == Rule(Repo, ["stable"], []) && b.tags == TagFilterSet([], [], "") && b.tagSets == []
    ensures WantedTags([a, b], ["stable", "old"], AllowFilter()) == Success(["stable"])
  {
    AllSetsPair(a, b);
    RuleSets(Repo, ["stable"], []);
    assert EffectiveSets(b) == [];
    assert AllSets([a, b]) == [a.tags];
    StableOfTwo();
    OutputsOne(a.tags, ["stable", "old"], AllowFilter());
    assert ["stable"][1..] == [] && [] + ["stable"] == ["stable"];
    assert AddUnique([], ["stable"]) == AddUnique(["stable"], []);
  }

  /** An allow list naming `stable` keeps it alone out of `stable` and `old`. */
  lemma StableOfTwo()
    ensures AllowFilter()(TagFilterSet(["stable"], [], ""), ["stable", "old"]) == Success(["stable"])
  {
    TagNamesDistinct();
    var keep := InList(["stable"]);
    FilterPair("stable", "old", keep);
    assert keep("stable") && !keep("old");
    assert Filter(["stable", "old"], keep) == ["stable"] + [];
    assert ["stable"] + [] == ["stable"];
    assert AllowFilter()(TagFilterSet(["stable"], [], ""), ["stable", "old"]) == Success(Filter(["stable", "old"], keep));
  }

  /** A tag no rule wants survives because a sibling's exclusion pattern
      matches it. */
  lemma ForeignExclusionScenario()
    ensures Plan([Rule(Repo, ["stable"], []), Rule(Repo, [], ["old"])],
                 Repo, None, Success(["stable", "old"]), AllowFilter(), Literal())
            == Success([])
  {
    var a, b := Rule(Repo, ["stable"], []), Rule(Repo, [], ["old"]);
    SiblingsPair(a, b, Repo);
    OneFilteredWanted(a, b);
    ExclusionsPair(a, b);
    assert Exclusions([a, b]) == ["old"];
    PlanFrom([a, b], Repo, ["stable", "old"], AllowFilter(), Literal(), [a, b], ["stable"]);
    ForeignExclusionSchedule();
  }

  lemma ForeignExclusionSchedule()
    ensures Schedule(["stable", "old"], ["stable"], ["old"], Literal()) == Success([])
  {
    TagNamesDistinct();
    assert ["old"][1..] == [];
    assert FirstExclusion("old", ["old"], Literal()) == ExcludedBy("old");
    assert !Trips("old", ["stable"], ["old"], Literal()) && !Deletable("old", ["stable"], ["old"], Literal());
    ScheduleCons("old", [], ["stable"], ["old"], Literal());
    assert ["old"] == ["old"] + [];
    assert Schedule(["old"], ["stable"], ["old"], Literal()) == Success([]);
    assert !Trips("stable", ["stable"], ["old"], Literal()) && !Deletable("stable", ["stable"], ["old"], Literal());
    ScheduleCons("stable", ["old"], ["stable"], ["old"], Literal());
    assert ["stable", "old"] == ["stable"] + ["old"];
  }

  /** A rule without any filter set protects nothing once a sibling has one:
      all tags are wanted only when no sibling filters at all. */
  lemma UnfilteredSiblingScenario()
    ensures Plan([Rule(Repo, ["stable"], []), Rule(Repo, [], [])],
                 Repo, None, Success(["stable", "old"]), AllowFilter(), Literal())
            == Success(["old"])
    ensures Plan([Rule(Repo, [], []), Rule(Repo, [], [])],
                 Repo, None, Success(["stable", "old"]), AllowFilter(), Literal())
            == Success([])
  {
    var a, b := Rule(Repo, ["stable"], []), Rule(Repo, [], []);
    var listed := ["stable", "old"];
    SiblingsPair(a, b, Repo);
    OneFilteredWanted(a, b);
    ExclusionsPair(a, b);
    assert Exclusions([a, b]) == [];
    PlanFrom([a, b], Repo, listed, AllowFilter(), Literal(), [a, b], ["stable"]);
    UnfilteredSchedule();
    SiblingsPair(b, b, Repo);
    PlanNoFilters([b, b], Repo, listed, AllowFilter(), Literal());
  }

  lemma UnfilteredSchedule()
    ensures Schedule(["stable", "old"], ["stable"], [], Literal()) == Success(["old"])
  {
    TagNamesDistinct();
    LiteralUnexcluded("stable", ["stable"]);
    LiteralUnexcluded("old", ["stable"]);
    ScheduleCons("old", [], ["stable"], [], Literal());
    assert ["old"] + [] == ["old"];
    assert Schedule(["old"], ["stable"], [], Literal()) == Success(["old"]);
    ScheduleCons("stable", ["old"], ["stable"], [], Literal());
    assert ["stable", "old"] == ["stable"] + ["old"];
  }

  /** A cancellation observed before the second deletion: the first deletion
      stands and the errors end with the marker. A failed deletion does not
      stop the next ones. */
  lemma DeleteScenario()
    ensures DeleteRun(["a", "b", "c"], 0, k => k >= 1, k => None, Repo) == DeleteLog([Canceled], ["a"])
    ensures DeleteRun(["a", "b", "c"], 0, k => false, k => if k == 0 then Some("denied") else None, Repo)
            == DeleteLog([DeleteFailed(Repo, "a", "denied")], ["a", "b", "c"])
  {
  }
}
