/** The decisions of the GitHub publisher: grouping make results per
    version, the repository check, finding or creating the release tagged
    `v<version>`, and uploading every artifact whose name is not yet an
    asset of that release. The GitHub API is an oracle: `listReleases` is a
    function from version to the outcome of the listing request; creating a
    release and uploading an asset are recorded as steps. */
module PublisherGithub {
  import opened Values
  import opened Paths
  import opened MakeResults

  /** The configuration fields the decisions read (`authToken` and
      `octokitOptions` only configure the client). */
  datatype GithubConfig = GithubConfig(repository: Value, draft: Value, prerelease: Value)

  /** A release as listed by GitHub: its tag and the names of its assets. */
  datatype Release = Release(tagName: string, assetNames: seq<string>)

  /** The listing request either answers with the releases or fails with an
      error code. */
  datatype ListOutcome = Listed(releases: seq<Release>) | RequestFailed(code: int)

  datatype CreateRequest = CreateRequest(tagName: string, name: string, draft: bool, prerelease: bool)

  datatype ReleaseChoice = UseExisting(release: Release) | CreateNew(request: CreateRequest) | Rethrow(code: int)

  datatype Upload = Upload(tagName: string, artifactPath: string, assetName: string)

  /** What the publisher does to GitHub, in order. */
  datatype Step = CreatedRelease(request: CreateRequest) | UploadedAsset(upload: Upload)

  datatype PublishError = RepositoryNotSet | GithubError(code: int)

  const NotFound: int := 404

  /* ---------------------------------------------------------------------
     Grouping per version
     --------------------------------------------------------------------- */

  /** The make results of version `v`, in input order. */
  function WithVersion(results: seq<MakeResult>, v: string): seq<MakeResult>
  {
    if results == [] then []
    else
      var last := results[|results| - 1];
      WithVersion(results[..|results| - 1], v) + (if last.version == v then [last] else [])
  }

  /** The distinct versions of `results` in order of first appearance: the
      order in which `Object.keys` lists the buckets. */
  function Versions(results: seq<MakeResult>): (vs: seq<string>)
    ensures forall i :: 0 <= i < |results| ==> results[i].version in vs
    ensures forall v :: v in vs ==> exists i :: 0 <= i < |results| && results[i].version == v
    ensures forall i, j :: 0 <= i < j < |vs| ==> vs[i] != vs[j]
  {
    if results == [] then []
    else
      var init := Versions(results[..|results| - 1]);
      var v := results[|results| - 1].version;
      assert forall i :: 0 <= i < |results| - 1 ==> results[..|results| - 1][i] == results[i];
      if v in init then init else init + [v]
  }

  /** Some result of version `x` comes before every result of version `y`. */
  predicate SeenBefore(results: seq<MakeResult>, x: string, y: string)
  {
    exists a :: 0 <= a < |results| && results[a].version == x &&
                forall b :: 0 <= b <= a ==> results[b].version != y
  }

  /** First-seen order: each version is met in `results` before the first
      result of any version listed after it. */
  lemma {:induction false} VersionsFirstSeen(results: seq<MakeResult>)
    ensures forall i, j :: 0 <= i < j < |Versions(results)| ==>
      SeenBefore(results, Versions(results)[i], Versions(results)[j])
  {
    if results != [] {
      var init := results[..|results| - 1];
      var v := results[|results| - 1].version;
      VersionsFirstSeen(init);
      var ivs := Versions(init);
      var vs := Versions(results);
      assert vs == if v in ivs then ivs else ivs + [v];
      forall i, j | 0 <= i < j < |vs|
        ensures SeenBefore(results, vs[i], vs[j])
      {
        var a: int;
        if j < |ivs| {
          assert vs[i] == ivs[i] && vs[j] == ivs[j];
          assert SeenBefore(init, ivs[i], ivs[j]);
          a :| 0 <= a < |init| && init[a].version == ivs[i] &&
               forall b :: 0 <= b <= a ==> init[b].version != ivs[j];
        } else {
          assert v !in ivs && vs[j] == v && vs[i] == ivs[i];
          assert ivs[i] in ivs;
          a :| 0 <= a < |init| && init[a].version == ivs[i];
        }
        forall b | 0 <= b <= a
          ensures results[b].version != vs[j]
        {
          assert results[b] == init[b];
        }
        assert results[a] == init[a];
      }
    }
  }

  /** Every make result is in the bucket of its own version as often as it
      is in the input, and in no other bucket: each result lands exactly
      once, in the bucket keyed by its version. */
  lemma {:induction false} WithVersionExactlyOnce(results: seq<MakeResult>, r: MakeResult, v: string)
    ensures multiset(WithVersion(results, r.version))[r] == multiset(results)[r]
    ensures v != r.version ==> r !in WithVersion(results, v)
  {
    if results != [] {
      var init := results[..|results| - 1];
      var last := results[|results| - 1];
      WithVersionExactlyOnce(init, r, v);
      assert results == init + [last];
    }
  }

  /** A version no result carries has an empty bucket. */
  lemma {:induction false} WithVersionUnseen(results: seq<MakeResult>, v: string)
    requires v !in Versions(results)
    ensures WithVersion(results, v) == []
  {
    if results != [] {
      var init := results[..|results| - 1];
      assert forall i :: 0 <= i < |init| ==> init[i] == results[i];
      WithVersionUnseen(init, v);
    }
  }

  /** Growing the input by one result extends the versions and one
      bucket. */
  lemma GroupStep(results: seq<MakeResult>, i: nat)
    requires i < |results|
    ensures Versions(results[..i + 1]) ==
      if results[i].version in Versions(results[..i]) then Versions(results[..i])
      else Versions(results[..i]) + [results[i].version]
    ensures forall v ::
              (WithVersion(results[..i + 1], v) ==
               WithVersion(results[..i], v) + (if results[i].version == v then [results[i]] else []))
  {
    assert results[..i + 1][..i] == results[..i];
  }

  /** The first loop of `publish`, filling `perReleaseArtifacts`. */
  method GroupByVersion(results: seq<MakeResult>) returns (groups: map<string, seq<MakeResult>>, order: seq<string>)
    ensures order == Versions(results)
    ensures forall v :: v in groups <==> v in order
    ensures forall v :: v in groups ==> groups[v] == WithVersion(results, v)
  {
    groups, order := map[], [];
    var i := 0;
    while i < |results|
      invariant 0 <= i <= |results|
      invariant order == Versions(results[..i])
      invariant forall v :: v in groups <==> v in order
      invariant forall v :: v in groups ==> groups[v] == WithVersion(results[..i], v)
    {
      var r := results[i];
      GroupStep(results, i);
      if r.version !in groups {
        WithVersionUnseen(results[..i], r.version);
        groups := groups[r.version := []];
        order := order + [r.version];
      }
      groups := groups[r.version := groups[r.version] + [r]];
      i := i + 1;
    }
    assert results[..i] == results;
  }

  /* ---------------------------------------------------------------------
     Repository check and release choice
     --------------------------------------------------------------------- */

  /** `config.repository` is an object with a truthy `owner` and `name`. */
  predicate ValidRepository(repository: Value)
  {
    repository.Record? && Truthy(Field(repository, "owner")) && Truthy(Field(repository, "name"))
  }

  function ReleaseTag(version: string): string
  {
    "v" + version
  }

  /** `releases.find(r => r.tag_name === tag)`: the first release with that
      tag. */
  function FindRelease(releases: seq<Release>, tag: string): (r: Option<Release>)
    ensures r.None? <==> forall i :: 0 <= i < |releases| ==> releases[i].tagName != tag
    ensures r.Some? ==> exists i :: 0 <= i < |releases| && releases[i] == r.value && r.value.tagName == tag &&
                                    forall j :: 0 <= j < i ==> releases[j].tagName != tag
  {
    if releases == [] then None
    else if releases[0].tagName == tag then Some(releases[0])
    else
      var rest := FindRelease(releases[1..], tag);
      assert forall i :: 1 <= i < |releases| ==> releases[i] == releases[1..][i - 1];
      rest
  }

  /** The release `publish` creates for `version`: tag and name are both
      `v<version>`; it is a draft unless `draft` is exactly `false`, and a
      prerelease only when `prerelease` is exactly `true`. */
  function NewRelease(config: GithubConfig, version: string): (req: CreateRequest)
    ensures req.tagName == req.name == ReleaseTag(version)
    ensures req.draft <==> config.draft != Bool(false)
    ensures req.prerelease <==> config.prerelease == Bool(true)
  {
    CreateRequest(ReleaseTag(version), ReleaseTag(version), config.draft != Bool(false), config.prerelease == Bool(true))
  }

  /** The try/catch around the listing: the release tagged `v<version>` is
      used when listed; a 404 or a listing without it leads to creation; any
      other error is rethrown unchanged. */
  function ChooseRelease(config: GithubConfig, version: string, outcome: ListOutcome): (c: ReleaseChoice)
    ensures c.Rethrow? <==> outcome.RequestFailed? && outcome.code != NotFound
    ensures c.Rethrow? ==> c.code == outcome.code
    ensures c.CreateNew? <==>
      (outcome.RequestFailed? && outcome.code == NotFound) ||
      (outcome.Listed? && forall i :: 0 <= i < |outcome.releases| ==> outcome.releases[i].tagName != ReleaseTag(version))
    ensures c.CreateNew? ==> c.request == NewRelease(config, version)
    ensures c.UseExisting? ==> c.release in outcome.releases && c.release.tagName == ReleaseTag(version)
    ensures c.UseExisting? ==>
      outcome.Listed? &&
      exists i :: 0 <= i < |outcome.releases| && outcome.releases[i] == c.release &&
                  forall j :: 0 <= j < i ==> outcome.releases[j].tagName != ReleaseTag(version)
  {
    match outcome
    case RequestFailed(code) =>
      if code == NotFound then CreateNew(NewRelease(config, version)) else Rethrow(code)
    case Listed(releases) =>
      match FindRelease(releases, ReleaseTag(version))
      case Some(release) => UseExisting(release)
      case None => CreateNew(NewRelease(config, version))
  }

  /** The release the uploads go to: the chosen one, or the freshly created
      one, which has no assets yet. */
  function TargetRelease(choice: ReleaseChoice): Release
    requires !choice.Rethrow?
  {
    match choice
    case UseExisting(release) => release
    case CreateNew(request) => Release(request.tagName, [])
  }

  /* ---------------------------------------------------------------------
     Uploads
     --------------------------------------------------------------------- */

  /** The uploads for `artifacts`, in order, skipping every artifact whose
      basename is already an asset name. */
  function PendingUploads(tag: string, artifacts: seq<string>, assetNames: seq<string>): seq<Upload>
  {
    if artifacts == [] then []
    else
      var last := artifacts[|artifacts| - 1];
      PendingUploads(tag, artifacts[..|artifacts| - 1], assetNames) +
      (if Basename(last) in assetNames then [] else [Upload(tag, last, Basename(last))])
  }

  /** An upload happens exactly for the artifacts whose basename is not an
      asset yet, under that basename. */
  lemma {:induction false} PendingUploadsExactly(tag: string, artifacts: seq<string>, assetNames: seq<string>)
    ensures forall u :: u in PendingUploads(tag, artifacts, assetNames) ==>
      u.tagName == tag && u.artifactPath in artifacts && u.assetName == Basename(u.artifactPath) &&
      u.assetName !in assetNames
    ensures forall a :: a in artifacts && Basename(a) !in assetNames ==>
      Upload(tag, a, Basename(a)) in PendingUploads(tag, artifacts, assetNames)
  {
    if artifacts != [] {
      var init := artifacts[..|artifacts| - 1];
      PendingUploadsExactly(tag, init, assetNames);
      assert artifacts == init + [artifacts[|artifacts| - 1]];
    }
  }

  /** The upload loop: skips artifacts already present, uploads the rest,
      and counts every artifact as done. */
  method UploadArtifacts(release: Release, artifacts: seq<string>) returns (uploads: seq<Upload>, uploaded: nat)
    ensures uploads == PendingUploads(release.tagName, artifacts, release.assetNames)
    ensures uploaded == |artifacts|
  {
    uploads, uploaded := [], 0;
    var i := 0;
    while i < |artifacts|
      invariant 0 <= i <= |artifacts|
      invariant uploaded == i
      invariant uploads == PendingUploads(release.tagName, artifacts[..i], release.assetNames)
    {
      var path := artifacts[i];
      assert artifacts[..i + 1][..i] == artifacts[..i];
      if Basename(path) !in release.assetNames {
        uploads := uploads + [Upload(release.tagName, path, Basename(path))];
      }
      uploaded := uploaded + 1;
      i := i + 1;
    }
    assert artifacts[..i] == artifacts;
  }

  /* ---------------------------------------------------------------------
     Publishing
     --------------------------------------------------------------------- */

  function Uploads(steps: seq<Step>): seq<Upload>
  {
    if steps == [] then []
    else Uploads(steps[..|steps| - 1]) + (if steps[|steps| - 1].UploadedAsset? then [steps[|steps| - 1].upload] else [])
  }

  /** The steps for one version: rethrow, or create the release if needed
      and upload the missing artifacts. */
  function VersionSteps(config: GithubConfig, version: string, results: seq<MakeResult>, outcome: ListOutcome)
    : (seq<Step>, Option<PublishError>)
  {
    var choice := ChooseRelease(config, version, outcome);
    if choice.Rethrow? then ([], Some(GithubError(choice.code)))
    else
      var release := TargetRelease(choice);
      var created := if choice.CreateNew? then [CreatedRelease(choice.request)] else [];
      (created + UploadSteps(PendingUploads(release.tagName, Flatten(results), release.assetNames)), None)
  }

  function UploadSteps(uploads: seq<Upload>): (steps: seq<Step>)
    ensures |steps| == |uploads|
    ensures forall i :: 0 <= i < |uploads| ==> steps[i] == UploadedAsset(uploads[i])
  {
    if uploads == [] then [] else [UploadedAsset(uploads[0])] + UploadSteps(uploads[1..])
  }

  /** The steps of `publish` over the versions in `order`, stopping at the
      first error. */
  function PublishSteps(config: GithubConfig, order: seq<string>, results: seq<MakeResult>,
                        listReleases: string -> ListOutcome): (seq<Step>, Option<PublishError>)
  {
    if order == [] then ([], None)
    else
      var (steps, err) := VersionSteps(config, order[0], WithVersion(results, order[0]), listReleases(order[0]));
      if err.Some? then (steps, err)
      else
        var (more, err') := PublishSteps(config, order[1..], results, listReleases);
        (steps + more, err')
  }

  /** One iteration of the release loop. */
  method PublishVersion(config: GithubConfig, version: string, results: seq<MakeResult>, outcome: ListOutcome)
    returns (steps: seq<Step>, err: Option<PublishError>)
    ensures (steps, err) == VersionSteps(config, version, results, outcome)
  {
    var choice := ChooseRelease(config, version, outcome);
    if choice.Rethrow? {
      return [], Some(GithubError(choice.code));
    }
    var release := TargetRelease(choice);
    steps := if choice.CreateNew? then [CreatedRelease(choice.request)] else [];
    var flat := FlattenArtifacts(results);
    var uploads, uploaded := UploadArtifacts(release, flat);
    steps := steps + UploadSteps(uploads);
    err := None;
  }

  /** `publish`: groups the results, checks the repository before any
      request, then handles each version in turn. */
  method Publish(config: GithubConfig, makeResults: seq<MakeResult>, listReleases: string -> ListOutcome)
    returns (steps: seq<Step>, err: Option<PublishError>)
    ensures !ValidRepository(config.repository) ==> steps == [] && err == Some(RepositoryNotSet)
    ensures ValidRepository(config.repository) ==>
      (steps, err) == PublishSteps(config, Versions(makeResults), makeResults, listReleases)
  {
    var groups, order := GroupByVersion(makeResults);
    if !ValidRepository(config.repository) {
      return [], Some(RepositoryNotSet);
    }
    steps, err := PublishReleases(config, groups, order, makeResults, listReleases);
  }

  /** The release loop of `publish`, over the versions in first-seen
      order, stopping at the first error. */
  method PublishReleases(config: GithubConfig, groups: map<string, seq<MakeResult>>, order: seq<string>,
                         makeResults: seq<MakeResult>, listReleases: string -> ListOutcome)
    returns (steps: seq<Step>, err: Option<PublishError>)
    requires forall v :: v in order ==> v in groups && groups[v] == WithVersion(makeResults, v)
    ensures (steps, err) == PublishSteps(config, order, makeResults, listReleases)
  {
    ghost var all := PublishSteps(config, order, makeResults, listReleases);
    steps, err := [], None;
    var i := 0;
    assert order[i..] == order;
    assert steps + all.0 == all.0;
    while i < |order|
      invariant 0 <= i <= |order|
      invariant err == None
      invariant all.0 == steps + PublishSteps(config, order[i..], makeResults, listReleases).0
      invariant all.1 == PublishSteps(config, order[i..], makeResults, listReleases).1
    {
      var version := order[i];
      var versionSteps, versionErr := PublishVersion(config, version, groups[version], listReleases(version));
      PublishStepsUnfold(config, order, i, makeResults, listReleases);
      ghost var rest := PublishSteps(config, order[i + 1..], makeResults, listReleases);
      if versionErr.Some? {
        return steps + versionSteps, versionErr;
      }
      assert all.0 == (steps + versionSteps) + rest.0;
      steps := steps + versionSteps;
      i := i + 1;
    }
    assert order[i..] == [];
    assert steps + [] == steps;
  }

  /** `PublishSteps` over `order[i..]` unfolds into the steps for
      `order[i]` followed by those for `order[i + 1..]`. */
  lemma PublishStepsUnfold(config: GithubConfig, order: seq<string>, i: nat, results: seq<MakeResult>,
                           listReleases: string -> ListOutcome)
    requires i < |order|
    ensures var first := VersionSteps(config, order[i], WithVersion(results, order[i]), listReleases(order[i]));
            var rest := PublishSteps(config, order[i + 1..], results, listReleases);
            PublishSteps(config, order[i..], results, listReleases) ==
            if first.1.Some? then first else (first.0 + rest.0, rest.1)
  {
    assert order[i..][0] == order[i] && order[i..][1..] == order[i + 1..];
  }

  /** Every upload `publish` performs goes to the release tagged
      `v<version>` of one of the make results, under the basename of an
      artifact of that version. */
  lemma {:induction false} PublishUploadsTagged(config: GithubConfig, order: seq<string>, results: seq<MakeResult>,
                                                listReleases: string -> ListOutcome, u: Upload)
    requires u in Uploads(PublishSteps(config, order, results, listReleases).0)
    ensures exists v :: v in order && u.tagName == ReleaseTag(v) && u.artifactPath in Flatten(WithVersion(results, v))
    ensures u.assetName == Basename(u.artifactPath)
  {
    if order != [] {
      var v := order[0];
      var choice := ChooseRelease(config, v, listReleases(v));
      var (steps, err) := VersionSteps(config, v, WithVersion(results, v), listReleases(v));
      var all := PublishSteps(config, order, results, listReleases).0;
      if !choice.Rethrow? {
        var release := TargetRelease(choice);
        var flat := Flatten(WithVersion(results, v));
        var pending := PendingUploads(release.tagName, flat, release.assetNames);
        var created := if choice.CreateNew? then [CreatedRelease(choice.request)] else [];
        UploadsAppend(created, UploadSteps(pending));
        UploadsOfUploadSteps(pending);
        assert Uploads(created) == [];
        assert Uploads(steps) == pending;
        PendingUploadsExactly(release.tagName, flat, release.assetNames);
        if err.None? {
          var more := PublishSteps(config, order[1..], results, listReleases).0;
          assert all == steps + more;
          UploadsAppend(steps, more);
          if u !in pending {
            PublishUploadsTagged(config, order[1..], results, listReleases, u);
            var w :| w in order[1..] && u.tagName == ReleaseTag(w) && u.artifactPath in Flatten(WithVersion(results, w));
            assert w in order;
          }
        }
      }
    }
  }

  lemma {:induction false} UploadsAppend(a: seq<Step>, b: seq<Step>)
    ensures Uploads(a + b) == Uploads(a) + Uploads(b)
    decreases |b|
  {
    if b == [] {
      assert a + b == a;
    } else {
      var init := b[..|b| - 1];
      assert (a + b)[..|a + b| - 1] == a + init;
      UploadsAppend(a, init);
    }
  }

  lemma {:induction false} UploadsOfUploadSteps(uploads: seq<Upload>)
    ensures Uploads(UploadSteps(uploads)) == uploads
    decreases |uploads|
  {
    if uploads != [] {
      var steps := UploadSteps(uploads);
      var init := uploads[..|uploads| - 1];
      assert steps[..|steps| - 1] == UploadSteps(init);
      UploadsOfUploadSteps(init);
      assert uploads == init + [uploads[|uploads| - 1]];
    }
  }
}
