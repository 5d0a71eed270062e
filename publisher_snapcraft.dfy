/** The Snapcraft publisher: it pushes the `.snap` artifacts of the make
    results to the snap store, after checking that there is something to
    push and that the store credentials exist. The file system is an oracle
    (`pathExists`); the push is returned as a value. */
module PublisherSnapcraft {
  import opened Values
  import opened Paths
  import opened MakeResults

  const SnapExtension := ".snap"
  const CredentialsDir := ".snapcraft"
  const CredentialsFile := "snapcraft.cfg"
  const PushCommand := "push"

  /** The store command run in `dir` with the publisher configuration and
      the snap files. */
  datatype SnapPush = SnapPush(dir: string, command: string, config: map<string, Value>, snaps: seq<string>)

  datatype SnapError = NoSnapFiles | CredentialsNotFound(path: string)

  predicate EndsWith(s: string, suffix: string)
  {
    |suffix| <= |s| && s[|s| - |suffix|..] == suffix
  }

  /** `artifacts.filter(a => a.endsWith('.snap'))`. */
  function SnapFiles(artifacts: seq<string>): seq<string>
  {
    if artifacts == [] then []
    else
      var last := artifacts[|artifacts| - 1];
      SnapFiles(artifacts[..|artifacts| - 1]) + (if EndsWith(last, SnapExtension) then [last] else [])
  }

  /** The snap list holds exactly the artifacts ending in `.snap`. */
  lemma {:induction false} SnapFilesExactly(artifacts: seq<string>)
    ensures forall a :: a in SnapFiles(artifacts) <==> a in artifacts && EndsWith(a, SnapExtension)
  {
    if artifacts != [] {
      var init := artifacts[..|artifacts| - 1];
      SnapFilesExactly(init);
      assert artifacts == init + [artifacts[|artifacts| - 1]];
    }
  }

  /** Filtering keeps the original order: it distributes over
      concatenation, so the snaps of earlier make results come first. */
  lemma {:induction false} SnapFilesAppend(a: seq<string>, b: seq<string>)
    ensures SnapFiles(a + b) == SnapFiles(a) + SnapFiles(b)
    decreases |b|
  {
    if b == [] {
      assert a + b == a;
    } else {
      var init := b[..|b| - 1];
      assert (a + b)[..|a + b| - 1] == a + init;
      SnapFilesAppend(a, init);
    }
  }

  /** Filtering twice changes nothing. */
  lemma {:induction false} SnapFilesIdempotent(artifacts: seq<string>)
    ensures SnapFiles(SnapFiles(artifacts)) == SnapFiles(artifacts)
  {
    if artifacts != [] {
      var init := artifacts[..|artifacts| - 1];
      var last := artifacts[|artifacts| - 1];
      SnapFilesIdempotent(init);
      var tail := if EndsWith(last, SnapExtension) then [last] else [];
      SnapFilesAppend(SnapFiles(init), tail);
      assert SnapFiles(tail) == tail by {
        if tail != [] {
          assert tail[..0] == [];
        }
      }
    }
  }

  /** `path.join(dir, '.snapcraft', 'snapcraft.cfg')`. */
  function CredentialsPath(dir: string): string
  {
    Join(Join(dir, CredentialsDir), CredentialsFile)
  }

  /** The credentials file is `snapcraft.cfg` inside the `.snapcraft`
      directory of `dir`. */
  lemma CredentialsPathParts(dir: string)
    requires dir != []
    ensures Basename(CredentialsPath(dir)) == CredentialsFile
    ensures Dirname(CredentialsPath(dir)) == Join(dir, CredentialsDir)
    ensures Basename(Dirname(CredentialsPath(dir))) == CredentialsDir
    ensures Dirname(Dirname(CredentialsPath(dir))) == dir
  {
    assert Separator !in CredentialsFile;
    assert Separator !in CredentialsDir;
    DirnameBasenameJoin(Join(dir, CredentialsDir), CredentialsFile);
    DirnameBasenameJoin(dir, CredentialsDir);
  }

  /** `publish`: the snap list is checked before the credentials, and on
      success exactly the snap list is pushed from `dir`. */
  method Publish(dir: string, config: map<string, Value>, makeResults: seq<MakeResult>, pathExists: string -> bool)
    returns (r: Result<SnapPush, SnapError>)
    ensures SnapFiles(Flatten(makeResults)) == [] ==> r == Err(NoSnapFiles)
    ensures SnapFiles(Flatten(makeResults)) != [] && !pathExists(CredentialsPath(dir)) ==>
      r == Err(CredentialsNotFound(CredentialsPath(dir)))
    ensures r.Ok? <==> SnapFiles(Flatten(makeResults)) != [] && pathExists(CredentialsPath(dir))
    ensures r.Ok? ==> r.value == SnapPush(dir, PushCommand, config, SnapFiles(Flatten(makeResults)))
  {
    var artifacts := FlattenArtifacts(makeResults);
    var snaps := SnapFiles(artifacts);
    if |snaps| == 0 {
      return Err(NoSnapFiles);
    }
    var credentials := CredentialsPath(dir);
    if !pathExists(credentials) {
      return Err(CredentialsNotFound(credentials));
    }
    r := Ok(SnapPush(dir, PushCommand, config, snaps));
  }
}
