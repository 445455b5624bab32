/**
 * The command-line front end's data work: the backend listing, the two sorted
 * listings, and which target paths are missing from the model data directory.
 * Whether a path exists on disk is given as the set of existing paths.
 */
module Cli {
  import opened Wrappers
  import opened Strings
  import opened Sorting
  import Vai
  import Net

  // ---------------------------------------------------------------------------
  // list_backends

  /** The record lists `b` among its backends. */
  predicate HasBackend(meta: Vai.ModelMeta, b: string) {
    exists j :: 0 <= j < |meta.backends| && meta.backends[j].0 == b
  }

  /** The backend names of every record, record by record, each record's in its own order. */
  function BackendNames(metas: seq<Vai.ModelMeta>): (names: seq<string>)
    ensures forall b :: b in names <==> exists i :: 0 <= i < |metas| && HasBackend(metas[i], b)
  {
    if metas == [] then []
    else
      var own := seq(|metas[0].backends|, j requires 0 <= j < |metas[0].backends| => metas[0].backends[j].0);
      var rest := BackendNames(metas[1..]);
      assert forall b :: b in own <==> HasBackend(metas[0], b) by {
        forall b | HasBackend(metas[0], b) ensures b in own {
          var j :| 0 <= j < |metas[0].backends| && metas[0].backends[j].0 == b;
          assert own[j] == b;
        }
      }
      assert forall i :: 0 <= i < |metas[1..]| ==> metas[1..][i] == metas[i + 1];
      own + rest
  }

  /** `list_backends`: every backend named by any record, once each, in increasing order. */
  function ListBackends(metas: seq<Vai.ModelMeta>): (names: seq<string>)
    ensures StrictlySorted(names)
    ensures forall b :: b in names <==> exists i :: 0 <= i < |metas| && HasBackend(metas[i], b)
  {
    SortedUnique(BackendNames(metas))
  }

  /** The listing depends only on which backends occur: not on record order or repeats. */
  lemma ListBackendsCanonical(a: seq<Vai.ModelMeta>, b: seq<Vai.ModelMeta>)
    requires forall x :: x in BackendNames(a) <==> x in BackendNames(b)
    ensures ListBackends(a) == ListBackends(b)
  {
    StrictlySortedUnique(ListBackends(a), ListBackends(b));
  }

  // ---------------------------------------------------------------------------
  // list_models and list_backend_files

  /** The sort key of `list_models`: the id followed directly by the version. */
  function ListingKey(m: Vai.Model): string {
    m.id + m.version
  }

  /** `list_models`: the parsed models ordered by their key. */
  function ListModels(metas: seq<Vai.ModelMeta>, backend: string): (ms: seq<Vai.Model>)
    ensures SortedBy(ms, ListingKey)
    ensures multiset(ms) == multiset(Vai.ParseModelsMetadata(metas, backend))
  {
    SortBy(Vai.ParseModelsMetadata(metas, backend), ListingKey)
  }

  /** Models sharing a key are listed in record order. */
  lemma ListModelsStable(metas: seq<Vai.ModelMeta>, backend: string, k: string)
    ensures WithKey(ListModels(metas, backend), ListingKey, k)
            == WithKey(Vai.ParseModelsMetadata(metas, backend), ListingKey, k)
  {
    SortByStable(Vai.ParseModelsMetadata(metas, backend), ListingKey, k);
  }

  /** `list_backend_files`: the selected files in increasing order, repeats kept. */
  function ListBackendFiles(metas: seq<Vai.ModelMeta>, backend: string, includes: Option<string>): (fs: seq<string>)
    ensures SortedBy(fs, Id)
    ensures multiset(fs) == multiset(Vai.FindBackendFiles(metas, backend, includes))
  {
    SortBy(Vai.FindBackendFiles(metas, backend, includes), Id)
  }

  /** The file listing is the one increasing arrangement of the selected files. */
  lemma ListBackendFilesCanonical(metas: seq<Vai.ModelMeta>, backend: string, includes: Option<string>,
                                  other: seq<string>)
    requires SortedBy(other, Id)
    requires multiset(other) == multiset(Vai.FindBackendFiles(metas, backend, includes))
    ensures other == ListBackendFiles(metas, backend, includes)
  {
    SortedPermutationsEqual(other, ListBackendFiles(metas, backend, includes));
  }

  lemma SortedHeadLeast(s: seq<string>, x: string)
    requires SortedBy(s, Id) && x in s
    ensures LessEq(s[0], x)
  {
    var i :| 0 <= i < |s| && s[i] == x;
    if i > 0 { assert LessEq(Id(s[0]), Id(s[i])); } else { LessEqRefl(x); }
  }

  /** Two sorted arrangements of the same strings start alike and agree on the rest as multisets. */
  lemma SortedPermutationsHead(a: seq<string>, b: seq<string>)
    requires SortedBy(a, Id) && SortedBy(b, Id) && multiset(a) == multiset(b) && a != []
    ensures b != [] && a[0] == b[0] && multiset(a[1..]) == multiset(b[1..])
  {
    assert a[0] in multiset(b) && b[0] in multiset(a);
    SortedHeadLeast(b, a[0]);
    SortedHeadLeast(a, b[0]);
    LessEqAntisym(a[0], b[0]);
    assert a == [a[0]] + a[1..] && b == [b[0]] + b[1..];
    assert multiset(a[1..]) == multiset(a) - multiset{a[0]};
    assert multiset(b[1..]) == multiset(b) - multiset{b[0]};
  }

  lemma {:induction false} SortedPermutationsEqual(a: seq<string>, b: seq<string>)
    requires SortedBy(a, Id) && SortedBy(b, Id) && multiset(a) == multiset(b)
    ensures a == b
    decreases |a|
  {
    if a == [] {
      assert |multiset(b)| == 0;
    } else {
      SortedPermutationsHead(a, b);
      SortedPermutationsEqual(a[1..], b[1..]);
      assert a == [a[0]] + a[1..] && b == [b[0]] + b[1..];
    }
  }


  // ---------------------------------------------------------------------------
  // find_missing_files

  /** `os.path.join(dir, file)` with POSIX rules. */
  function PathJoin(dir: string, file: string): (path: string)
    ensures |file| > 0 && file[0] == '/' ==> path == file
    ensures !(|file| > 0 && file[0] == '/') ==>
              IsPrefix(dir, path) && |file| <= |path| && path[|path| - |file|..] == file
  {
    if |file| > 0 && file[0] == '/' then file
    else if dir == "" || dir[|dir| - 1] == '/' then dir + file
    else dir + "/" + file
  }

  /** Whatever precedes a '/' only shifts where the base name starts. */
  lemma {:induction false} NameStartAfterSlash(x: string, b: string)
    requires |x| > 0 && x[|x| - 1] == '/'
    ensures Net.NameStart(x + b) == |x| + Net.NameStart(b)
    decreases |b|
  {
    var p := x + b;
    if b == "" {
      assert p == x;
    } else if b[|b| - 1] != '/' {
      assert p[..|p| - 1] == x + b[..|b| - 1];
      NameStartAfterSlash(x, b[..|b| - 1]);
    }
  }

  /** Whatever precedes a '/' does not change the base name. */
  lemma BasenameAfterSlash(x: string, b: string)
    requires |x| > 0 && x[|x| - 1] == '/'
    ensures Net.Basename(x + b) == Net.Basename(b)
  {
    NameStartAfterSlash(x, b);
    assert (x + b)[|x| + Net.NameStart(b)..] == b[Net.NameStart(b)..];
  }

  /** A file keeps its base name when put under the data directory. */
  lemma JoinKeepsBasename(dir: string, file: string)
    ensures Net.Basename(PathJoin(dir, file)) == Net.Basename(file)
  {
    if !(|file| > 0 && file[0] == '/') {
      if dir != "" && dir[|dir| - 1] == '/' {
        BasenameAfterSlash(dir, file);
      } else if dir == "" {
        assert dir + file == file;
      } else {
        assert dir + "/" + file == (dir + "/") + file;
        BasenameAfterSlash(dir + "/", file);
      }
    }
  }

  /** Every file put under the data directory. */
  function TargetPaths(dir: string, files: seq<string>): (paths: seq<string>)
    ensures |paths| == |files|
    ensures forall i :: 0 <= i < |files| ==> paths[i] == PathJoin(dir, files[i])
  {
    if files == [] then [] else [PathJoin(dir, files[0])] + TargetPaths(dir, files[1..])
  }

  /** The paths not among the existing ones, in their order. */
  function MissingPaths(paths: seq<string>, existing: set<string>): (missing: seq<string>)
    ensures |missing| <= |paths|
    ensures forall i :: 0 <= i < |missing| ==> missing[i] !in existing
  {
    if paths == [] then []
    else (if paths[0] in existing then [] else [paths[0]]) + MissingPaths(paths[1..], existing)
  }

  /** An existing path is never reported; a missing one is reported as often as it is given. */
  lemma {:induction false} MissingPathsMultiplicity(paths: seq<string>, existing: set<string>, p: string)
    ensures multiset(MissingPaths(paths, existing))[p] == if p in existing then 0 else multiset(paths)[p]
    decreases |paths|
  {
    if paths != [] {
      MissingPathsMultiplicity(paths[1..], existing, p);
      assert paths == [paths[0]] + paths[1..];
    }
  }

  /** The missing paths keep the order of the backend files. */
  lemma {:induction false} MissingPathsAppend(a: seq<string>, b: seq<string>, existing: set<string>)
    ensures MissingPaths(a + b, existing) == MissingPaths(a, existing) + MissingPaths(b, existing)
    decreases |a|
  {
    if a == [] {
      assert a + b == b;
    } else {
      assert (a + b)[1..] == a[1..] + b;
      MissingPathsAppend(a[1..], b, existing);
    }
  }

  lemma MissingMember(paths: seq<string>, existing: set<string>, p: string)
    ensures p in MissingPaths(paths, existing) <==> p !in existing && p in paths
  {
    var missing := MissingPaths(paths, existing);
    MissingPathsMultiplicity(paths, existing, p);
    assert p in missing <==> multiset(missing)[p] > 0;
    assert p in paths <==> multiset(paths)[p] > 0;
  }

  lemma TargetMember(dir: string, files: seq<string>, p: string)
    ensures p in TargetPaths(dir, files) <==> exists f :: f in files && p == PathJoin(dir, f)
  {
    var targets := TargetPaths(dir, files);
    if p in targets {
      var i :| 0 <= i < |targets| && targets[i] == p;
      assert files[i] in files;
    }
    if exists f :: f in files && p == PathJoin(dir, f) {
      var f :| f in files && p == PathJoin(dir, f);
      var i :| 0 <= i < |files| && files[i] == f;
      assert targets[i] == p;
    }
  }

  /** `find_missing_files`: the selected files under `dataDir` that do not exist yet. */
  function FindMissingFiles(metas: seq<Vai.ModelMeta>, backend: string, includes: Option<string>,
                            dataDir: string, existing: set<string>): (missing: seq<string>)
    ensures |missing| <= |Vai.FindBackendFiles(metas, backend, includes)|
    ensures forall i :: 0 <= i < |missing| ==> missing[i] !in existing
  {
    MissingPaths(TargetPaths(dataDir, Vai.FindBackendFiles(metas, backend, includes)), existing)
  }

  /** A path is reported missing exactly when it is a selected file's target and does not exist. */
  lemma FindMissingFilesMember(metas: seq<Vai.ModelMeta>, backend: string, includes: Option<string>,
                               dataDir: string, existing: set<string>, p: string)
    ensures p in FindMissingFiles(metas, backend, includes, dataDir, existing)
            <==> p !in existing
                 && exists f :: f in Vai.FindBackendFiles(metas, backend, includes) && p == PathJoin(dataDir, f)
  {
    var files := Vai.FindBackendFiles(metas, backend, includes);
    MissingMember(TargetPaths(dataDir, files), existing, p);
    TargetMember(dataDir, files, p);
  }

  /** When every target exists, nothing is missing. */
  lemma {:induction false} AllExistNothingMissing(paths: seq<string>, existing: set<string>)
    requires forall i :: 0 <= i < |paths| ==> paths[i] in existing
    ensures MissingPaths(paths, existing) == []
    decreases |paths|
  {
    if paths != [] {
      AllExistNothingMissing(paths[1..], existing);
    }
  }

  /** When nothing exists yet, every target is missing, in order. */
  lemma NothingExistsAllMissing(paths: seq<string>)
    ensures MissingPaths(paths, {}) == paths
  {
    if paths != [] {
      NothingExistsAllMissing(paths[1..]);
      assert paths == [paths[0]] + paths[1..];
    }
  }

  /**
   * `download_missing_files`: every download job fetches a selected file's base name
   * from the download host and writes it to that file's missing target path.
   */
  lemma DownloadJobsForMissing(metas: seq<Vai.ModelMeta>, backend: string, includes: Option<string>,
                               dataDir: string, existing: set<string>, k: nat)
    requires k < |FindMissingFiles(metas, backend, includes, dataDir, existing)|
    ensures var missing := FindMissingFiles(metas, backend, includes, dataDir, existing);
            var job := Net.DownloadJobs(missing)[k];
            && job.1 !in existing
            && exists f :: f in Vai.FindBackendFiles(metas, backend, includes)
                           && job.1 == PathJoin(dataDir, f)
                           && job.0 == Net.DownloadUrlPrefix + Net.Basename(f)
  {
    var missing := FindMissingFiles(metas, backend, includes, dataDir, existing);
    var p := missing[k];
    assert p in missing;
    FindMissingFilesMember(metas, backend, includes, dataDir, existing, p);
    var f :| f in Vai.FindBackendFiles(metas, backend, includes) && p == PathJoin(dataDir, f);
    JoinKeepsBasename(dataDir, f);
  }
}
