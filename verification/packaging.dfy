/** `main` of the packaging script: a release branch, a recipe of inputs, and for
    each input in turn: check its plugin metadata, stage its component, upload
    the component, download the installer repository, let `repogen` add the
    staged components to it, and upload the repository again with its index
    last. The first failure ends the run. */
module Packaging {
  import opened Outcomes
  import opened Text
  import opened Paths
  import opened Artifactory
  import opened Upload
  import opened Download
  import opened Branch
  import opened Recipe

  /** The `--os` choices. */
  datatype TargetOs = Windows | MacOs | Linux

  /** The key an OS is filed under remotely. */
  function OsKey(os: TargetOs): (key: string)
    ensures Plain(key)
  {
    match os
    case Windows => "windows"
    case MacOs => "macos"
    case Linux => "linux"
  }

  // ---------------------------------------------------------------------------
  // Remote layout
  // ---------------------------------------------------------------------------

  /** `Path(os, internal).as_posix()`: the release's folder. */
  function ArtBase(os: TargetOs, internal: string): string {
    JoinPath([OsKey(os), internal])
  }

  /** The folder of a release that holds its installer repository. */
  const RepoFolder := "repo-current"

  /** The folder of a release that holds its uploaded components. */
  const PackagesFolder := "packages"

  /** The installer repository of the release. */
  function RemoteRepoCurrent(os: TargetOs, internal: string): string {
    JoinPath([ArtBase(os, internal), RepoFolder])
  }

  /** Where a component is uploaded. */
  function RemoteComponent(os: TargetOs, internal: string, id: string): string {
    ArtBase(os, internal) + "/" + PackagesFolder + "/" + id
  }

  // ---------------------------------------------------------------------------
  // Publishing one component
  // ---------------------------------------------------------------------------

  /** What the script relies on but does not decide: the server's answers, the
      local file `package.xml` becomes once written, the installer repository
      the server holds at a remote path, and what `repogen --update` leaves in the
      local repository (the files listed, or `None` when the tool fails). */
  datatype Env = Env(
    server: Server,
    artUrl: string,
    artRepo: string,
    written: string -> LocalFile,
    current: string -> Node,
    repogen: (seq<string>, set<seq<string>>) -> Option<seq<Listed>>)

  /** The one file of a staged component (its `data` directory stays empty). */
  const MetaFile := "meta/package.xml"

  /** One input carried through: its metadata, the component ids staged so far,
      each stage that ran, and the error that ended it, if any. */
  datatype Published = Published(
    meta: PackageMeta,
    staged: seq<string>,
    component: seq<Attempt>,
    download: Option<Run>,
    repo: Option<seq<Listed>>,
    publish: seq<Attempt>,
    error: Option<PackError>)

  /** The listing of a staged component. */
  function ComponentFiles(env: Env, meta: PackageMeta): seq<Listed> {
    [Listed(MetaFile, env.written(PackageXml(meta)))]
  }

  /** Upload the component, download the repository, run `repogen`, upload the
      repository with its index last; stop at the first stage that fails. */
  function PublishComponent(env: Env, os: TargetOs, internal: string, k: nat, staged: seq<string>, meta: PackageMeta): (p: Published)
    ensures p.meta == meta && p.staged == staged
    ensures |p.component| > 0 && p.component[0].entry == Listed(MetaFile, env.written(PackageXml(meta)))
    ensures p.component[0].upload.url
         == UploadUrl(env.artUrl, env.artRepo, RemotePath(RemoteComponent(os, internal, meta.id), MetaFile))
    ensures p.component
         == UploadTree(env.server, env.artUrl, env.artRepo, RemoteComponent(os, internal, meta.id), ComponentFiles(env, meta), false)
    ensures p.download.Some? <==> Completed(p.component, ComponentFiles(env, meta))
    ensures p.repo.Some? ==> p.download.Some? && p.download.value.ok
    ensures var remote := RemoteRepoCurrent(os, internal);
      p.download.Some? ==> p.download.value == RepoCurrent(env.artUrl, env.artRepo, remote, env.current(remote))
    ensures p.download.Some? && p.download.value.ok ==> p.repo == env.repogen(staged, Written(p.download.value.events))
    ensures p.publish != [] ==> p.repo.Some?
    ensures p.repo.Some? ==> p.publish == UploadTree(env.server, env.artUrl, env.artRepo, RemoteRepoCurrent(os, internal), p.repo.value, true)
    ensures p.error.None? <==>
      && Completed(p.component, ComponentFiles(env, meta))
      && p.download.Some? && p.download.value.ok
      && p.repo.Some?
      && Completed(p.publish, p.repo.value)
    ensures p.error.Some? ==>
      (p.error.value in {ComponentUploadFailed(k), RepoDownloadFailed(k), RepogenFailed(k), RepoUploadFailed(k)})
    ensures !Completed(p.component, ComponentFiles(env, meta)) ==> p.error == Some(ComponentUploadFailed(k))
    ensures p.download.Some? && !p.download.value.ok ==> p.error == Some(RepoDownloadFailed(k))
    ensures p.download.Some? && p.download.value.ok && p.repo.None? ==> p.error == Some(RepogenFailed(k))
    ensures p.repo.Some? && !Completed(p.publish, p.repo.value) ==> p.error == Some(RepoUploadFailed(k))
  {
    var files := ComponentFiles(env, meta);
    var up := UploadTree(env.server, env.artUrl, env.artRepo, RemoteComponent(os, internal, meta.id), files, false);
    if !Completed(up, files) then
      Published(meta, staged, up, None, None, [], Some(ComponentUploadFailed(k)))
    else
      var remote := RemoteRepoCurrent(os, internal);
      var down := RepoCurrent(env.artUrl, env.artRepo, remote, env.current(remote));
      if !down.ok then
        Published(meta, staged, up, Some(down), None, [], Some(RepoDownloadFailed(k)))
      else
        match env.repogen(staged, Written(down.events))
        case None =>
          Published(meta, staged, up, Some(down), None, [], Some(RepogenFailed(k)))
        case Some(listing) =>
          var pub := UploadTree(env.server, env.artUrl, env.artRepo, remote, listing, true);
          Published(meta, staged, up, Some(down), Some(listing), pub,
                    if Completed(pub, listing) then None else Some(RepoUploadFailed(k)))
  }

  // ---------------------------------------------------------------------------
  // The run
  // ---------------------------------------------------------------------------

  /** The command line as the model needs it; `releaseDate` is today's date. */
  datatype Args = Args(branch: string, os: TargetOs, workDir: string, releaseDate: string)

  /** The inputs carried through, and the error that ended the run, if any. */
  datatype Outcome = Outcome(steps: seq<Published>, error: Option<PackError>)

  /** The ids of the components of `steps`, in order. */
  function Ids(steps: seq<Published>): (ids: seq<string>)
    ensures |ids| == |steps|
    ensures forall i :: 0 <= i < |steps| ==> ids[i] == steps[i].meta.id
  {
    seq(|steps|, i requires 0 <= i < |steps| => steps[i].meta.id)
  }

  lemma IdsAppend(a: seq<Published>, b: seq<Published>)
    ensures Ids(a + b) == Ids(a) + Ids(b)
  {
  }

  /** The loop over the inputs from number `k` on, with `staged` the component
      ids staged by earlier inputs: `read` checks input number `k`, `publish`
      carries a checked input through the publish stages. */
  function Process(inputs: seq<InputJson>,
                   read: (nat, InputJson) -> Result<PackageMeta, PackError>,
                   publish: (nat, seq<string>, PackageMeta) -> Published,
                   k: nat, staged: seq<string>): (o: Outcome)
    requires k <= |inputs|
    ensures |o.steps| <= |inputs| - k
    ensures forall j :: 0 <= j < |o.steps| - 1 ==> o.steps[j].error.None?
    ensures o.error.None? <==> |o.steps| == |inputs| - k && forall j :: 0 <= j < |o.steps| ==> o.steps[j].error.None?
    ensures o.error.Some? && |o.steps| > 0 && o.steps[|o.steps| - 1].error.Some?
      ==> o.error == o.steps[|o.steps| - 1].error
    decreases |inputs| - k
  {
    if k == |inputs| then Outcome([], None)
    else
      match read(k, inputs[k])
      case Err(e) => Outcome([], Some(e))
      case Ok(meta) =>
        var st := staged + [meta.id];
        var p := publish(k, st, meta);
        if p.error.Some? then
          var o := Outcome([p], p.error);
          assert o.steps[0] == p;
          o
        else
          var rest := Process(inputs, read, publish, k + 1, st);
          var steps := [p] + rest.steps;
          ConsSteps(p, rest.steps);
          Outcome(steps, rest.error)
  }

  /** A step that ended without an error in front of `rest`. */
  lemma ConsSteps(p: Published, rest: seq<Published>)
    requires p.error.None?
    ensures var steps := [p] + rest;
      && ((forall j :: 0 <= j < |rest| ==> rest[j].error.None?) <==> (forall j :: 0 <= j < |steps| ==> steps[j].error.None?))
      && ((forall j :: 0 <= j < |rest| - 1 ==> rest[j].error.None?) ==> (forall j :: 0 <= j < |steps| - 1 ==> steps[j].error.None?))
      && (|rest| > 0 ==> steps[|steps| - 1] == rest[|rest| - 1])
  {
    var steps := [p] + rest;
    assert forall j :: 1 <= j < |steps| ==> steps[j] == rest[j - 1];
    assert forall j :: 0 <= j < |rest| ==> rest[j] == steps[j + 1];
  }

  /** The checks of one input, for a release. */
  function Reader(args: Args, rel: Release, infos: map<string, PluginJson>): (nat, InputJson) -> Result<PackageMeta, PackError> {
    (k: nat, input: InputJson) => ReadInput(args.workDir, rel.appVersion, args.releaseDate, infos, k, input)
  }

  /** The publish stages of one input, for a release. */
  function Publisher(env: Env, args: Args, rel: Release): (nat, seq<string>, PackageMeta) -> Published {
    (k: nat, staged: seq<string>, meta: PackageMeta) => PublishComponent(env, args.os, rel.internalVersion, k, staged, meta)
  }

  /** `main`: the branch is read first, then the recipe (`None` when the file is
      missing), then the inputs one after another. */
  function Package(env: Env, args: Args, recipe: Option<RecipeJson>, infos: map<string, PluginJson>): (o: Outcome)
    ensures ParseBranch(args.branch).Err? ==> o == Outcome([], Some(NotReleaseBranch))
    ensures ParseBranch(args.branch).Ok? && recipe.None? ==> o == Outcome([], Some(NoRecipe))
    ensures ParseBranch(args.branch).Ok? && recipe.Some? && recipe.value.inputs.None? ==> o == Outcome([], Some(MissingInputs))
    ensures o.error.None? ==>
      && ParseBranch(args.branch).Ok? && recipe.Some? && recipe.value.inputs.Some?
      && |o.steps| == |recipe.value.inputs.value|
      && forall j :: 0 <= j < |o.steps| ==> o.steps[j].error.None?
    ensures forall j :: 0 <= j < |o.steps| - 1 ==> o.steps[j].error.None?
  {
    match ParseBranch(args.branch)
    case Err(_) => Outcome([], Some(NotReleaseBranch))
    case Ok(rel) =>
      if recipe.None? then Outcome([], Some(NoRecipe))
      else if recipe.value.inputs.None? then Outcome([], Some(MissingInputs))
      else Process(recipe.value.inputs.value, Reader(args, rel, infos), Publisher(env, args, rel), 0, [])
  }

  // ---------------------------------------------------------------------------
  // Lemmas
  // ---------------------------------------------------------------------------

  /** The remote layout of a release whose internal version has no '/': the
      release folder is `<os>/<version>` (or `<os>` when the version is empty or
      "."), the repository is `repo-current` inside it, and a component is
      `packages/<id>` inside it. */
  lemma RemoteLayout(os: TargetOs, internal: string, id: string)
    requires '/' !in internal
    ensures ArtBase(os, internal)
         == if internal == "" || internal == "." then OsKey(os) else OsKey(os) + "/" + internal
    ensures RemoteRepoCurrent(os, internal) == ArtBase(os, internal) + "/" + RepoFolder
  {
    if internal == "" || internal == "." {
      LayoutUnversioned(os, internal);
    } else {
      LayoutVersioned(os, internal);
    }
  }

  lemma LayoutUnversioned(os: TargetOs, internal: string)
    requires internal == "" || internal == "."
    ensures ArtBase(os, internal) == OsKey(os)
    ensures RemoteRepoCurrent(os, internal) == OsKey(os) + "/" + RepoFolder
  {
    var key := OsKey(os);
    assert ArtBase(os, internal) == key by {
      JoinPlainDropped(key, internal);
    }
    KeyRepoCurrent(key);
  }

  lemma KeyRepoCurrent(key: string)
    requires Plain(key)
    ensures JoinPath([key, RepoFolder]) == key + "/" + RepoFolder
  {
    RepoCurrentPlain();
    JoinTwoPlain(key, RepoFolder);
  }

  lemma RepoCurrentPlain()
    ensures Plain(RepoFolder)
  {
  }

  lemma LayoutVersioned(os: TargetOs, internal: string)
    requires Plain(internal)
    ensures ArtBase(os, internal) == OsKey(os) + "/" + internal
    ensures RemoteRepoCurrent(os, internal) == OsKey(os) + "/" + internal + "/" + RepoFolder
  {
    JoinTwoPlain(OsKey(os), internal);
    FolderLayout(os, internal, RepoFolder);
  }

  /** A folder below the base of a release whose internal version has no '/'. */
  lemma FolderLayout(os: TargetOs, internal: string, folder: string)
    requires Plain(internal) && Plain(folder)
    ensures JoinPath([ArtBase(os, internal), folder]) == OsKey(os) + "/" + internal + "/" + folder
  {
    var key := OsKey(os);
    JoinNested(key, internal, folder);
    JoinThreePlain(key, internal, folder);
  }

  /** Every input carried through passed its checks and was published with the
      ids staged up to and including its own. */
  lemma {:induction false} ProcessSteps(inputs: seq<InputJson>,
                   read: (nat, InputJson) -> Result<PackageMeta, PackError>,
                   publish: (nat, seq<string>, PackageMeta) -> Published,
                   k: nat, staged: seq<string>)
    requires k <= |inputs|
    requires forall n, st, m :: publish(n, st, m).meta == m
    ensures Faithful(Process(inputs, read, publish, k, staged), inputs, read, publish, k, staged)
    decreases |inputs| - k
  {
    var o := Process(inputs, read, publish, k, staged);
    if k < |inputs| && read(k, inputs[k]).Ok? {
      var meta := read(k, inputs[k]).value;
      var st := staged + [meta.id];
      var p := publish(k, st, meta);
      if p.error.None? {
        var rest := Process(inputs, read, publish, k + 1, st);
        ProcessSteps(inputs, read, publish, k + 1, st);
        FaithfulCons(inputs, read, publish, k, staged, p, rest);
        assert o == Outcome([p] + rest.steps, rest.error);
      } else {
        FaithfulCons(inputs, read, publish, k, staged, p, Outcome([], p.error));
        assert o == Outcome([p] + [], p.error);
      }
    }
  }

  /** One checked and published input in front of a faithful rest. */
  lemma FaithfulCons(inputs: seq<InputJson>,
                     read: (nat, InputJson) -> Result<PackageMeta, PackError>,
                     publish: (nat, seq<string>, PackageMeta) -> Published,
                     k: nat, staged: seq<string>, p: Published, rest: Outcome)
    requires k < |inputs| && read(k, inputs[k]) == Ok(p.meta)
    requires p == publish(k, staged + [p.meta.id], p.meta)
    requires Faithful(rest, inputs, read, publish, k + 1, staged + [p.meta.id])
    ensures Faithful(Outcome([p] + rest.steps, rest.error), inputs, read, publish, k, staged)
  {
    var st := staged + [p.meta.id];
    var o := Outcome([p] + rest.steps, rest.error);
    forall j | 0 <= j < |o.steps|
      ensures FaithfulStep(o, inputs, read, publish, k, staged, j)
    {
      ProcessStep(k, staged, p, rest.steps, j);
      if j > 0 {
        var i := j - 1;
        assert o.steps[j] == rest.steps[i];
        FaithfulAt(rest, inputs, read, publish, k + 1, st, i);
      } else {
        assert st + Ids(rest.steps[..0]) == st;
      }
    }
    assert Faithful(o, inputs, read, publish, k, staged);
  }

  /** Step `i` of a faithful outcome. */
  lemma FaithfulAt(o: Outcome, inputs: seq<InputJson>,
                   read: (nat, InputJson) -> Result<PackageMeta, PackError>,
                   publish: (nat, seq<string>, PackageMeta) -> Published,
                   k: nat, staged: seq<string>, i: nat)
    requires Faithful(o, inputs, read, publish, k, staged)
    requires i < |o.steps|
    ensures FaithfulStep(o, inputs, read, publish, k, staged, i)
    ensures k + i < |inputs|
    ensures read(k + i, inputs[k + i]) == Ok(o.steps[i].meta)
    ensures o.steps[i] == publish(k + i, staged + Ids(o.steps[..i + 1]), o.steps[i].meta)
  {
  }

  /** Step `j` of `o` is input `k + j`, which passed `read`, and was published
      with `staged` and the ids of steps `0..j` staged. */
  ghost predicate Faithful(o: Outcome, inputs: seq<InputJson>,
                           read: (nat, InputJson) -> Result<PackageMeta, PackError>,
                           publish: (nat, seq<string>, PackageMeta) -> Published,
                           k: nat, staged: seq<string>)
  {
    forall j :: 0 <= j < |o.steps| ==> FaithfulStep(o, inputs, read, publish, k, staged, j)
  }

  /** Step `j` of `o` is input `k + j`, which passed `read`, and was published
      with `staged` and the ids of steps `0..j` staged. */
  ghost predicate FaithfulStep(o: Outcome, inputs: seq<InputJson>,
                               read: (nat, InputJson) -> Result<PackageMeta, PackError>,
                               publish: (nat, seq<string>, PackageMeta) -> Published,
                               k: nat, staged: seq<string>, j: nat)
    requires j < |o.steps|
  {
    && k + j < |inputs|
    && read(k + j, inputs[k + j]) == Ok(o.steps[j].meta)
    && o.steps[j] == publish(k + j, staged + Ids(o.steps[..j + 1]), o.steps[j].meta)
  }

  /** The ids staged at step `j` of `[p] + rest`. */
  lemma ProcessStep(k: nat, staged: seq<string>, p: Published, rest: seq<Published>, j: nat)
    requires j <= |rest|
    ensures staged + Ids(([p] + rest)[..j + 1]) == (staged + [p.meta.id]) + Ids(rest[..j])
  {
    assert ([p] + rest)[..j + 1] == [p] + rest[..j];
    IdsAppend([p], rest[..j]);
    assert Ids([p]) == [p.meta.id];
  }

  /** If `o` failed without a failed publish, it stopped at input `k + |o.steps|`,
      which did not pass `read`, with that input's error. */
  ghost predicate StopsAtBadInput(o: Outcome, inputs: seq<InputJson>,
                                  read: (nat, InputJson) -> Result<PackageMeta, PackError>, k: nat)
  {
    o.error.Some? && (|o.steps| == 0 || o.steps[|o.steps| - 1].error.None?) ==>
      k + |o.steps| < |inputs| && read(k + |o.steps|, inputs[k + |o.steps|]) == Err(o.error.value)
  }

  /** A run that stops early, without a failed publish, stops at the first input
      whose checks fail, and reports that input's error. */
  lemma {:induction false} ProcessStopsAtBadInput(inputs: seq<InputJson>,
                   read: (nat, InputJson) -> Result<PackageMeta, PackError>,
                   publish: (nat, seq<string>, PackageMeta) -> Published,
                   k: nat, staged: seq<string>)
    requires k <= |inputs|
    ensures StopsAtBadInput(Process(inputs, read, publish, k, staged), inputs, read, k)
    decreases |inputs| - k
  {
    var o := Process(inputs, read, publish, k, staged);
    if k < |inputs| && read(k, inputs[k]).Ok? {
      var meta := read(k, inputs[k]).value;
      var st := staged + [meta.id];
      var p := publish(k, st, meta);
      if p.error.None? {
        var rest := Process(inputs, read, publish, k + 1, st);
        ProcessStopsAtBadInput(inputs, read, publish, k + 1, st);
        assert StopsAtBadInput(rest, inputs, read, k + 1);
        assert o.steps == [p] + rest.steps;
        if |rest.steps| > 0 {
          assert o.steps[|o.steps| - 1] == rest.steps[|rest.steps| - 1];
        }
        assert k + |o.steps| == (k + 1) + |rest.steps|;
      }
    }
  }

  /** Once the branch and the recipe are read, the run is the loop over the inputs. */
  lemma PackageIsProcess(env: Env, args: Args, recipe: Option<RecipeJson>, infos: map<string, PluginJson>)
    requires ParseBranch(args.branch).Ok? && recipe.Some? && recipe.value.inputs.Some?
    ensures var rel := ParseBranch(args.branch).value;
      Package(env, args, recipe, infos)
        == Process(recipe.value.inputs.value, Reader(args, rel, infos), Publisher(env, args, rel), 0, [])
  {
  }

  /** The inputs of a run, the checks they passed and the stages they went
      through: input `j` is the `j`-th of the recipe, and its component was
      published with the components of inputs `0..j` staged. */
  lemma PackageSteps(env: Env, args: Args, recipe: Option<RecipeJson>, infos: map<string, PluginJson>)
    ensures var o := Package(env, args, recipe, infos);
      |o.steps| > 0 ==>
        && ParseBranch(args.branch).Ok? && recipe.Some? && recipe.value.inputs.Some?
        && |o.steps| <= |recipe.value.inputs.value|
        && forall j :: 0 <= j < |o.steps| ==>
             var rel := ParseBranch(args.branch).value;
             && ReadInput(args.workDir, rel.appVersion, args.releaseDate, infos, j, recipe.value.inputs.value[j])
                == Ok(o.steps[j].meta)
             && o.steps[j] == PublishComponent(env, args.os, rel.internalVersion, j, Ids(o.steps[..j + 1]), o.steps[j].meta)
  {
    var o := Package(env, args, recipe, infos);
    if |o.steps| > 0 {
      var rel := ParseBranch(args.branch).value;
      var inputs := recipe.value.inputs.value;
      var read := Reader(args, rel, infos);
      var publish := Publisher(env, args, rel);
      PackageIsProcess(env, args, recipe, infos);
      assert forall n, st, m :: publish(n, st, m).meta == m;
      ProcessSteps(inputs, read, publish, 0, []);
      forall j | 0 <= j < |o.steps| {
        FaithfulRunAt(env, args, rel, inputs, infos, o, j);
      }
    }
  }

  /** Step `j` of a faithful run of the whole recipe, in terms of the script's
      own checks and publish stages. */
  lemma FaithfulRunAt(env: Env, args: Args, rel: Release, inputs: seq<InputJson>, infos: map<string, PluginJson>, o: Outcome, j: nat)
    requires Faithful(o, inputs, Reader(args, rel, infos), Publisher(env, args, rel), 0, [])
    requires j < |o.steps|
    ensures j < |inputs|
    ensures ReadInput(args.workDir, rel.appVersion, args.releaseDate, infos, j, inputs[j]) == Ok(o.steps[j].meta)
    ensures o.steps[j] == PublishComponent(env, args.os, rel.internalVersion, j, Ids(o.steps[..j + 1]), o.steps[j].meta)
  {
    var read := Reader(args, rel, infos);
    var publish := Publisher(env, args, rel);
    var step := o.steps[j];
    FaithfulAt(o, inputs, read, publish, 0, [], j);
    assert 0 + j < |inputs|;
    assert read(0 + j, inputs[0 + j]) == Ok(step.meta);
    assert step == publish(0 + j, [] + Ids(o.steps[..j + 1]), step.meta);
    assert [] + Ids(o.steps[..j + 1]) == Ids(o.steps[..j + 1]);
  }

  /** A run that fails before any publish stage fails reports the first input
      that does not pass its checks. */
  lemma PackageStopsAtBadInput(env: Env, args: Args, recipe: Option<RecipeJson>, infos: map<string, PluginJson>)
    requires ParseBranch(args.branch).Ok? && recipe.Some? && recipe.value.inputs.Some?
    ensures var o := Package(env, args, recipe, infos);
      var inputs := recipe.value.inputs.value;
      var rel := ParseBranch(args.branch).value;
      o.error.Some? && (|o.steps| == 0 || o.steps[|o.steps| - 1].error.None?) ==>
        && |o.steps| < |inputs|
        && ReadInput(args.workDir, rel.appVersion, args.releaseDate, infos, |o.steps|, inputs[|o.steps|])
           == Err(o.error.value)
  {
    var rel := ParseBranch(args.branch).value;
    var inputs := recipe.value.inputs.value;
    var read := Reader(args, rel, infos);
    var publish := Publisher(env, args, rel);
    PackageIsProcess(env, args, recipe, infos);
    ProcessStopsAtBadInput(inputs, read, publish, 0, []);
    var o := Package(env, args, recipe, infos);
    assert StopsAtBadInput(o, inputs, read, 0);
  }

  /** The quasi-atomic switch of each publish: an index file of the repository is
      only sent once every other file of the new repository is stored. */
  lemma PublishIndexLast(env: Env, os: TargetOs, internal: string, k: nat, staged: seq<string>, meta: PackageMeta, i: nat)
    requires var p := PublishComponent(env, os, internal, k, staged, meta);
      i < |p.publish| && IsIndex(p.publish[i].entry)
    ensures var p := PublishComponent(env, os, internal, k, staged, meta);
      var others := Keep(p.repo.value, IsIndex, false);
      && |others| <= i
      && forall j :: 0 <= j < |others| ==> p.publish[j].entry == others[j] && p.publish[j].upload.ok
  {
    var p := PublishComponent(env, os, internal, k, staged, meta);
    var remote := RemoteRepoCurrent(os, internal);
    IndexSentLast(env.server, env.artUrl, env.artRepo, remote, p.repo.value, i);
  }
}
