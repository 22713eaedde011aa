/** The installer script: the packages the packaging script published for an
    application are mirrored from the server into a temporary directory, and the
    Qt Installer Framework's `binarycreator` is run on them. The tool is an oracle
    from command line to return code. */
module Installer {
  import opened Outcomes
  import opened Text
  import opened Paths
  import opened Download
  import opened Branch
  import opened Packaging

  /** The command-line arguments the installer reads. */
  datatype InstallArgs = InstallArgs(appName: string, workDir: string, os: TargetOs, artUrl: string, artRepo: string)

  /** What a run did: the download, the `binarycreator` command line if it got
      that far, and the exit status of the script. */
  datatype Build = Build(download: Run, command: Option<seq<string>>, exitCode: int)

  /** The application name with every space removed. */
  function AppName(arg: string): (name: string)
    ensures name == Remove(arg, ' ')
    ensures ' ' !in name
  {
    ReplaceCharIsRemove(arg, ' ');
    Replace(arg, " ", "")
  }

  /** The remote folder mirrored: `packages` below the same `<os>/<app>` base the
      packaging script publishes to. */
  function RemotePackages(os: TargetOs, appArg: string): string {
    PackagesOf(os, AppName(appArg))
  }

  /** `packages` below the base of an internal version. */
  function PackagesOf(os: TargetOs, internal: string): string {
    JoinPath([ArtBase(os, internal), PackagesFolder])
  }

  /** The configuration file below the working directory. */
  function ConfigPath(workDir: string): string {
    JoinPath([workDir, ".packaging", "config.xml"])
  }

  /** `binarycreator -c <config> -p <packages> <output>`. */
  function BinaryCreatorCommand(workDir: string, tempDir: string, outDir: string): seq<string> {
    ["binarycreator", "-c", ConfigPath(workDir), "-p", JoinPath([tempDir, PackagesFolder]), outDir]
  }

  /** `main`: the download, then `binarycreator`; any error ends the script with
      status 1. The temporary and output directories are given, `current` is what
      the server holds at a remote path, and `binarycreator` answers a command
      line with its return code. */
  function Install(args: InstallArgs, tempDir: string, outDir: string,
                   current: string -> Node, binarycreator: seq<string> -> int): (b: Build)
    ensures var remote := RemotePackages(args.os, args.appName);
      b.download == RepoCurrent(args.artUrl, args.artRepo, remote, current(remote))
    ensures b.command.Some? <==> b.download.ok
    ensures b.command.Some? ==> b.command.value == BinaryCreatorCommand(args.workDir, tempDir, outDir)
    ensures b.exitCode == 0 || b.exitCode == 1
    ensures b.exitCode == 0 <==>
      b.download.ok && binarycreator(BinaryCreatorCommand(args.workDir, tempDir, outDir)) == 0
  {
    var remote := RemotePackages(args.os, args.appName);
    var down := RepoCurrent(args.artUrl, args.artRepo, remote, current(remote));
    if !down.ok then Build(down, None, 1)
    else
      var cmd := BinaryCreatorCommand(args.workDir, tempDir, outDir);
      Build(down, Some(cmd), if binarycreator(cmd) == 0 then 0 else 1)
  }

  // ---------------------------------------------------------------------------
  // Lemmas
  // ---------------------------------------------------------------------------

  /** For an application name without '/', the mirrored folder is
      `<os>/<app without spaces>/packages`. */
  lemma RemotePackagesLayout(os: TargetOs, appArg: string)
    requires Plain(AppName(appArg))
    ensures RemotePackages(os, appArg) == OsKey(os) + "/" + AppName(appArg) + "/" + PackagesFolder
  {
    PackagesOfLayout(os, AppName(appArg));
  }

  lemma PackagesOfLayout(os: TargetOs, internal: string)
    requires Plain(internal)
    ensures PackagesOf(os, internal) == OsKey(os) + "/" + internal + "/" + PackagesFolder
  {
    FolderLayout(os, internal, PackagesFolder);
  }

  /** The two scripts agree: built from the application version of a release
      branch, the installer mirrors the folder that holds every component the
      packaging script published from that branch. */
  lemma InstallerFindsComponents(branch: string, os: TargetOs, id: string)
    requires ParseBranch(branch).Ok?
    ensures var rel := ParseBranch(branch).value;
      RemoteComponent(os, rel.internalVersion, id) == RemotePackages(os, rel.appVersion) + "/" + id
  {
    var rel := ParseBranch(branch).value;
    var internal := rel.internalVersion;
    assert AppName(rel.appVersion) == internal;
    if Plain(internal) {
      RemotePackagesLayout(os, rel.appVersion);
      LayoutVersioned(os, internal);
    } else {
      RemoteLayout(os, internal, id);
      JoinTwoPlain(OsKey(os), PackagesFolder);
    }
  }

  /** When the server answers every request of the walk, the download succeeds,
      writes exactly the files listed below the remote packages folder, each at
      its relative path, and `binarycreator` is run. */
  lemma InstallMirrors(args: InstallArgs, tempDir: string, outDir: string,
                       current: string -> Node, binarycreator: seq<string> -> int)
    requires AllServed(current(RemotePackages(args.os, args.appName)))
    ensures var b := Install(args, tempDir, outDir, current, binarycreator);
      var n := current(RemotePackages(args.os, args.appName));
      && b.download.ok
      && b.command.Some?
      && forall q :: q in Written(b.download.events) <==> Lists(n, q)
  {
    var remote := RemotePackages(args.os, args.appName);
    var n := current(remote);
    MirrorRepoCurrent(args.artUrl, args.artRepo, remote, n);
  }
}
