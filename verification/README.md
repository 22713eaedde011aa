# Qt Installer Framework publishing, modelled in Dafny

This project models two Python scripts of ManiVault's GitHub Actions. One
publishes ManiVault components to an Artifactory server as Qt Installer
Framework (IFW) packages; the other later builds an installer from them.

- **package_qtifw** starts from a release branch (`release/<app>` for the core
  application, `release/<app>/<plugin>` for a plugin) and the packaging recipe
  `.packaging/recipe.json`. It handles each input of the recipe in turn:
  - checks the input's `PluginInfo.json`;
  - stages a Qt IFW component with a generated `meta/package.xml`;
  - uploads the component to `<os>/<app>/packages/<id>`;
  - downloads the release's installer repository `<os>/<app>/repo-current`;
  - lets `repogen --update` add the staged components;
  - uploads the repository again, holding `Updates.xml` back to the end so that
    the repository switches to the new index only once everything it names is
    there.

  Any error ends the script with status 1.
- **installer_qtifw** mirrors `<os>/<app>/packages` into a temporary directory
  and runs `binarycreator` on it.

The model is pure functions over immutable data. The Artifactory server is an
oracle from request to HTTP status code, and for downloads it is an abstract
tree of nodes. `repogen`, `binarycreator`, the files the script writes and
today's date are parameters.

Modules, in dependency order:

| module | file | what it holds |
|---|---|---|
| `Outcomes` | outcomes.dfy | `Option` and `Result` |
| `Text` | text.dfy | `lstrip`/`rstrip`/`strip`, `split`, `count`, `replace` and `title` for the one-character arguments the scripts use |
| `Paths` | paths.dfy | `PurePosixPath(*parts).as_posix()` |
| `Artifactory` | artifactory.dfy | `art_url`, `art_api_url`, `art_upload_file`, `art_folder_info` status handling, `art_delete_path` |
| `Upload` | upload.dfy | `art_upload_tree` and its `Updates.xml`-last order |
| `Download` | download.dfy | `art_download_tree_recursive`, `art_download_repo_current` |
| `Branch` | branch.dfy | reading the release branch |
| `Recipe` | recipe.dfy | recipe and `PluginInfo.json` checks, package id, `package.xml` |
| `Packaging` | packaging.dfy | remote layout and `main` of the packaging script |
| `Installer` | installer.dfy | `main` of the installer script |

The Artifactory helpers are copied word for word into both scripts
(installer_qtifw.py:22-81). The same members model both copies.

## Model

| member | source | states |
|---|---|---|
| Text.Split | conan_windows_build/package_qtifw.py:181 | `split` gives one more piece than there are separators, no piece holds the separator, and joining the pieces gives the string back |
| Text.SplitJoin | conan_windows_build/package_qtifw.py:181 | splitting undoes joining separator-free pieces |
| Text.Count | conan_windows_build/package_qtifw.py:172 | `count` is at most the length, and is zero exactly when the character is absent |
| Text.CountIsMultiplicity | conan_windows_build/package_qtifw.py:172 | `count` equals the character's multiplicity in the string |
| Text.Remove | conan_windows_build/package_qtifw.py:183 | deleting a character keeps every other character, as often as before, and leaves none of it |
| Text.RemoveAppend | conan_windows_build/package_qtifw.py:183 | deleting a character from a concatenation deletes it from each part, so the kept characters stay in their order |
| Text.RemoveOne | conan_windows_build/package_qtifw.py:183 | a single character is dropped exactly when it is the deleted one |
| Text.Replace | conan_windows_build/package_qtifw.py:182-183 | `str.replace`: occurrences found left to right without overlap, each replaced. Its contract bounds the length; Text.ReplaceFirst and Text.ReplaceAbsent pin the result |
| Text.ReplaceCharIsRemove | conan_windows_build/package_qtifw.py:183 | `replace(" ", "")` is deleting every space |
| Text.ReplaceAbsent | conan_windows_build/package_qtifw.py:182 | where the pattern occurs nowhere, `replace` returns the string unchanged |
| Text.ReplaceFirst | conan_windows_build/package_qtifw.py:182 | the first occurrence of the pattern is replaced, everything before it is kept, and replacing goes on after it |
| Text.TitleFrom | conan_windows_build/package_qtifw.py:227 | `title` keeps the length and every non-letter, changes letters only in case, and upper-cases exactly the letters that open a word |
| Text.TitleFromIdempotent | conan_windows_build/package_qtifw.py:227 | title-casing twice is title-casing once |
| Text.LStrip | conan_windows_build/package_qtifw.py:61 | `lstrip` drops only copies of the character, and the result does not start with it |
| Text.RStrip | conan_windows_build/package_qtifw.py:61 | `rstrip` drops only copies of the character, and the result does not end with it |
| Text.Strip | conan_windows_build/package_qtifw.py:103 | neither end of a `strip` result is the character |
| Text.StripSlice | conan_windows_build/package_qtifw.py:103 | a `strip` result is a contiguous slice of the string, and everything cut off at either end is the character |
| Text.StripAbsorbs | conan_windows_build/package_qtifw.py:139 | `strip` ignores any number of copies of the character on either side |
| Text.StripIdempotent | conan_windows_build/package_qtifw.py:139-140 | stripping twice is stripping once |
| Paths.JoinPath | conan_windows_build/package_qtifw.py:278-279 | `PurePosixPath(*parts).as_posix()`: never empty. The lemmas below pin it: plain parts join by '/', empty and "." parts vanish, an anchored part resets the path, and nested joins flatten |
| Paths.ParseAsPosix | conan_windows_build/package_qtifw.py:278-279 | re-parsing the rendered form of a normal path gives the same path |
| Paths.JoinPathReparse | conan_windows_build/package_qtifw.py:278-279 | `Path(Path(*a).as_posix(), *b)` renders like `Path(*a, *b)` |
| Paths.JoinPlains | conan_windows_build/package_qtifw.py:278-279 | parts without '/' that are neither empty nor "." are joined by '/' |
| Paths.JoinPlainDropped | conan_windows_build/package_qtifw.py:278 | an empty or "." part vanishes from the path |
| Paths.StepAnchored | conan_windows_build/package_qtifw.py:229 | a part that starts with '/' replaces everything before it |
| Artifactory.ArtUrl | conan_windows_build/package_qtifw.py:60-61 | `art_url`: pinned by Artifactory.ArtUrlJoin, ArtUrlSlashInsensitive and ArtUrlNormalised |
| Artifactory.ArtApiUrl | conan_windows_build/package_qtifw.py:63-64 | `art_api_url`: pinned by Artifactory.ArtApiUrlUnderApi |
| Artifactory.ArtUrlJoin | conan_windows_build/package_qtifw.py:60-64 | base and path are joined by exactly "/artifactory/" (or "/artifactory/api/"), however many slashes surround the join |
| Artifactory.ArtUrlSlashInsensitive | conan_windows_build/package_qtifw.py:60-64 | extra slashes after the base or before the path do not change the URL |
| Artifactory.ArtUrlNormalised | conan_windows_build/package_qtifw.py:60-64 | stripping the arguments first does not change the URL |
| Artifactory.ArtApiUrlUnderApi | conan_windows_build/package_qtifw.py:60-64 | an API URL is the plain URL of "api/" and the path |
| Artifactory.UploadFile | conan_windows_build/package_qtifw.py:66-79 | the checksum-only PUT always goes first, to `<repo>/<path>`. The PUT with a body is sent exactly when that one is not answered 200 or 201. The upload succeeds exactly when one of the two was stored |
| Artifactory.UploadUrlIgnoresLeadingSlashes | conan_windows_build/package_qtifw.py:69 | leading slashes of the repository path do not change the URL |
| Artifactory.ReadInfo | conan_windows_build/package_qtifw.py:102-109 | a folder-info status of 404 means no folder, 200 means the JSON listing, and anything else is an error carrying the status |
| Artifactory.InfoUrlSlashInsensitive | conan_windows_build/package_qtifw.py:103 | slashes around the remote path do not change the folder-info URL |
| Artifactory.DeletePath | conan_windows_build/package_qtifw.py:142-147 | one DELETE to the stripped path. It succeeds exactly on 200, 202, 204 or 404 |
| Artifactory.DeleteSlashInsensitive | conan_windows_build/package_qtifw.py:143 | slashes around the remote path do not change what a delete does |
| Upload.RemotePath | conan_windows_build/package_qtifw.py:98 | where a listed file goes: the base path without trailing slashes, '/', the relative path. Upload.UploadTreeEachOnce states that each file is sent there |
| Upload.UploadOrder | conan_windows_build/package_qtifw.py:89-95 | without the flag, the order is the listing. With it, the order is a permutation of the listing in which no index file precedes another file, and each kind keeps its listing order |
| Upload.KeepPartitions | conan_windows_build/package_qtifw.py:91-92 | the two comprehensions together hold every file exactly as often as the listing |
| Upload.StablePartitionUnique | conan_windows_build/package_qtifw.py:89-93 | any order with the properties above is the one the script picks |
| Upload.UploadAll | conan_windows_build/package_qtifw.py:97-98 | attempt `i` uploads file `i` of the order, every attempt but the last succeeded, and the loop stops early only at a failed upload |
| Upload.UploadTree | conan_windows_build/package_qtifw.py:81-98 | each attempt uploads the next file of the order below the base path. The run stops at the first failure |
| Upload.UploadTreeEachOnce | conan_windows_build/package_qtifw.py:81-98 | a completed run uploaded each listed file exactly once, to its remote path; without the flag, in listing order |
| Upload.IndexSentLast | conan_windows_build/package_qtifw.py:82-98 | with the flag, an index file is only sent after every other file was uploaded without error, in listing order |
| Download.Tree | conan_windows_build/package_qtifw.py:111-124 | the folder-info request comes first. 404 or an empty answer ends the walk quietly, and any other non-200 status fails it. Otherwise the local directory is created next |
| Download.Children | conan_windows_build/package_qtifw.py:117-135 | the loop over a folder's children, stopping at the first error. Download.ChildrenOk, ChildrenUrls and the TreeSound/TreeComplete family state what it does |
| Download.Child | conan_windows_build/package_qtifw.py:118-135 | one child: skipped when its name is empty, recursed into when a folder, fetched otherwise. Download.ChildOk and ChildUrls state what it does |
| Download.FetchFile | conan_windows_build/package_qtifw.py:126-135 | a file GET succeeds exactly on 200 or 404, and writes the file exactly on 200 |
| Download.TreeSound | conan_windows_build/package_qtifw.py:111-135 | every file the walk writes is at the local root followed by the name path of a file the remote folder lists, as a list of names |
| Download.TreeComplete | conan_windows_build/package_qtifw.py:111-135 | against a server that answers every request with 200, the walk succeeds and writes every listed file |
| Download.Mirror | conan_windows_build/package_qtifw.py:111-135 | against a server that answers every request with 200, the walk succeeds and writes exactly the listed files, each at the local root followed by its list of names |
| Download.TreeUrls | conan_windows_build/package_qtifw.py:118-127 | each file is written from the file URL `<repo>/<child_remote>`, where the child's remote path is built one name at a time from the stripped parent path |
| Download.TreeOk | conan_windows_build/package_qtifw.py:102-135 | 404 skips a folder or file quietly, and the walk raises exactly when some request it sends is answered with a status other than 200 or 404 |
| Download.ListsSafe | conan_windows_build/package_qtifw.py:118-122 | when every listed name is a plain segment (not empty, not ".", no '/') and is not "..", so is every segment of a listed path |
| Download.WrittenInside | conan_windows_build/package_qtifw.py:118-122 | when every listed name is a plain segment (not empty, not ".", no '/') and is not "..", every file is written inside the local root |
| Download.TreeStripped | conan_windows_build/package_qtifw.py:121 | the walk depends on the remote path only through its stripped form |
| Download.RepoCurrent | conan_windows_build/package_qtifw.py:137-140 | `art_download_repo_current`: Download.RepoCurrentIsTree, MirrorRepoCurrent and RepoCurrentSlashInsensitive state what it does |
| Download.MirrorRepoCurrent | conan_windows_build/package_qtifw.py:137-140 | `art_download_repo_current` into a fresh root writes exactly the listed files, at their relative paths |
| Download.RepoCurrentIsTree | conan_windows_build/package_qtifw.py:137-140 | stripping the path first does what the recursive download does on the unstripped path |
| Download.RepoCurrentSlashInsensitive | conan_windows_build/package_qtifw.py:139 | slashes around the repository path do not matter |
| Branch.ParseBranch | conan_windows_build/package_qtifw.py:169-184 | a branch is refused exactly when it does not start with `release/`. It is a core release exactly when it holds one '/', and then the plugin version is "undefined". The versions hold no '/', and the internal version is the application version without spaces |
| Branch.CoreRelease | conan_windows_build/package_qtifw.py:172-184 | `release/<v>` reads as a core release of `v` |
| Branch.CorePrefixDropped | conan_windows_build/package_qtifw.py:182 | for an application segment `core_<app>` with no further "core_", the application name is `<app>` |
| Branch.PluginRelease | conan_windows_build/package_qtifw.py:172-184 | `release/<a>/<p>...` reads as a plugin release of `a` without `core_`, with plugin version `p`. Further segments are ignored |
| Recipe.PackageId | conan_windows_build/package_qtifw.py:227 | the id starts with "Com.BioVault." and ends with "." and the postfix, with the title-cased version in between |
| Recipe.PackageIdTitled | conan_windows_build/package_qtifw.py:227 | title-casing the version first does not change the id |
| Recipe.PackageIdDistinct | conan_windows_build/package_qtifw.py:227 | different postfixes give different ids |
| Recipe.PluginInfoPath | conan_windows_build/package_qtifw.py:225-229 | corrected: the metadata path is the input directory `Path(work_dir, dir)` joined with `PluginInfo.json`, and for plain names it is `<work_dir>/<dir>/PluginInfo.json` |
| Recipe.PluginInfoPathAsWrittenDoubles | conan_windows_build/package_qtifw.py:225-229 | as written, a work directory that names a segment appears twice in the metadata path, and the path differs from the corrected one (proved for plain work and input directories) |
| Recipe.PluginInfoPathAbsoluteAgrees | conan_windows_build/package_qtifw.py:225-229 | with an absolute work directory, the path as written and the corrected path agree |
| Recipe.PluginInfoPathUnnamedAgrees | conan_windows_build/package_qtifw.py:225-229 | with a work directory that names no segment ("" or "."), the two paths agree |
| Recipe.PluginInfoPathAbsoluteDirAgrees | conan_windows_build/package_qtifw.py:225-229 | with an absolute input directory, the two paths agree whatever the work directory |
| Recipe.CheckPlugin | conan_windows_build/package_qtifw.py:242-252 | the first missing field of name, version, version.plugin and version.core is reported, in that order; none is missing exactly when the metadata is complete |
| Recipe.ReadInput | conan_windows_build/package_qtifw.py:218-257 | the checks happen in the script's order: dir, postfix, metadata present, metadata complete, and an incomplete file reports its first missing field as Recipe.CheckPlugin does. An input passes exactly when all hold, and its fields then come from the input, the metadata and their defaults |
| Recipe.PackageXml | conan_windows_build/package_qtifw.py:32-40 | `mk_package_xml`: the text written. Recipe.PackageXmlLines and PackageXmlVersionBlind state its content |
| Recipe.PackageXmlLines | conan_windows_build/package_qtifw.py:32-40 | when no field holds a newline, `package.xml` is the seven expected lines, each ended by a newline; the version line is fixed at 1.0.1 |
| Recipe.PackageXmlVersionBlind | conan_windows_build/package_qtifw.py:32-40 | the template never reads `meta["version"]`, so the plugin version handed to it (lines 270-276) never changes the file |
| Packaging.RemoteRepoCurrent | conan_windows_build/package_qtifw.py:278-279 | the repository folder `Path(art_base, "repo-current")`: pinned by Packaging.RemoteLayout and LayoutVersioned |
| Packaging.RemoteComponent | conan_windows_build/package_qtifw.py:278-281 | where a component goes, `<art_base>/packages/<id>`: Installer.InstallerFindsComponents ties it to the installer's folder |
| Packaging.RemoteLayout | conan_windows_build/package_qtifw.py:278-281 | the release folder is `<os>/<version>`, or `<os>` for an empty or "." version, and the repository is `repo-current` inside it |
| Packaging.LayoutVersioned | conan_windows_build/package_qtifw.py:278-279 | for a plain version (not empty, not ".", no '/'), the repository is `<os>/<version>/repo-current` |
| Packaging.PublishComponent | conan_windows_build/package_qtifw.py:259-293 | the component is uploaded, the repository downloaded, `repogen` run on the staged ids and the downloaded files, and the repository uploaded with its index last. Each stage runs only if the previous one succeeded, and the failing stage is the one reported for this input |
| Packaging.Process | conan_windows_build/package_qtifw.py:218-293 | inputs are handled in order and the first failure ends the loop with its error. There is no error exactly when every input went through |
| Packaging.ProcessSteps | conan_windows_build/package_qtifw.py:218-293 | step `j` of the loop is input `k + j`. It passed its checks, and was published with every component up to its own staged |
| Packaging.ProcessStopsAtBadInput | conan_windows_build/package_qtifw.py:218-257 | a loop that stops without a failed publish stops at the first input that fails its checks, with that input's error |
| Packaging.Package | conan_windows_build/package_qtifw.py:169-297 | a non-release branch, a missing recipe or a missing "inputs" field stop the run before any input. A run without error handled every input of the recipe |
| Packaging.PackageSteps | conan_windows_build/package_qtifw.py:218-293 | input `j` of a run is the `j`-th of the recipe. It passed `ReadInput`, and was published with inputs `0..j` staged |
| Packaging.PackageStopsAtBadInput | conan_windows_build/package_qtifw.py:218-257 | a run that fails before any publish stage fails reports the first input that does not pass its checks |
| Packaging.PublishIndexLast | conan_windows_build/package_qtifw.py:292-293 | in each repository upload, an index file is only sent once every other file of the new repository is stored |
| Installer.AppName | conan_windows_build/installer_qtifw.py:102 | the application name keeps every character but spaces, in order |
| Installer.Install | conan_windows_build/installer_qtifw.py:102-115 | the script downloads `<os>/<app>/packages`. It runs `binarycreator` exactly when the download succeeded, and exits with 0 exactly when both succeeded, otherwise with 1 |
| Installer.RemotePackages | conan_windows_build/installer_qtifw.py:102-107 | the folder the installer mirrors, `Path(Path(os, app).as_posix(), "packages")`: pinned by Installer.RemotePackagesLayout |
| Installer.BinaryCreatorCommand | conan_windows_build/installer_qtifw.py:111 | the `binarycreator -c <config> -p <packages> <output>` command line. Installer.Install states when it runs |
| Installer.RemotePackagesLayout | conan_windows_build/installer_qtifw.py:106-107 | for an application name that is plain once its spaces are removed (not empty, not ".", no '/'), the mirrored folder is `<os>/<app without spaces>/packages` |
| Installer.InstallerFindsComponents | conan_windows_build/installer_qtifw.py:102-107 | for every release branch, the installer built from its application version mirrors the folder the packaging script uploads that branch's components to |
| Installer.InstallMirrors | conan_windows_build/installer_qtifw.py:78-81 | against a server that answers every request with 200, the installer writes exactly the files listed below the packages folder and runs `binarycreator` |

## Left out

- Network I/O, authentication, certificate checks, response bodies in error
  messages and streaming in chunks are left out. A request is a value, and the
  server's answer is a status code from an oracle.
- SHA-1 digests are not computed. A local file carries its digest.
- File system effects are left out: the temporary directory, `mkdir`,
  `rmtree`, `rglob`, reading and writing files. The listing of a local tree is
  given as a sequence, `package.xml` becomes a file through an oracle, and the
  JSON documents are given already parsed.
- `run` is left out. `repogen` is an oracle from the staged component ids and
  the downloaded repository to the listing it leaves, or to a failure.
  `binarycreator` is an oracle from a command line to its return code.
- The local repository directory `repo-<os>-<version>` is shared by the inputs
  of one run, and the staging directory keeps the earlier inputs' components.
  Only the second is modelled, as the staged ids handed to `repogen`. The first
  is left to the `repogen` oracle.
- The server's state does not change between requests. An upload does not
  change what a later folder-info request answers.
- Argument parsing and defaults are left out: `argparse`, the environment
  variables and `--workdir` are collapsed into one work-directory argument.
  Today's date is an argument. The installer's output directory
  (`D:\packaging`) and temporary directory are arguments too.
- `--art-base`, `--build-id` and `plugin_core_versions` are read but never used
  by the scripts, so the model does not read them either. `plugin_name` is also
  unused, although its presence is checked.
- `copy_payload` is never called, so a staged component holds only
  `meta/package.xml`.
- `raise RuntimeError(..., file=sys.stderr)` raises a `TypeError` instead of the
  intended message. Both end in the same handler with status 1, and the model
  keeps the intended error kinds.
- Windows path semantics and POSIX's special leading "//" are not modelled.
  Paths follow `PurePosixPath`.
- `title` is modelled for ASCII letters only.
- A "version" field that is a string rather than an object is not modelled. The
  script would test substring membership in it.
- `packages_root` is named after the branch's plugin version before the loop
  rebinds `plugin_version`. The name does not matter to the model.
- The installer's `work_dir` line is a no-op and is modelled as the argument
  itself.
- The installer's copy of `art_upload_file` is never called there.
  `art_delete_path` is defined in the packaging script and never called. Both
  are modelled all the same, once.
- Installer.BinaryCreatorCommand has no contract of its own. Install's
  contract states what it is used for.
- Download.TreeSound: local paths are lists of names, and a name is one entry
  of the list whatever it holds. In the script a name with '/' adds several
  path segments, and the file system resolves ".." to the parent directory, so
  a server that lists such a name can make the script write outside the local
  root. Staying inside the root is promised only under Download.SafeNames, by
  Download.WrittenInside.
- Download.Mirror: "below the local root" is meant in the same list-of-names
  sense as Download.TreeSound.
- Recipe.ReadInput: looks the metadata up at the corrected path (see Findings).
  With a relative work directory that names a segment (`ws`, not "." or "")
  and a relative input directory, the script looks at the doubled path instead,
  so it stops with "not found" where the model reads the metadata. Packaging.Process
  and Packaging.Package inherit this.
- Text.Replace: only the length bound is stated as a contract. The lemmas
  pin it down: ReplaceCharIsRemove for `replace(" ", "")`, and ReplaceFirst
  with ReplaceAbsent for `replace("core_", "")`.

## Findings

| source | as written | input that shows it | evidently intended | confidence | as-written member | corrected member |
|---|---|---|---|---|---|---|
| conan_windows_build/package_qtifw.py:225-229 | `input_dir` is already `Path(work_dir, dir)`, and the metadata path joins `work_dir` to it a second time | work directory `ws`, input directory `a`: the script looks for `ws/ws/a/PluginInfo.json` | `ws/a/PluginInfo.json`, the file in the input's directory. The two agree when the work directory is absolute or names no segment ("." or ""), or the input directory is absolute | not executed | Recipe.PluginInfoPathAsWrittenDoubles | Recipe.PluginInfoPath |

The rest of the model uses the corrected path: Recipe.ReadInput looks metadata
up at Recipe.PluginInfoPath (see Left out). Recipe.PluginInfoPathAbsoluteAgrees,
Recipe.PluginInfoPathUnnamedAgrees and Recipe.PluginInfoPathAbsoluteDirAgrees
show the cases where the two coincide: an absolute work directory, a work
directory "." or "", and an absolute input directory.
