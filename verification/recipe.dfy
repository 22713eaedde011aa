/** The packaging recipe and the per-plugin metadata as the packaging script
    reads them: which fields must be present, which have defaults, and what
    is derived from them: the package id, the location of `PluginInfo.json`, and
    the text of the component's `meta/package.xml`. The JSON documents are
    given already parsed; a field is `None` when the key is missing. */
module Recipe {
  import opened Outcomes
  import opened Text
  import opened Paths

  /** One element of the recipe's "inputs": "dir", "postfix" and the optional "name". */
  datatype InputJson = InputJson(dir: Option<string>, postfix: Option<string>, name: Option<string>)

  /** The recipe file `.packaging/recipe.json`. */
  datatype RecipeJson = RecipeJson(inputs: Option<seq<InputJson>>)

  /** The "version" object of a plugin's metadata. */
  datatype VersionJson = VersionJson(plugin: Option<string>, core: Option<string>)

  /** A plugin's `PluginInfo.json`. */
  datatype PluginJson = PluginJson(name: Option<string>, description: Option<string>, version: Option<VersionJson>)

  /** Why packaging stops. Inputs are numbered from 0 in recipe order; plugin
      metadata problems name the metadata file. */
  datatype PackError =
    | NotReleaseBranch
    | NoRecipe
    | MissingInputs
    | MissingDir(input: nat)
    | MissingPostfix(input: nat)
    | NoPluginInfo(path: string)
    | MissingName(path: string)
    | MissingVersion(path: string)
    | MissingPluginVersion(path: string)
    | MissingCoreVersion(path: string)
    | ComponentUploadFailed(input: nat)
    | RepoDownloadFailed(input: nat)
    | RepogenFailed(input: nat)
    | RepoUploadFailed(input: nat)

  /** What goes into `package.xml`. `version` is handed over but not written. */
  datatype PackageMeta = PackageMeta(id: string, name: string, version: string, description: string, releaseDate: string)

  const PluginInfoFile := "PluginInfo.json"

  /** The lines of `package.xml`: the component description, with a fixed
      version; the plugin version handed over is not written. */
  function PackageLines(m: PackageMeta): seq<string> {
    [ "<Package>",
      "  <Name>" + m.id + "</Name>",
      "  <DisplayName>" + m.name + "</DisplayName>",
      "  <Description>" + m.description + "</Description>",
      "  <Version>1.0.1</Version>",
      "  <ReleaseDate>" + m.releaseDate + "</ReleaseDate>",
      "</Package>" ]
  }

  /** `mk_package_xml`: the text written, each line ended by a newline. */
  function PackageXml(m: PackageMeta): string {
    Terminated(PackageLines(m), '\n')
  }

  /** The component id: "Com.BioVault.", the title-cased application version,
      ".", and the input's postfix. */
  function PackageId(appVersion: string, postfix: string): (id: string)
    ensures StartsWith(id, "Com.BioVault.")
    ensures EndsWith(id, "." + postfix)
    ensures |id| == |"Com.BioVault."| + |appVersion| + 1 + |postfix|
    ensures id[|"Com.BioVault."|..|"Com.BioVault."| + |appVersion|] == Title(appVersion)
  {
    var id := "Com.BioVault." + Title(appVersion) + "." + postfix;
    assert id == "Com.BioVault." + (Title(appVersion) + "." + postfix);
    assert id == ("Com.BioVault." + Title(appVersion)) + ("." + postfix);
    id
  }

  /** Where an input's plugin metadata lives: `PluginInfo.json` in the input's
      directory below the work directory. */
  function PluginInfoPath(workDir: string, dir: string): (p: string)
    ensures p == JoinPath([JoinPath([workDir, dir]), PluginInfoFile])
    ensures Plain(workDir) && Plain(dir) ==> p == workDir + "/" + dir + "/" + PluginInfoFile
  {
    var p := JoinPath([workDir, dir, PluginInfoFile]);
    assert p == JoinPath([JoinPath([workDir, dir]), PluginInfoFile]) by {
      JoinPathReparse([workDir, dir], [PluginInfoFile]);
      assert [JoinPath([workDir, dir])] + [PluginInfoFile] == [JoinPath([workDir, dir]), PluginInfoFile];
      assert [workDir, dir] + [PluginInfoFile] == [workDir, dir, PluginInfoFile];
    }
    assert Plain(workDir) && Plain(dir) ==> p == workDir + "/" + dir + "/" + PluginInfoFile by {
      if Plain(workDir) && Plain(dir) {
        JoinPlains([workDir, dir, PluginInfoFile]);
        JoinThree(workDir, dir, PluginInfoFile, '/');
      }
    }
    p
  }

  /** The metadata path as the script builds it: the input directory, already
      below the work directory, is joined to the work directory a second time. */
  function PluginInfoPathAsWritten(workDir: string, dir: string): string {
    JoinPath([workDir, JoinPath([workDir, dir]), PluginInfoFile])
  }

  /** One input of the recipe, number `k`: the checks in the order the script
      makes them, then the metadata of its component. `infos` holds the
      metadata files that exist, by path. */
  function ReadInput(workDir: string, appVersion: string, releaseDate: string,
                     infos: map<string, PluginJson>, k: nat, input: InputJson): (r: Result<PackageMeta, PackError>)
    ensures input.dir.None? ==> r == Err(MissingDir(k))
    ensures input.dir.Some? && input.postfix.None? ==> r == Err(MissingPostfix(k))
    ensures input.dir.Some? && input.postfix.Some? && PluginInfoPath(workDir, input.dir.value) !in infos
      ==> r == Err(NoPluginInfo(PluginInfoPath(workDir, input.dir.value)))
    ensures var path := PluginInfoPath(workDir, input.dir.GetOr(""));
      input.dir.Some? && input.postfix.Some? && path in infos && CheckPlugin(infos[path], path).Some?
      ==> r == Err(CheckPlugin(infos[path], path).value)
    ensures r.Ok? <==>
      && input.dir.Some? && input.postfix.Some?
      && PluginInfoPath(workDir, input.dir.value) in infos
      && PluginReady(infos[PluginInfoPath(workDir, input.dir.value)])
    ensures r.Ok? ==>
      var info := infos[PluginInfoPath(workDir, input.dir.value)];
      && r.value.id == PackageId(appVersion, input.postfix.value)
      && r.value.name == input.name.GetOr(r.value.id)
      && r.value.description == info.description.GetOr("undefined")
      && r.value.version == info.version.value.plugin.value
      && r.value.releaseDate == releaseDate
  {
    if input.dir.None? then Err(MissingDir(k))
    else if input.postfix.None? then Err(MissingPostfix(k))
    else
      var id := PackageId(appVersion, input.postfix.value);
      var name := input.name.GetOr(id);
      var path := PluginInfoPath(workDir, input.dir.value);
      if path !in infos then Err(NoPluginInfo(path))
      else
        var info := infos[path];
        match CheckPlugin(info, path)
        case Some(e) => Err(e)
        case None =>
          Ok(PackageMeta(id, name, info.version.value.plugin.value, info.description.GetOr("undefined"), releaseDate))
  }

  /** Plugin metadata with every required field. */
  predicate PluginReady(info: PluginJson) {
    && info.name.Some?
    && info.version.Some?
    && info.version.value.plugin.Some?
    && info.version.value.core.Some?
  }

  /** The first missing field of a plugin's metadata, if any. */
  function CheckPlugin(info: PluginJson, path: string): (e: Option<PackError>)
    ensures e.None? <==> PluginReady(info)
    ensures info.name.None? ==> e == Some(MissingName(path))
    ensures info.name.Some? && info.version.None? ==> e == Some(MissingVersion(path))
    ensures info.name.Some? && info.version.Some? && info.version.value.plugin.None?
      ==> e == Some(MissingPluginVersion(path))
    ensures info.name.Some? && info.version.Some? && info.version.value.plugin.Some? && info.version.value.core.None?
      ==> e == Some(MissingCoreVersion(path))
  {
    if info.name.None? then Some(MissingName(path))
    else if info.version.None? then Some(MissingVersion(path))
    else if info.version.value.plugin.None? then Some(MissingPluginVersion(path))
    else if info.version.value.core.None? then Some(MissingCoreVersion(path))
    else None
  }

  // ---------------------------------------------------------------------------
  // Lemmas
  // ---------------------------------------------------------------------------

  /** `package.xml` is the expected seven lines, each ended by a newline, whenever
      no field holds a newline; the version line is fixed, so the plugin version
      handed over never appears. */
  lemma PackageXmlLines(m: PackageMeta)
    requires '\n' !in m.id && '\n' !in m.name && '\n' !in m.description && '\n' !in m.releaseDate
    ensures Split(PackageXml(m), '\n') == PackageLines(m) + [""]
    ensures Split(PackageXml(m), '\n')[4] == "  <Version>1.0.1</Version>"
  {
    var ls := PackageLines(m);
    PackageLinesClean(m);
    SplitTerminated(ls, '\n');
  }

  /** No line of `package.xml` holds a newline when no field does. */
  lemma PackageLinesClean(m: PackageMeta)
    requires '\n' !in m.id && '\n' !in m.name && '\n' !in m.description && '\n' !in m.releaseDate
    ensures forall i :: 0 <= i < |PackageLines(m)| ==> '\n' !in PackageLines(m)[i]
  {
    var ls := PackageLines(m);
    forall i | 0 <= i < |ls|
      ensures '\n' !in ls[i]
    {
      if i == 1 {
        NoNewlineAround("  <Name>", m.id, "</Name>");
      } else if i == 2 {
        NoNewlineAround("  <DisplayName>", m.name, "</DisplayName>");
      } else if i == 3 {
        NoNewlineAround("  <Description>", m.description, "</Description>");
      } else if i == 5 {
        NoNewlineAround("  <ReleaseDate>", m.releaseDate, "</ReleaseDate>");
      }
    }
  }

  lemma NoNewlineAround(open: string, field: string, close: string)
    requires '\n' !in open && '\n' !in field && '\n' !in close
    ensures '\n' !in open + field + close
  {
    assert multiset(open + field + close) == multiset(open) + multiset(field) + multiset(close);
    assert multiset(open)['\n'] == 0 && multiset(field)['\n'] == 0 && multiset(close)['\n'] == 0;
  }

  /** Two metadata records that differ only in the version give the same file. */
  lemma PackageXmlVersionBlind(m: PackageMeta, v: string)
    ensures PackageXml(m.(version := v)) == PackageXml(m)
  {
  }

  /** Title-casing the version first does not change the id. */
  lemma PackageIdTitled(appVersion: string, postfix: string)
    ensures PackageId(Title(appVersion), postfix) == PackageId(appVersion, postfix)
  {
    TitleFromIdempotent(appVersion, false);
  }

  /** Different postfixes give different ids for the same version. */
  lemma PackageIdDistinct(appVersion: string, p1: string, p2: string)
    requires p1 != p2
    ensures PackageId(appVersion, p1) != PackageId(appVersion, p2)
  {
    var pre := "Com.BioVault." + Title(appVersion) + ".";
    assert PackageId(appVersion, p1) == pre + p1;
    assert PackageId(appVersion, p2) == pre + p2;
    if |p1| == |p2| {
      var i :| 0 <= i < |p1| && p1[i] != p2[i];
      assert (pre + p1)[|pre| + i] != (pre + p2)[|pre| + i];
    }
  }

  /** The script's metadata path for a relative work directory `w` and input
      directory `d`: `w` appears twice. */
  lemma PluginInfoPathAsWrittenDoubles(w: string, d: string)
    requires Plain(w) && Plain(d)
    ensures PluginInfoPathAsWritten(w, d) == w + "/" + w + "/" + d + "/" + PluginInfoFile
    ensures PluginInfoPathAsWritten(w, d) != PluginInfoPath(w, d)
  {
    var wd := JoinPath([w, d]);
    var q := Parse([w, wd, PluginInfoFile]);
    assert q == PurePath(false, [w, w, d, PluginInfoFile]) by {
      DoubledSteps(w, d);
    }
    JoinFour(w, w, d, PluginInfoFile);
    assert |PluginInfoPathAsWritten(w, d)| > |PluginInfoPath(w, d)|;
  }

  /** The inner join of two plain segments, and how it parses again. */
  lemma InnerJoin(w: string, d: string)
    requires Plain(w) && Plain(d)
    ensures JoinPath([w, d]) == Join([w, d], '/')
    ensures Segments(JoinPath([w, d])) == [w, d]
    ensures !StartsWith(JoinPath([w, d]), "/")
  {
    JoinPlains([w, d]);
    SegmentsOfJoin([w, d]);
    JoinNotAnchored([w, d]);
  }

  /** The three steps of the doubled join. */
  lemma DoubledSteps(w: string, d: string)
    requires Plain(w) && Plain(d)
    ensures Parse([w, JoinPath([w, d]), PluginInfoFile]) == PurePath(false, [w, w, d, PluginInfoFile])
  {
    var wd := JoinPath([w, d]);
    var q := Step(Step(Step(Empty, w), wd), PluginInfoFile);
    assert Parse([w, wd, PluginInfoFile]) == q by {
      ParseThree(w, wd, PluginInfoFile);
    }
    assert q == PurePath(false, [w, w, d, PluginInfoFile]) by {
      InnerJoin(w, d);
      PlainInfoFile();
      ThreeRelativeSteps(w, wd, PluginInfoFile, w, d);
    }
  }

  lemma PlainInfoFile()
    ensures Plain(PluginInfoFile) && Segments(PluginInfoFile) == [PluginInfoFile]
    ensures !StartsWith(PluginInfoFile, "/")
  {
    SegmentsOfPlain(PluginInfoFile);
  }

  /** A plain segment, a relative path of two segments, and a plain segment. */
  lemma ThreeRelativeSteps(x: string, y: string, z: string, m1: string, m2: string)
    requires Plain(x) && Plain(z)
    requires !StartsWith(y, "/") && Segments(y) == [m1, m2]
    ensures Step(Step(Step(Empty, x), y), z) == PurePath(false, [x, m1, m2, z])
  {
    SegmentsOfPlain(x);
    SegmentsOfPlain(z);
    assert !StartsWith(x, "/") by { assert x[0] in x; }
    assert !StartsWith(z, "/") by { assert z[0] in z; }
    StepRelative(Empty, x);
    var s1 := Step(Empty, x);
    StepRelative(s1, y);
    var s2 := Step(s1, y);
    StepRelative(s2, z);
    assert [] + [x] + [m1, m2] + [z] == [x, m1, m2, z];
  }

  lemma JoinFour(a: string, b: string, c: string, e: string)
    ensures Join([a, b, c, e], '/') == a + "/" + b + "/" + c + "/" + e
  {
    var xs := [a, b, c, e];
    assert xs[1..] == [b, c, e];
    JoinThree(b, c, e, '/');
  }

  /** With an absolute work directory the second join is harmless: the inner
      path is anchored and replaces everything before it. */
  lemma PluginInfoPathAbsoluteAgrees(w: string, d: string)
    requires StartsWith(w, "/")
    ensures PluginInfoPathAsWritten(w, d) == PluginInfoPath(w, d)
  {
    var s1 := Step(Empty, w);
    var q := Step(s1, d);
    assert q.absolute by {
      FoldKeepsAnchor(s1, [d]);
      assert [d][1..] == [];
      assert Fold(s1, [d]) == Fold(q, []);
    }
    ParseTwo(w, d);
    var inner := JoinPath([w, d]);
    assert inner == AsPosix(q);
    StepAnchored(s1, q);
    ParseThree(w, inner, PluginInfoFile);
    ParseThree(w, d, PluginInfoFile);
  }

  /** A work directory that names no segment ("" or ".") adds nothing, so the
      second join is harmless. */
  lemma PluginInfoPathUnnamedAgrees(w: string, d: string)
    requires w == "" || w == "."
    ensures PluginInfoPathAsWritten(w, d) == PluginInfoPath(w, d)
  {
    var inner := JoinPath([w, d]);
    ParseDropsFirst(w, inner, PluginInfoFile);
  }

  /** With an absolute input directory the inner path is anchored and replaces
      the work directory joined before it. */
  lemma PluginInfoPathAbsoluteDirAgrees(w: string, d: string)
    requires StartsWith(d, "/")
    ensures PluginInfoPathAsWritten(w, d) == PluginInfoPath(w, d)
  {
    var inner := JoinPath([w, d]);
    assert StartsWith(inner, "/") by {
      ParseTwo(w, d);
    }
    ParseDropsFirst(w, inner, PluginInfoFile);
  }
}
