/** How the packaging script reads a release branch name: `release/<app>` is a
    release of the core application, `release/<app>/<plugin>` (more segments are
    ignored) a release of a plugin, and anything else is refused. */
module Branch {
  import opened Outcomes
  import opened Text

  /** What a release branch says: core release or not, the application version as
      named and without spaces, and the plugin version. */
  datatype Release = Release(isCore: bool, appVersion: string, internalVersion: string, pluginVersion: string)

  datatype BranchError = NotARelease

  /** The branch name split at '/' and read as a release (package_qtifw `main`). */
  function ParseBranch(branch: string): (r: Result<Release, BranchError>)
    ensures r.Err? <==> !StartsWith(branch, "release/")
    ensures r.Ok? ==> (r.value.isCore <==> Count(branch, '/') == 1)
    ensures r.Ok? && r.value.isCore ==> r.value.pluginVersion == "undefined"
    ensures r.Ok? ==> '/' !in r.value.appVersion && '/' !in r.value.pluginVersion
    ensures r.Ok? ==> r.value.internalVersion == Remove(r.value.appVersion, ' ')
    ensures r.Ok? ==> ' ' !in r.value.internalVersion && '/' !in r.value.internalVersion
  {
    if !StartsWith(branch, "release/") then Err(NotARelease)
    else
      var segs := Split(branch, '/');
      assert Count(branch, '/') >= 1 by {
        assert branch[7] in branch;
      }
      // The first conjunct is implied by the guard above.
      assert StartsWith(branch, "release") by {
        ReleaseWord();
        StartsWithPrefix(branch, "release/", "release");
      }
      var isCore := StartsWith(branch, "release") && Count(branch, '/') == 1;
      var app := if isCore then segs[1] else Replace(segs[1], "core_", "");
      var internal := Replace(app, " ", "");
      assert '/' !in app && internal == Remove(app, ' ') && '/' !in internal by {
        if !isCore {
          ReplaceByNothingKeepsOut(segs[1], "core_", '/');
        }
        ReplaceCharIsRemove(app, ' ');
        RemoveKeepsOut(app, ' ', '/');
      }
      var plugin := if isCore then "undefined" else segs[2];
      Ok(Release(isCore, app, internal, plugin))
  }

  // ---------------------------------------------------------------------------
  // Lemmas
  // ---------------------------------------------------------------------------

  /** Splitting "release/" followed by more text at '/'. */
  lemma SplitRelease(rest: string)
    ensures "release/" + rest == "release" + ['/'] + rest
    ensures Split("release/" + rest, '/') == ["release"] + Split(rest, '/')
  {
    assert "release/" + rest == "release" + ['/'] + rest;
    SplitAtFirst("release", '/', rest);
  }

  /** A release branch of the core application: `release/<v>` with no further '/'. */
  lemma CoreRelease(v: string)
    requires '/' !in v
    ensures ParseBranch("release/" + v) == Ok(Release(true, v, Remove(v, ' '), "undefined"))
  {
    var b := "release/" + v;
    CountRelease(v);
    SplitCore(v);
    assert StartsWith(b, "release/");
  }

  /** `release/<v>` holds one '/' when `v` holds none. */
  lemma CountRelease(v: string)
    requires '/' !in v
    ensures Count("release/" + v, '/') == 1
  {
    var b := "release/" + v;
    CountIsMultiplicity(b, '/');
    CountIsMultiplicity(v, '/');
    assert multiset(b) == multiset("release/") + multiset(v);
    SlashOnce();
  }

  lemma SlashOnce()
    ensures multiset("release/")['/'] == 1
  {
  }

  /** `release/<v>` splits into "release" and `v` when `v` holds no '/'. */
  lemma SplitCore(v: string)
    requires '/' !in v
    ensures Split("release/" + v, '/') == ["release", v]
  {
    SplitRelease(v);
    SplitNoSeparator(v, '/');
  }

  lemma ReleaseWord()
    ensures StartsWith("release/", "release")
  {
  }

  lemma Regroup(x: string, a: string, y: string, p: string, rest: string)
    ensures x + a + y + p + rest == x + (a + y + (p + rest))
  {
  }

  /** A piece without '/' followed by nothing or by a '/' is the first piece. */
  lemma SplitHead(p: string, rest: string)
    requires '/' !in p
    requires rest == [] || rest[0] == '/'
    ensures Split(p + rest, '/')[0] == p
  {
    if rest == [] {
      assert p + rest == p;
      SplitNoSeparator(p, '/');
    } else {
      ConsRegroup(p, rest);
      SplitAtFirst(p, '/', rest[1..]);
    }
  }

  lemma ConsRegroup(p: string, rest: string)
    requires rest != []
    ensures p + rest == p + [rest[0]] + rest[1..]
  {
    assert rest == [rest[0]] + rest[1..];
  }

  /** The pieces of `release/<a>/<p>` followed by '/'-separated segments. */
  lemma SplitPluginBranch(a: string, p: string, rest: string)
    requires '/' !in a && '/' !in p
    requires rest == [] || rest[0] == '/'
    ensures var segs := Split("release/" + (a + ['/'] + (p + rest)), '/');
      |segs| >= 3 && segs[1] == a && segs[2] == p
  {
    var tail := a + ['/'] + (p + rest);
    SplitRelease(tail);
    SplitAtFirst(a, '/', p + rest);
    SplitHead(p, rest);
  }

  /** A release branch of a plugin: `release/<a>/<p>`, possibly followed by more
      '/'-separated segments, which are ignored. */
  lemma PluginRelease(a: string, p: string, rest: string)
    requires '/' !in a && '/' !in p
    requires rest == [] || rest[0] == '/'
    ensures ParseBranch("release/" + a + "/" + p + rest)
         == Ok(Release(false, Replace(a, "core_", ""), Remove(Replace(a, "core_", ""), ' '), p))
  {
    var b := "release/" + a + "/" + p + rest;
    Regroup("release/", a, "/", p, rest);
    SplitPluginBranch(a, p, rest);
    assert StartsWith(b, "release/");
    var app := Replace(a, "core_", "");
    ReplaceCharIsRemove(app, ' ');
  }

  /** The usual plugin branch names its application `core_<app>`: the prefix is
      dropped and the name after it is kept, when "core_" does not occur again. */
  lemma CorePrefixDropped(app: string)
    requires forall i: nat :: !OccursAt(app, "core_", i)
    ensures Replace("core_" + app, "core_", "") == app
  {
    ReplaceFirst([], "core_", app, []);
    assert [] + "core_" + app == "core_" + app;
    ReplaceAbsent(app, "core_", []);
  }
}
