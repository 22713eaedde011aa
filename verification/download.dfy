/** `art_download_tree_recursive` and `art_download_repo_current`: a remote folder
    is mirrored into a local directory by asking the storage API for each folder's
    children, recursing into sub-folders and fetching files one at a time. The
    server is an abstract tree: each node answers the folder-info request and the
    file GET for its own path. */
module Download {
  import opened Outcomes
  import opened Text
  import opened Artifactory
  import opened Paths

  /** What the server holds at one remote path: its answer to a folder-info
      request (status and JSON body) and the status of a file GET. */
  datatype Node = Node(infoStatus: Status, info: FolderJson, fileStatus: Status)

  /** The folder-info JSON as the download reads it: whether it has any field
      besides "children", and "children" if present. */
  datatype FolderJson = FolderJson(otherFields: bool, children: ChildrenField)

  /** The "children" field, absent or a list. */
  datatype ChildrenField = NoChildren | ChildList(entries: seq<Entry>)

  /** One element of "children": its "uri" and "folder" fields, and the node the
      server holds at the child's path. */
  datatype Entry = Entry(uri: Option<string>, folder: Option<bool>, node: Node)

  /** Python truthiness of the JSON object: an empty object counts as "no info". */
  predicate Truthy(json: FolderJson) {
    json.otherFields || json.children.ChildList?
  }

  /** `child.get("uri", "").lstrip("/")`. */
  function Name(e: Entry): string {
    LStrip(e.uri.GetOr(""), '/')
  }

  /** `child.get("folder")` is truthy. */
  predicate IsFolder(e: Entry) {
    e.folder == Some(true)
  }

  /** `info.get("children", [])`. */
  function ChildrenOf(json: FolderJson): seq<Entry> {
    match json.children
    case NoChildren => []
    case ChildList(entries) => entries
  }

  /** What the download does, in order: requests sent, local directories created,
      local files written (with the URL their content came from). */
  datatype Event =
    | Sent(request: Request)
    | MakeDir(local: seq<string>)
    | Wrote(local: seq<string>, url: string)

  /** The events of a download and whether it ended without raising. Local paths
      are segment lists relative to the directory the download started in. */
  datatype Run = Run(events: seq<Event>, ok: bool)

  /** The paths of all files written. */
  function Written(events: seq<Event>): set<seq<string>> {
    set i | 0 <= i < |events| && events[i].Wrote? :: events[i].local
  }

  /** `art_download_tree_recursive(remote, local)` against the node `n` the server
      holds at `remote`. */
  function Tree(base: string, repo: string, remote: string, local: seq<string>, n: Node): (r: Run)
    ensures |r.events| > 0 && r.events[0] == Sent(GetInfo(InfoUrl(base, repo, remote)))
    ensures n.infoStatus == 404 ==> r == Run([Sent(GetInfo(InfoUrl(base, repo, remote)))], true)
    ensures n.infoStatus != 200 && n.infoStatus != 404 ==> r == Run([Sent(GetInfo(InfoUrl(base, repo, remote)))], false)
    ensures n.infoStatus == 200 && !Truthy(n.info) ==> r == Run([Sent(GetInfo(InfoUrl(base, repo, remote)))], true)
    ensures n.infoStatus == 200 && Truthy(n.info) ==> |r.events| > 1 && r.events[1] == MakeDir(local)
    decreases n, 2, 0
  {
    var ask := Sent(GetInfo(InfoUrl(base, repo, remote)));
    match ReadInfo(n.infoStatus, n.info)
    case Absent => Run([ask], true)
    case InfoFailed(_) => Run([ask], false)
    case Listing(json) =>
      if !Truthy(json) then Run([ask], true)
      else
        var rest := Children(base, repo, remote, local, n, 0);
        Run([ask, MakeDir(local)] + rest.events, rest.ok)
  }

  /** The loop over the children of the folder `n` from position `i` on, stopping
      at the first error. */
  function Children(base: string, repo: string, remote: string, local: seq<string>, n: Node, i: nat): Run
    requires i <= |ChildrenOf(n.info)|
    decreases n, 1, |ChildrenOf(n.info)| - i
  {
    var cs := ChildrenOf(n.info);
    if i == |cs| then Run([], true)
    else
      var first := Child(base, repo, remote, local, n, cs[i]);
      if !first.ok then first
      else
        var rest := Children(base, repo, remote, local, n, i + 1);
        Run(first.events + rest.events, rest.ok)
  }

  /** One child of the folder `n`: skipped when its name is empty, recursed into
      when it is a folder, otherwise fetched. */
  function Child(base: string, repo: string, remote: string, local: seq<string>, n: Node, e: Entry): Run
    requires e in ChildrenOf(n.info)
    decreases n, 0, 0
  {
    var name := Name(e);
    if name == [] then Run([], true)
    else
      var childRemote := ChildRemote(remote, name);
      if IsFolder(e) then
        assert e.node < n by {
          assert n.info.children.ChildList?;
        }
        Tree(base, repo, childRemote, local + [name], e.node)
      else FetchFile(ArtUrl(base, repo + "/" + childRemote), local + [name], e.node.fileStatus)
  }

  /** The remote path of the child `name` of the folder at `remote`. */
  function ChildRemote(remote: string, name: string): string {
    Strip(remote, '/') + "/" + name
  }

  /** A file child: 200 writes it, 404 skips it silently, anything else raises. */
  function FetchFile(url: string, local: seq<string>, status: Status): (r: Run)
    ensures |r.events| > 0 && r.events[0] == Sent(GetFile(url))
    ensures r.ok <==> status == 200 || status == 404
    ensures Written(r.events) == if status == 200 then {local} else {}
  {
    var get := Sent(GetFile(url));
    var r := if status == 200 then Run([get, Wrote(local, url)], true)
      else if status == 404 then Run([get], true)
      else Run([get], false);
    assert status == 200 ==> r.events[1] == Wrote(local, url);
    r
  }

  /** `art_download_repo_current`: the remote path is stripped of '/' at both ends
      and downloaded into the local root. */
  function RepoCurrent(base: string, repo: string, remotePath: string, n: Node): Run {
    Tree(base, repo, Strip(remotePath, '/'), [], n)
  }

  // ---------------------------------------------------------------------------
  // Lemmas
  // ---------------------------------------------------------------------------

  /** `q` is the path, relative to the folder `n`, of a file listed below `n`:
      following non-empty names through folder entries down to a file entry. */
  ghost predicate Lists(n: Node, q: seq<string>)
    decreases n, 1
  {
    exists j :: 0 <= j < |ChildrenOf(n.info)| && EntryLists(n, ChildrenOf(n.info)[j], q)
  }

  /** `q` is the path of a file listed at or below the child entry `e` of `n`. */
  ghost predicate EntryLists(n: Node, e: Entry, q: seq<string>)
    requires e in ChildrenOf(n.info)
    decreases n, 0
  {
    assert IsFolder(e) ==> e.node < n by {
      assert n.info.children.ChildList?;
    }
    && |q| > 0
    && Name(e) != []
    && q[0] == Name(e)
    && if IsFolder(e) then Lists(e.node, q[1..]) else |q| == 1
  }

  /** Every request the download of `n` makes is answered with 200. */
  ghost predicate AllServed(n: Node)
    decreases n, 1
  {
    && n.infoStatus == 200
    && forall j :: 0 <= j < |ChildrenOf(n.info)| ==> EntryServed(n, ChildrenOf(n.info)[j])
  }

  /** Every request the child `e` of `n` leads to is answered with 200. */
  ghost predicate EntryServed(n: Node, e: Entry)
    requires e in ChildrenOf(n.info)
    decreases n, 0
  {
    assert IsFolder(e) ==> e.node < n by {
      assert n.info.children.ChildList?;
    }
    Name(e) != [] ==> if IsFolder(e) then AllServed(e.node) else e.node.fileStatus == 200
  }

  lemma WrittenAppend(a: seq<Event>, b: seq<Event>)
    ensures Written(a + b) == Written(a) + Written(b)
  {
    var ab := a + b;
    forall p | p in Written(ab)
      ensures p in Written(a) + Written(b)
    {
      var i :| 0 <= i < |ab| && ab[i].Wrote? && ab[i].local == p;
      if i >= |a| {
        assert b[i - |a|] == ab[i];
      }
    }
    forall p | p in Written(a) + Written(b)
      ensures p in Written(ab)
    {
      if p in Written(b) {
        var i :| 0 <= i < |b| && b[i].Wrote? && b[i].local == p;
        assert ab[|a| + i] == b[i];
      } else {
        var i :| 0 <= i < |a| && a[i].Wrote? && a[i].local == p;
        assert ab[i] == a[i];
      }
    }
  }

  /** The files written, each with the URL its content came from. */
  function Writes(events: seq<Event>): set<(seq<string>, string)> {
    set i | 0 <= i < |events| && events[i].Wrote? :: (events[i].local, events[i].url)
  }

  lemma WritesAppend(a: seq<Event>, b: seq<Event>)
    ensures Writes(a + b) == Writes(a) + Writes(b)
  {
    var ab := a + b;
    forall w | w in Writes(ab)
      ensures w in Writes(a) + Writes(b)
    {
      var i :| 0 <= i < |ab| && ab[i].Wrote? && (ab[i].local, ab[i].url) == w;
      if i >= |a| {
        assert b[i - |a|] == ab[i];
      }
    }
    forall w | w in Writes(a) + Writes(b)
      ensures w in Writes(ab)
    {
      if w in Writes(b) {
        var i :| 0 <= i < |b| && b[i].Wrote? && (b[i].local, b[i].url) == w;
        assert ab[|a| + i] == b[i];
      } else {
        var i :| 0 <= i < |a| && a[i].Wrote? && (a[i].local, a[i].url) == w;
        assert ab[i] == a[i];
      }
    }
  }

  /** `p` lies inside the local directory `local`. */
  predicate Below(p: seq<string>, local: seq<string>) {
    |local| < |p| && p[..|local|] == local
  }

  /** Every file the download writes is a file the remote folder lists, at the
      same relative path. */
  lemma TreeSound(base: string, repo: string, remote: string, local: seq<string>, n: Node)
    ensures forall p :: p in Written(Tree(base, repo, remote, local, n).events) ==>
      Below(p, local) && Lists(n, p[|local|..])
    decreases n, 2, 0
  {
    var r := Tree(base, repo, remote, local, n);
    if n.infoStatus == 200 && Truthy(n.info) {
      var ask := Sent(GetInfo(InfoUrl(base, repo, remote)));
      var rest := Children(base, repo, remote, local, n, 0);
      assert r.events == [ask, MakeDir(local)] + rest.events;
      WrittenAppend([ask, MakeDir(local)], rest.events);
      assert Written([ask, MakeDir(local)]) == {};
      ChildrenSound(base, repo, remote, local, n, 0);
    } else {
      assert Written(r.events) == {};
    }
  }

  lemma ChildrenSound(base: string, repo: string, remote: string, local: seq<string>, n: Node, i: nat)
    requires i <= |ChildrenOf(n.info)|
    ensures forall p :: p in Written(Children(base, repo, remote, local, n, i).events) ==>
      Below(p, local) &&
      exists j :: i <= j < |ChildrenOf(n.info)| && EntryLists(n, ChildrenOf(n.info)[j], p[|local|..])
    decreases n, 1, |ChildrenOf(n.info)| - i
  {
    var cs := ChildrenOf(n.info);
    if i < |cs| {
      var first := Child(base, repo, remote, local, n, cs[i]);
      ChildSound(base, repo, remote, local, n, cs[i]);
      if first.ok {
        var rest := Children(base, repo, remote, local, n, i + 1);
        WrittenAppend(first.events, rest.events);
        ChildrenSound(base, repo, remote, local, n, i + 1);
      }
    }
  }

  lemma ChildSound(base: string, repo: string, remote: string, local: seq<string>, n: Node, e: Entry)
    requires e in ChildrenOf(n.info)
    ensures forall p :: p in Written(Child(base, repo, remote, local, n, e).events) ==>
      Below(p, local) && EntryLists(n, e, p[|local|..])
    decreases n, 0, 0
  {
    var name := Name(e);
    if name != [] {
      var childRemote := ChildRemote(remote, name);
      var sub := local + [name];
      if IsFolder(e) {
        assert e.node < n by {
          assert n.info.children.ChildList?;
        }
        TreeSound(base, repo, childRemote, sub, e.node);
        forall p | p in Written(Child(base, repo, remote, local, n, e).events)
          ensures Below(p, local) && EntryLists(n, e, p[|local|..])
        {
          assert Below(p, sub) && Lists(e.node, p[|sub|..]);
          assert p[..|sub|] == sub;
          assert p[..|local|] == sub[..|local|] == local;
          assert p[|local|] == p[..|sub|][|local|] == name;
          assert p[|local|..][1..] == p[|sub|..];
        }
      } else {
        forall p | p in Written(Child(base, repo, remote, local, n, e).events)
          ensures Below(p, local) && EntryLists(n, e, p[|local|..])
        {
          assert p == sub;
          assert p[..|local|] == local;
          assert p[|local|..] == [name];
        }
      }
    }
  }

  /** When every request is answered with 200 the download succeeds and writes
      every file the remote folder lists, at the same relative path. */
  lemma TreeComplete(base: string, repo: string, remote: string, local: seq<string>, n: Node)
    requires AllServed(n)
    ensures Tree(base, repo, remote, local, n).ok
    ensures forall q :: Lists(n, q) ==> local + q in Written(Tree(base, repo, remote, local, n).events)
    decreases n, 2, 0
  {
    var r := Tree(base, repo, remote, local, n);
    if Truthy(n.info) {
      var ask := Sent(GetInfo(InfoUrl(base, repo, remote)));
      var rest := Children(base, repo, remote, local, n, 0);
      assert r.events == [ask, MakeDir(local)] + rest.events;
      WrittenAppend([ask, MakeDir(local)], rest.events);
      ChildrenComplete(base, repo, remote, local, n, 0);
    } else {
      assert ChildrenOf(n.info) == [];
    }
  }

  lemma ChildrenComplete(base: string, repo: string, remote: string, local: seq<string>, n: Node, i: nat)
    requires i <= |ChildrenOf(n.info)|
    requires forall j :: i <= j < |ChildrenOf(n.info)| ==> EntryServed(n, ChildrenOf(n.info)[j])
    ensures Children(base, repo, remote, local, n, i).ok
    ensures forall q, j :: i <= j < |ChildrenOf(n.info)| && EntryLists(n, ChildrenOf(n.info)[j], q) ==>
      local + q in Written(Children(base, repo, remote, local, n, i).events)
    decreases n, 1, |ChildrenOf(n.info)| - i
  {
    var cs := ChildrenOf(n.info);
    if i < |cs| {
      var first := Child(base, repo, remote, local, n, cs[i]);
      ChildComplete(base, repo, remote, local, n, cs[i]);
      var rest := Children(base, repo, remote, local, n, i + 1);
      WrittenAppend(first.events, rest.events);
      ChildrenComplete(base, repo, remote, local, n, i + 1);
    }
  }

  lemma ChildComplete(base: string, repo: string, remote: string, local: seq<string>, n: Node, e: Entry)
    requires e in ChildrenOf(n.info)
    requires EntryServed(n, e)
    ensures Child(base, repo, remote, local, n, e).ok
    ensures forall q :: EntryLists(n, e, q) ==> local + q in Written(Child(base, repo, remote, local, n, e).events)
    decreases n, 0, 0
  {
    var name := Name(e);
    if name != [] {
      var childRemote := ChildRemote(remote, name);
      var sub := local + [name];
      if IsFolder(e) {
        assert e.node < n by {
          assert n.info.children.ChildList?;
        }
        TreeComplete(base, repo, childRemote, sub, e.node);
        forall q | EntryLists(n, e, q)
          ensures local + q in Written(Child(base, repo, remote, local, n, e).events)
        {
          assert q == [name] + q[1..];
          assert local + q == sub + q[1..];
        }
      } else {
        forall q | EntryLists(n, e, q)
          ensures local + q in Written(Child(base, repo, remote, local, n, e).events)
        {
          assert q == [name];
        }
      }
    }
  }

  /** Mirroring: against a server that answers every request with 200, the files
      written are exactly the files the remote folder lists. */
  lemma Mirror(base: string, repo: string, remote: string, local: seq<string>, n: Node)
    requires AllServed(n)
    ensures Tree(base, repo, remote, local, n).ok
    ensures forall q :: local + q in Written(Tree(base, repo, remote, local, n).events) <==> Lists(n, q)
    ensures forall p :: p in Written(Tree(base, repo, remote, local, n).events) ==> Below(p, local)
  {
    TreeComplete(base, repo, remote, local, n);
    TreeSound(base, repo, remote, local, n);
    forall q | local + q in Written(Tree(base, repo, remote, local, n).events)
      ensures Lists(n, q)
    {
      assert (local + q)[|local|..] == q;
    }
  }

  /** The download only looks at the remote path with its surrounding slashes
      stripped: two remote paths that strip to the same string download alike. */
  lemma TreeStripped(base: string, repo: string, r1: string, r2: string, local: seq<string>, n: Node)
    requires Strip(r1, '/') == Strip(r2, '/')
    ensures Tree(base, repo, r1, local, n).events[1..] == Tree(base, repo, r2, local, n).events[1..]
    ensures Tree(base, repo, r1, local, n).ok == Tree(base, repo, r2, local, n).ok
  {
    if n.infoStatus == 200 && Truthy(n.info) {
      ChildrenStripped(base, repo, r1, r2, local, n, 0);
    }
  }

  lemma {:induction false} ChildrenStripped(base: string, repo: string, r1: string, r2: string, local: seq<string>, n: Node, i: nat)
    requires Strip(r1, '/') == Strip(r2, '/')
    requires i <= |ChildrenOf(n.info)|
    ensures Children(base, repo, r1, local, n, i) == Children(base, repo, r2, local, n, i)
    decreases |ChildrenOf(n.info)| - i
  {
    var cs := ChildrenOf(n.info);
    if i < |cs| {
      ChildStripped(base, repo, r1, r2, local, n, cs[i]);
      ChildrenStripped(base, repo, r1, r2, local, n, i + 1);
    }
  }

  lemma ChildStripped(base: string, repo: string, r1: string, r2: string, local: seq<string>, n: Node, e: Entry)
    requires Strip(r1, '/') == Strip(r2, '/')
    requires e in ChildrenOf(n.info)
    ensures Child(base, repo, r1, local, n, e) == Child(base, repo, r2, local, n, e)
  {
  }

  /** `art_download_repo_current` into a fresh root: when the server answers
      every request, the files written are exactly those listed below the
      remote folder, at their relative paths. */
  lemma MirrorRepoCurrent(base: string, repo: string, remotePath: string, n: Node)
    requires AllServed(n)
    ensures RepoCurrent(base, repo, remotePath, n).ok
    ensures forall q :: q in Written(RepoCurrent(base, repo, remotePath, n).events) <==> Lists(n, q)
  {
    MirrorRoot(base, repo, Strip(remotePath, '/'), n);
  }

  lemma MirrorRoot(base: string, repo: string, remote: string, n: Node)
    requires AllServed(n)
    ensures Tree(base, repo, remote, [], n).ok
    ensures forall q :: q in Written(Tree(base, repo, remote, [], n).events) <==> Lists(n, q)
  {
    Mirror(base, repo, remote, [], n);
    forall q ensures q in Written(Tree(base, repo, remote, [], n).events) <==> Lists(n, q) {
      assert [] + q == q;
    }
  }

  /** Stripping first changes nothing: `art_download_repo_current` does what
      `art_download_tree_recursive` does on the unstripped path, apart from the
      spelling of the first folder-info URL, which itself ignores the slashes. */
  lemma RepoCurrentIsTree(base: string, repo: string, remotePath: string, n: Node)
    ensures RepoCurrent(base, repo, remotePath, n) == Tree(base, repo, remotePath, [], n)
  {
    var r1 := Strip(remotePath, '/');
    StripIdempotent(remotePath, '/');
    TreeStripped(base, repo, r1, remotePath, [], n);
    var a := RepoCurrent(base, repo, remotePath, n);
    var b := Tree(base, repo, remotePath, [], n);
    assert InfoUrl(base, repo, r1) == InfoUrl(base, repo, remotePath);
    assert a.events == [a.events[0]] + a.events[1..];
    assert b.events == [b.events[0]] + b.events[1..];
  }

  /** Slashes around the remote path of `art_download_repo_current` do not matter. */
  lemma RepoCurrentSlashInsensitive(base: string, repo: string, remotePath: string, m: nat, k: nat, n: Node)
    ensures RepoCurrent(base, repo, Repeat('/', m) + remotePath + Repeat('/', k), n)
         == RepoCurrent(base, repo, remotePath, n)
  {
    StripAbsorbs('/', m, remotePath, k);
  }

  // ---------------------------------------------------------------------------
  // Where each file comes from
  // ---------------------------------------------------------------------------

  /** The remote path of the file at relative local path `q` below the folder
      at `remote`: each name appended with `ChildRemote`, one level at a time. */
  function RemoteOf(remote: string, q: seq<string>): string
    requires |q| > 0
    decreases |q|
  {
    var next := ChildRemote(remote, q[0]);
    if |q| == 1 then next else RemoteOf(next, q[1..])
  }

  /** Every file is written below the local root, from the file URL of the
      remote path its local path leads to. */
  lemma TreeUrls(base: string, repo: string, remote: string, local: seq<string>, n: Node)
    ensures forall w :: w in Writes(Tree(base, repo, remote, local, n).events) ==>
      Below(w.0, local) && w.1 == ArtUrl(base, repo + "/" + RemoteOf(remote, w.0[|local|..]))
    decreases n, 2, 0
  {
    var r := Tree(base, repo, remote, local, n);
    if n.infoStatus == 200 && Truthy(n.info) {
      var ask := Sent(GetInfo(InfoUrl(base, repo, remote)));
      var rest := Children(base, repo, remote, local, n, 0);
      assert r.events == [ask, MakeDir(local)] + rest.events;
      WritesAppend([ask, MakeDir(local)], rest.events);
      assert Writes([ask, MakeDir(local)]) == {};
      ChildrenUrls(base, repo, remote, local, n, 0);
    } else {
      assert Writes(r.events) == {};
    }
  }

  lemma ChildrenUrls(base: string, repo: string, remote: string, local: seq<string>, n: Node, i: nat)
    requires i <= |ChildrenOf(n.info)|
    ensures forall w :: w in Writes(Children(base, repo, remote, local, n, i).events) ==>
      Below(w.0, local) && w.1 == ArtUrl(base, repo + "/" + RemoteOf(remote, w.0[|local|..]))
    decreases n, 1, |ChildrenOf(n.info)| - i
  {
    var cs := ChildrenOf(n.info);
    if i < |cs| {
      var first := Child(base, repo, remote, local, n, cs[i]);
      ChildUrls(base, repo, remote, local, n, cs[i]);
      if first.ok {
        var rest := Children(base, repo, remote, local, n, i + 1);
        WritesAppend(first.events, rest.events);
        ChildrenUrls(base, repo, remote, local, n, i + 1);
      }
    }
  }

  lemma ChildUrls(base: string, repo: string, remote: string, local: seq<string>, n: Node, e: Entry)
    requires e in ChildrenOf(n.info)
    ensures forall w :: w in Writes(Child(base, repo, remote, local, n, e).events) ==>
      Below(w.0, local) && w.1 == ArtUrl(base, repo + "/" + RemoteOf(remote, w.0[|local|..]))
    decreases n, 0, 0
  {
    var name := Name(e);
    if name != [] {
      var childRemote := ChildRemote(remote, name);
      var sub := local + [name];
      if IsFolder(e) {
        assert e.node < n by {
          assert n.info.children.ChildList?;
        }
        TreeUrls(base, repo, childRemote, sub, e.node);
        forall w | w in Writes(Child(base, repo, remote, local, n, e).events)
          ensures Below(w.0, local) && w.1 == ArtUrl(base, repo + "/" + RemoteOf(remote, w.0[|local|..]))
        {
          var p := w.0;
          assert Below(p, sub);
          assert p[..|sub|] == sub;
          assert p[..|local|] == sub[..|local|] == local;
          var q := p[|local|..];
          assert q[0] == p[..|sub|][|local|] == name;
          assert q[1..] == p[|sub|..];
          assert RemoteOf(remote, q) == RemoteOf(childRemote, q[1..]);
        }
      } else {
        var url := ArtUrl(base, repo + "/" + childRemote);
        var f := FetchFile(url, sub, e.node.fileStatus);
        forall w | w in Writes(f.events)
          ensures Below(w.0, local) && w.1 == ArtUrl(base, repo + "/" + RemoteOf(remote, w.0[|local|..]))
        {
          var i :| 0 <= i < |f.events| && f.events[i].Wrote? && (f.events[i].local, f.events[i].url) == w;
          assert e.node.fileStatus == 200 && i == 1;
          assert w == (sub, url);
          assert sub[..|local|] == local;
          assert sub[|local|..] == [name];
        }
      }
    }
  }

  // ---------------------------------------------------------------------------
  // When the walk fails
  // ---------------------------------------------------------------------------

  /** Every request the walk of `n` sends is answered with 200 or 404. */
  ghost predicate Healthy(n: Node)
    decreases n, 1
  {
    && (n.infoStatus == 200 || n.infoStatus == 404)
    && (n.infoStatus == 200 ==>
          forall j :: 0 <= j < |ChildrenOf(n.info)| ==> EntryHealthy(n, ChildrenOf(n.info)[j]))
  }

  /** Every request the child `e` of `n` leads to is answered with 200 or 404. */
  ghost predicate EntryHealthy(n: Node, e: Entry)
    requires e in ChildrenOf(n.info)
    decreases n, 0
  {
    assert IsFolder(e) ==> e.node < n by {
      assert n.info.children.ChildList?;
    }
    Name(e) != [] ==>
      if IsFolder(e) then Healthy(e.node) else e.node.fileStatus == 200 || e.node.fileStatus == 404
  }

  /** The walk raises exactly when some request it sends is answered with a
      status other than 200 and 404; 404 skips a folder or file quietly. */
  lemma TreeOk(base: string, repo: string, remote: string, local: seq<string>, n: Node)
    ensures Tree(base, repo, remote, local, n).ok <==> Healthy(n)
    decreases n, 2, 0
  {
    if n.infoStatus == 200 && Truthy(n.info) {
      ChildrenOk(base, repo, remote, local, n, 0);
    } else if n.infoStatus == 200 {
      assert ChildrenOf(n.info) == [];
    }
  }

  lemma ChildrenOk(base: string, repo: string, remote: string, local: seq<string>, n: Node, i: nat)
    requires i <= |ChildrenOf(n.info)|
    ensures Children(base, repo, remote, local, n, i).ok <==>
      forall j :: i <= j < |ChildrenOf(n.info)| ==> EntryHealthy(n, ChildrenOf(n.info)[j])
    decreases n, 1, |ChildrenOf(n.info)| - i
  {
    var cs := ChildrenOf(n.info);
    if i < |cs| {
      ChildOk(base, repo, remote, local, n, cs[i]);
      ChildrenOk(base, repo, remote, local, n, i + 1);
    }
  }

  lemma ChildOk(base: string, repo: string, remote: string, local: seq<string>, n: Node, e: Entry)
    requires e in ChildrenOf(n.info)
    ensures Child(base, repo, remote, local, n, e).ok <==> EntryHealthy(n, e)
    decreases n, 0, 0
  {
    var name := Name(e);
    if name != [] && IsFolder(e) {
      assert e.node < n by {
        assert n.info.children.ChildList?;
      }
      TreeOk(base, repo, ChildRemote(remote, name), local + [name], e.node);
    }
  }

  // ---------------------------------------------------------------------------
  // Staying inside the local root
  // ---------------------------------------------------------------------------

  /** Every name the walk of `n` would use is a single path segment other than
      "..": no '/', not empty, not "." and not "..". */
  ghost predicate SafeNames(n: Node)
    decreases n, 1
  {
    forall j :: 0 <= j < |ChildrenOf(n.info)| ==> EntrySafe(n, ChildrenOf(n.info)[j])
  }

  ghost predicate EntrySafe(n: Node, e: Entry)
    requires e in ChildrenOf(n.info)
    decreases n, 0
  {
    assert IsFolder(e) ==> e.node < n by {
      assert n.info.children.ChildList?;
    }
    Name(e) != [] ==> Plain(Name(e)) && Name(e) != ".." && (IsFolder(e) ==> SafeNames(e.node))
  }

  /** With safe names, every segment of a listed path is safe. */
  lemma ListsSafe(n: Node, q: seq<string>)
    requires SafeNames(n) && Lists(n, q)
    ensures forall i :: 0 <= i < |q| ==> Plain(q[i]) && q[i] != ".."
    decreases n
  {
    var cs := ChildrenOf(n.info);
    var j :| 0 <= j < |cs| && EntryLists(n, cs[j], q);
    var e := cs[j];
    assert EntrySafe(n, e);
    if IsFolder(e) {
      assert e.node < n by {
        assert n.info.children.ChildList?;
      }
      ListsSafe(e.node, q[1..]);
      forall i | 1 <= i < |q|
        ensures Plain(q[i]) && q[i] != ".."
      {
        assert q[i] == q[1..][i - 1];
      }
    }
  }

  /** When every listed name is a single segment other than "..", each file is
      written at the local root followed by such segments: `local_root / name`
      appends one segment at each level, and nothing climbs out of the root. */
  lemma WrittenInside(base: string, repo: string, remote: string, local: seq<string>, n: Node)
    requires SafeNames(n)
    ensures forall p :: p in Written(Tree(base, repo, remote, local, n).events) ==>
      && Below(p, local)
      && forall i :: |local| <= i < |p| ==> Plain(p[i]) && p[i] != ".."
  {
    TreeSound(base, repo, remote, local, n);
    forall p | p in Written(Tree(base, repo, remote, local, n).events)
      ensures forall i :: |local| <= i < |p| ==> Plain(p[i]) && p[i] != ".."
    {
      var q := p[|local|..];
      ListsSafe(n, q);
      forall i | |local| <= i < |p|
        ensures Plain(p[i]) && p[i] != ".."
      {
        assert p[i] == q[i - |local|];
      }
    }
  }
}
