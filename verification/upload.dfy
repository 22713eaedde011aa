/** `art_upload_tree`: every file under a local directory is uploaded below a remote
    path, one after the other, stopping at the first error. For the repository
    publish the index file `Updates.xml` is held back to the end, so that the
    repository switches to the new index only once everything it names is there. */
module Upload {
  import opened Text
  import opened Artifactory

  /** One file of the local listing: its '/'-separated path relative to the root,
      and the file itself. */
  datatype Listed = Listed(rel: string, file: LocalFile)

  /** The installer repository's index file, matched by name suffix. */
  predicate IsIndex(entry: Listed) {
    EndsWith(entry.rel, "Updates.xml")
  }

  /** The elements of `xs` on which `p` is `want`, in their order in `xs`. */
  function Keep<T>(xs: seq<T>, p: T -> bool, want: bool): (r: seq<T>)
    ensures |r| <= |xs|
    ensures forall i :: 0 <= i < |r| ==> p(r[i]) == want
  {
    if xs == [] then []
    else (if p(xs[0]) == want then [xs[0]] else []) + Keep(xs[1..], p, want)
  }

  /** The order files are sent in: the listing itself, or with `updatesLast` the
      other files first and the index files after them. */
  function UploadOrder(files: seq<Listed>, updatesLast: bool): (order: seq<Listed>)
    ensures !updatesLast ==> order == files
    ensures multiset(order) == multiset(files) && |order| == |files|
    ensures updatesLast ==> forall i, j :: 0 <= i < j < |order| && IsIndex(order[i]) ==> IsIndex(order[j])
    ensures Keep(order, IsIndex, true) == Keep(files, IsIndex, true)
    ensures Keep(order, IsIndex, false) == Keep(files, IsIndex, false)
  {
    if updatesLast then
      var head := Keep(files, IsIndex, false);
      var tail := Keep(files, IsIndex, true);
      KeepPartitions(files, IsIndex);
      KeepSplit(head, tail, IsIndex);
      assert |multiset(head + tail)| == |multiset(files)|;
      head + tail
    else files
  }

  /** Where a listed file goes: the base path without trailing slashes, '/', and
      the relative path. */
  function RemotePath(baseRemote: string, rel: string): string {
    RStrip(baseRemote, '/') + "/" + rel
  }

  /** One attempted file upload. */
  datatype Attempt = Attempt(entry: Listed, upload: FileUpload)

  /** The upload of one listed file to its place below `baseRemote`. */
  function Send(server: Server, base: string, repo: string, baseRemote: string, entry: Listed): Attempt {
    Attempt(entry, UploadFile(server, base, repo, RemotePath(baseRemote, entry.rel), entry.file))
  }

  /** Uploading `order` one file after another, each with `send`, until the
      first failure. */
  function UploadAll(send: Listed -> Attempt, order: seq<Listed>): (run: seq<Attempt>)
    ensures |run| <= |order|
    ensures forall i :: 0 <= i < |run| ==> run[i] == send(order[i])
    ensures forall i :: 0 <= i < |run| - 1 ==> run[i].upload.ok
    ensures |run| < |order| ==> |run| > 0 && !run[|run| - 1].upload.ok
  {
    if order == [] then []
    else
      var first := send(order[0]);
      if !first.upload.ok then [first]
      else
        var rest := UploadAll(send, order[1..]);
        var run := [first] + rest;
        assert forall i :: 1 <= i < |run| ==> run[i] == rest[i - 1];
        assert forall i :: 1 <= i < |order| ==> order[i] == order[1..][i - 1];
        run
  }

  /** `art_upload_tree`. */
  function UploadTree(server: Server, base: string, repo: string, baseRemote: string, files: seq<Listed>, updatesLast: bool): (run: seq<Attempt>)
    ensures |run| <= |files|
    ensures forall i :: 0 <= i < |run| ==> run[i] == Send(server, base, repo, baseRemote, UploadOrder(files, updatesLast)[i])
    ensures forall i :: 0 <= i < |run| - 1 ==> run[i].upload.ok
    ensures |run| < |files| ==> |run| > 0 && !run[|run| - 1].upload.ok
  {
    UploadAll(entry => Send(server, base, repo, baseRemote, entry), UploadOrder(files, updatesLast))
  }

  /** A run that uploaded every file without an error. */
  predicate Completed(run: seq<Attempt>, files: seq<Listed>) {
    |run| == |files| && forall i :: 0 <= i < |run| ==> run[i].upload.ok
  }

  // ---------------------------------------------------------------------------
  // Lemmas
  // ---------------------------------------------------------------------------

  lemma {:induction false} KeepAppend<T>(a: seq<T>, b: seq<T>, p: T -> bool, want: bool)
    ensures Keep(a + b, p, want) == Keep(a, p, want) + Keep(b, p, want)
    decreases |a|
  {
    if a == [] {
      assert a + b == b;
    } else {
      assert (a + b)[1..] == a[1..] + b;
      KeepAppend(a[1..], b, p, want);
    }
  }

  lemma {:induction false} KeepAll<T>(a: seq<T>, p: T -> bool, want: bool)
    requires forall i :: 0 <= i < |a| ==> p(a[i]) == want
    ensures Keep(a, p, want) == a
    decreases |a|
  {
    if a != [] {
      KeepAll(a[1..], p, want);
      assert a == [a[0]] + a[1..];
    }
  }

  lemma {:induction false} KeepNone<T>(a: seq<T>, p: T -> bool, want: bool)
    requires forall i :: 0 <= i < |a| ==> p(a[i]) != want
    ensures Keep(a, p, want) == []
    decreases |a|
  {
    if a != [] {
      KeepNone(a[1..], p, want);
    }
  }

  /** The two kinds together hold every element exactly as often as `xs` does. */
  lemma {:induction false} KeepPartitions<T>(xs: seq<T>, p: T -> bool)
    ensures multiset(Keep(xs, p, false)) + multiset(Keep(xs, p, true)) == multiset(xs)
    decreases |xs|
  {
    if xs != [] {
      KeepPartitions(xs[1..], p);
      assert xs == [xs[0]] + xs[1..];
    }
  }

  /** Keeping from a sequence of `false` elements followed by `true` ones gives
      back the two parts. */
  lemma KeepSplit<T>(head: seq<T>, tail: seq<T>, p: T -> bool)
    requires forall i :: 0 <= i < |head| ==> !p(head[i])
    requires forall i :: 0 <= i < |tail| ==> p(tail[i])
    ensures Keep(head + tail, p, false) == head
    ensures Keep(head + tail, p, true) == tail
  {
    KeepAppend(head, tail, p, true);
    KeepAppend(head, tail, p, false);
    KeepAll(head, p, false);
    KeepAll(tail, p, true);
    KeepNone(head, p, true);
    KeepNone(tail, p, false);
  }

  /** The order is determined by the two listing-order subsequences and the rule
      that no index file comes before another file: any order with these
      properties is the one `UploadOrder` picks. */
  lemma StablePartitionUnique(files: seq<Listed>, order: seq<Listed>)
    requires Keep(order, IsIndex, false) == Keep(files, IsIndex, false)
    requires Keep(order, IsIndex, true) == Keep(files, IsIndex, true)
    requires forall i, j :: 0 <= i < j < |order| && IsIndex(order[i]) ==> IsIndex(order[j])
    ensures order == UploadOrder(files, true)
  {
    var k := FirstIndex(order);
    assert order == order[..k] + order[k..];
    KeepSplit(order[..k], order[k..], IsIndex);
  }

  /** Position of the first index file, or the length when there is none. */
  function FirstIndex(order: seq<Listed>): (k: nat)
    ensures k <= |order|
    ensures forall i :: 0 <= i < k ==> !IsIndex(order[i])
    ensures k < |order| ==> IsIndex(order[k])
  {
    if order == [] then 0
    else if IsIndex(order[0]) then 0
    else 1 + FirstIndex(order[1..])
  }

  /** Without `updatesLast` the files go in listing order; every completed run
      uploaded each listed file exactly once, to its remote path. */
  lemma UploadTreeEachOnce(server: Server, base: string, repo: string, baseRemote: string, files: seq<Listed>, updatesLast: bool)
    requires Completed(UploadTree(server, base, repo, baseRemote, files, updatesLast), files)
    ensures var run := UploadTree(server, base, repo, baseRemote, files, updatesLast);
      && multiset(seq(|run|, i requires 0 <= i < |run| => run[i].entry)) == multiset(files)
      && (forall i :: 0 <= i < |run| ==>
            run[i].upload.url == UploadUrl(base, repo, RemotePath(baseRemote, run[i].entry.rel)))
      && (!updatesLast ==> forall i :: 0 <= i < |run| ==> run[i].entry == files[i])
  {
    var run := UploadTree(server, base, repo, baseRemote, files, updatesLast);
    var order := UploadOrder(files, updatesLast);
    assert seq(|run|, i requires 0 <= i < |run| => run[i].entry) == order;
  }

  /** The quasi-atomic switch: when the index is held back, an index file is only
      ever sent after every other file of the listing was uploaded, in listing
      order, without an error. */
  lemma IndexSentLast(server: Server, base: string, repo: string, baseRemote: string, files: seq<Listed>, i: nat)
    requires i < |UploadTree(server, base, repo, baseRemote, files, true)|
    requires IsIndex(UploadTree(server, base, repo, baseRemote, files, true)[i].entry)
    ensures var run := UploadTree(server, base, repo, baseRemote, files, true);
      var others := Keep(files, IsIndex, false);
      && |others| <= i
      && forall k :: 0 <= k < |others| ==> run[k].entry == others[k] && run[k].upload.ok
  {
    var run := UploadTree(server, base, repo, baseRemote, files, true);
    var others := Keep(files, IsIndex, false);
    var order := UploadOrder(files, true);
    assert order == others + Keep(files, IsIndex, true);
    assert run[i].entry == order[i];
    assert forall j :: 0 <= j < |others| ==> order[j] == others[j];
    forall k | 0 <= k < |others|
      ensures run[k].entry == others[k] && run[k].upload.ok
    {
      assert order[k] == others[k];
      assert k < |run| - 1;
    }
  }
}
