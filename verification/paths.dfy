/** `pathlib.PurePosixPath(*parts).as_posix()`, the way the scripts build the
    remote directory names (`Path(os, version).as_posix()`). A path is parsed into
    an anchor flag and its segments; empty and "." segments vanish, and a part
    that starts with '/' discards everything before it. */
module Paths {
  import opened Text

  /** A segment that survives pathlib's normalisation. */
  predicate Plain(seg: string) {
    seg != [] && seg != "." && '/' !in seg
  }

  /** The pieces of `parts` that pathlib keeps, in order. */
  function Clean(parts: seq<string>): (segs: seq<string>)
    ensures |segs| <= |parts|
    ensures (forall i :: 0 <= i < |parts| ==> '/' !in parts[i]) ==>
      forall i :: 0 <= i < |segs| ==> Plain(segs[i])
  {
    if parts == [] then []
    else
      var rest := Clean(parts[1..]);
      assert (forall i :: 0 <= i < |parts| ==> '/' !in parts[i]) ==>
        (forall i :: 0 <= i < |parts[1..]| ==> '/' !in parts[1..][i]) by {
        assert forall i :: 0 <= i < |parts[1..]| ==> parts[1..][i] == parts[i + 1];
      }
      (if parts[0] == [] || parts[0] == "." then [] else [parts[0]]) + rest
  }

  /** The segments one path argument contributes. */
  function Segments(p: string): (segs: seq<string>)
    ensures forall i :: 0 <= i < |segs| ==> Plain(segs[i])
  {
    Clean(Split(p, '/'))
  }

  /** A parsed path: whether it is anchored at the root, and its segments. */
  datatype PurePath = PurePath(absolute: bool, segs: seq<string>) {
    predicate Normal() {
      forall i :: 0 <= i < |segs| ==> Plain(segs[i])
    }
  }

  const Empty := PurePath(false, [])

  /** Adding one argument to a path under construction. */
  function Step(acc: PurePath, part: string): (r: PurePath)
    requires acc.Normal()
    ensures r.Normal()
  {
    if StartsWith(part, "/") then PurePath(true, Segments(part))
    else PurePath(acc.absolute, acc.segs + Segments(part))
  }

  function Fold(acc: PurePath, parts: seq<string>): (r: PurePath)
    requires acc.Normal()
    ensures r.Normal()
    decreases |parts|
  {
    if parts == [] then acc else Fold(Step(acc, parts[0]), parts[1..])
  }

  /** `PurePosixPath(*parts)`. */
  function Parse(parts: seq<string>): PurePath {
    Fold(Empty, parts)
  }

  /** `.as_posix()` of a parsed path. */
  function AsPosix(p: PurePath): string {
    if p.absolute then "/" + Join(p.segs, '/')
    else if p.segs == [] then "."
    else Join(p.segs, '/')
  }

  /** `PurePosixPath(*parts).as_posix()`. */
  function JoinPath(parts: seq<string>): (r: string)
    ensures r != []
  {
    var p := Parse(parts);
    assert p.segs != [] ==> |Join(p.segs, '/')| > 0 by {
      if p.segs != [] {
        JoinFirst(p.segs);
      }
    }
    AsPosix(p)
  }

  // ---------------------------------------------------------------------------
  // Lemmas
  // ---------------------------------------------------------------------------

  /** A join of plain segments starts with its first segment. */
  lemma JoinFirst(segs: seq<string>)
    requires |segs| > 0
    ensures |Join(segs, '/')| >= |segs[0]|
    ensures Join(segs, '/')[..|segs[0]|] == segs[0]
  {
  }

  /** Plain segments are kept as they are. */
  lemma {:induction false} CleanPlain(segs: seq<string>)
    requires forall i :: 0 <= i < |segs| ==> Plain(segs[i])
    ensures Clean(segs) == segs
    decreases |segs|
  {
    if segs != [] {
      CleanPlain(segs[1..]);
      assert segs == [segs[0]] + segs[1..];
    }
  }

  /** A plain segment is its own single segment. */
  lemma SegmentsOfPlain(seg: string)
    requires Plain(seg)
    ensures Segments(seg) == [seg]
  {
    SplitNoSeparator(seg, '/');
  }

  /** An empty argument contributes nothing (`Path("linux", "")` is `linux`). */
  lemma SegmentsOfEmpty()
    ensures Segments("") == []
  {
    assert Split("", '/') == [[]];
  }

  /** Folding more arguments continues from where the first ones stopped. */
  lemma {:induction false} FoldAppend(acc: PurePath, parts: seq<string>, more: seq<string>)
    requires acc.Normal()
    ensures Fold(acc, parts + more) == Fold(Fold(acc, parts), more)
    decreases |parts|
  {
    if parts != [] {
      assert (parts + more)[1..] == parts[1..] + more;
      FoldAppend(Step(acc, parts[0]), parts[1..], more);
    } else {
      assert parts + more == more;
    }
  }

  /** The rendered form of a normal path parses back to the same path. */
  lemma ParseAsPosix(p: PurePath)
    requires p.Normal()
    ensures Step(Empty, AsPosix(p)) == p
  {
    if p.absolute {
      ParseAbsolute(p.segs);
    } else if p.segs == [] {
      SplitNoSeparator(".", '/');
    } else {
      ParseRelative(p.segs);
    }
  }

  lemma ParseAbsolute(segs: seq<string>)
    requires forall i :: 0 <= i < |segs| ==> Plain(segs[i])
    ensures Step(Empty, "/" + Join(segs, '/')) == PurePath(true, segs)
  {
    var s := "/" + Join(segs, '/');
    assert StartsWith(s, "/");
    SegmentsAnchored(segs);
  }

  /** The segments of "/" followed by a join of plain segments are those segments. */
  lemma SegmentsAnchored(segs: seq<string>)
    requires forall i :: 0 <= i < |segs| ==> Plain(segs[i])
    ensures Segments("/" + Join(segs, '/')) == segs
  {
    var j := Join(segs, '/');
    SplitAnchored(j);
    CleanDropsEmpty(Split(j, '/'));
    if segs == [] {
      SegmentsOfEmpty();
    } else {
      SplitJoin(segs, '/');
      CleanPlain(segs);
    }
  }

  /** A leading '/' splits off an empty first piece. */
  lemma SplitAnchored(j: string)
    ensures Split("/" + j, '/') == [[]] + Split(j, '/')
  {
    assert "/" + j == [] + ['/'] + j;
    SplitAtFirst([], '/', j);
  }

  /** A leading empty piece is dropped. */
  lemma CleanDropsEmpty(parts: seq<string>)
    ensures Clean([[]] + parts) == Clean(parts)
  {
    assert ([[]] + parts)[1..] == parts;
  }

  lemma ParseRelative(segs: seq<string>)
    requires segs != []
    requires forall i :: 0 <= i < |segs| ==> Plain(segs[i])
    ensures Step(Empty, Join(segs, '/')) == PurePath(false, segs)
  {
    JoinNotAnchored(segs);
    SegmentsOfJoin(segs);
    assert Empty.segs + segs == segs;
  }

  /** A join of plain segments does not start with '/'. */
  lemma JoinNotAnchored(segs: seq<string>)
    requires segs != []
    requires forall i :: 0 <= i < |segs| ==> Plain(segs[i])
    ensures !StartsWith(Join(segs, '/'), "/")
  {
    var s := Join(segs, '/');
    JoinFirst(segs);
    assert s[0] == segs[0][0];
    assert segs[0][0] in segs[0];
  }

  /** The segments of a join of plain segments are those segments. */
  lemma SegmentsOfJoin(segs: seq<string>)
    requires segs != []
    requires forall i :: 0 <= i < |segs| ==> Plain(segs[i])
    ensures Segments(Join(segs, '/')) == segs
  {
    SplitJoin(segs, '/');
    CleanPlain(segs);
  }

  /** Two plain segments join with one '/' (`Path("linux", "5.1").as_posix()`). */
  lemma JoinTwoPlain(a: string, b: string)
    requires Plain(a) && Plain(b)
    ensures JoinPath([a, b]) == a + "/" + b
  {
    JoinPlains([a, b]);
    assert [a, b][1..] == [b];
  }

  /** Three plain pieces are joined by single slashes. */
  lemma JoinThreePlain(a: string, b: string, c: string)
    requires Plain(a) && Plain(b) && Plain(c)
    ensures JoinPath([a, b, c]) == a + "/" + b + "/" + c
  {
    JoinPlains([a, b, c]);
    JoinThree(a, b, c, '/');
  }

  /** A joined pair joined with a third piece is the three pieces joined. */
  lemma JoinNested(a: string, b: string, c: string)
    ensures JoinPath([JoinPath([a, b]), c]) == JoinPath([a, b, c])
  {
    JoinPathReparse([a, b], [c]);
    assert [a, b] + [c] == [a, b, c];
  }

  /** Re-parsing a rendered path and adding arguments is adding them to the
      original arguments (`Path(Path(os, app).as_posix(), "packages")`). */
  lemma JoinPathReparse(parts: seq<string>, more: seq<string>)
    ensures JoinPath([JoinPath(parts)] + more) == JoinPath(parts + more)
  {
    var p := Parse(parts);
    ParseAsPosix(p);
    FoldAppend(Empty, parts, more);
    assert ([JoinPath(parts)] + more)[1..] == more;
  }

  /** Plain arguments are appended segment by segment. */
  lemma {:induction false} FoldPlain(acc: PurePath, segs: seq<string>)
    requires acc.Normal()
    requires forall i :: 0 <= i < |segs| ==> Plain(segs[i])
    ensures Fold(acc, segs) == PurePath(acc.absolute, acc.segs + segs)
    decreases |segs|
  {
    if segs == [] {
      assert acc.segs + segs == acc.segs;
    } else {
      var x := segs[0];
      SegmentsOfPlain(x);
      assert !StartsWith(x, "/") by { assert x[0] in x; }
      var next := PurePath(acc.absolute, acc.segs + [x]);
      assert Step(acc, x) == next;
      FoldPlain(next, segs[1..]);
      assert segs == [x] + segs[1..];
      assert next.segs + segs[1..] == acc.segs + segs;
    }
  }

  /** Plain arguments render as their '/'-join. */
  lemma JoinPlains(segs: seq<string>)
    requires segs != []
    requires forall i :: 0 <= i < |segs| ==> Plain(segs[i])
    ensures JoinPath(segs) == Join(segs, '/')
  {
    FoldPlain(Empty, segs);
    assert Empty.segs + segs == segs;
  }

  /** An argument that is empty or "." adds nothing (`Path("linux", "")`). */
  lemma JoinPlainDropped(a: string, b: string)
    requires Plain(a)
    requires b == "" || b == "."
    ensures JoinPath([a, b]) == a
  {
    SegmentsOfPlain(a);
    if b == "" {
      SegmentsOfEmpty();
    } else {
      SplitNoSeparator(b, '/');
    }
    assert Segments(b) == [];
    assert !StartsWith(a, "/") by { assert a[0] in a; }
    assert !StartsWith(b, "/");
    var s1 := Step(Empty, a);
    assert s1 == PurePath(false, [a]);
    var s2 := Step(s1, b);
    assert s2 == PurePath(false, [a]);
    assert [a, b][1..] == [b] && [b][1..] == [];
    assert Parse([a, b]) == Fold(s1, [b]) == Fold(s2, []);
  }

  /** Once anchored, a path stays anchored. */
  lemma {:induction false} FoldKeepsAnchor(acc: PurePath, parts: seq<string>)
    requires acc.Normal() && acc.absolute
    ensures Fold(acc, parts).absolute
    decreases |parts|
  {
    if parts != [] {
      FoldKeepsAnchor(Step(acc, parts[0]), parts[1..]);
    }
  }

  /** Re-parsing an anchored rendering gives the same path. */
  lemma StepAnchored(acc: PurePath, p: PurePath)
    requires acc.Normal() && p.Normal() && p.absolute
    ensures Step(acc, AsPosix(p)) == p
  {
    ParseAbsolute(p.segs);
  }

  /** Two arguments are two steps. */
  lemma ParseTwo(x: string, y: string)
    ensures Parse([x, y]) == Step(Step(Empty, x), y)
  {
    var s1 := Step(Empty, x);
    assert [x, y][1..] == [y] && [y][1..] == [];
    assert Parse([x, y]) == Fold(s1, [y]) == Fold(Step(s1, y), []);
  }

  /** Three arguments are three steps. */
  lemma ParseThree(x: string, y: string, z: string)
    ensures Parse([x, y, z]) == Step(Step(Step(Empty, x), y), z)
  {
    var s1 := Step(Empty, x);
    var s2 := Step(s1, y);
    assert [x, y, z][1..] == [y, z] && [y, z][1..] == [z] && [z][1..] == [];
    assert Parse([x, y, z]) == Fold(s1, [y, z]) == Fold(s2, [z]) == Fold(Step(s2, z), []);
  }

  /** An argument that does not start with '/' extends the path. */
  lemma StepRelative(acc: PurePath, part: string)
    requires acc.Normal()
    requires !StartsWith(part, "/")
    ensures Step(acc, part) == PurePath(acc.absolute, acc.segs + Segments(part))
  {
  }

  /** A first part that names no segment, or one followed by an anchored part,
      does not change the joined path. */
  lemma ParseDropsFirst(w: string, x: string, f: string)
    requires w == "" || w == "." || StartsWith(x, "/")
    ensures JoinPath([w, x, f]) == JoinPath([x, f])
  {
    if w == "" || w == "." {
      if w == "" {
        SegmentsOfEmpty();
      } else {
        SplitNoSeparator(w, '/');
      }
      assert Step(Empty, w) == Empty;
    }
    ParseThree(w, x, f);
    ParseTwo(x, f);
  }
}
