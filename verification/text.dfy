/** The handful of Python `str` operations the publishing scripts rely on, for a
    one-character strip set or separator, with the lemmas the rest of the model
    needs about them. */
module Text {

  /** `n` copies of `c`. */
  function Repeat(c: char, n: nat): (r: string)
    ensures |r| == n
    ensures forall i :: 0 <= i < n ==> r[i] == c
  {
    if n == 0 then [] else [c] + Repeat(c, n - 1)
  }

  predicate StartsWith(s: string, prefix: string) {
    |prefix| <= |s| && s[..|prefix|] == prefix
  }

  predicate EndsWith(s: string, suffix: string) {
    |suffix| <= |s| && s[|s| - |suffix|..] == suffix
  }

  /** A string that starts with `long` starts with every prefix of `long`. */
  lemma StartsWithPrefix(s: string, long: string, short: string)
    requires StartsWith(s, long) && StartsWith(long, short)
    ensures StartsWith(s, short)
  {
    assert s[..|short|] == s[..|long|][..|short|];
  }

  /** Python's `s.lstrip(c)`: the longest suffix of `s` that does not start with `c`,
      where everything dropped is `c`. */
  function LStrip(s: string, c: char): (r: string)
    ensures |r| <= |s|
    ensures forall i :: 0 <= i < |s| - |r| ==> s[i] == c
    ensures r == [] || r[0] != c
    decreases |s|
  {
    if |s| > 0 && s[0] == c then LStrip(s[1..], c) else s
  }

  /** Python's `s.rstrip(c)`: the longest prefix of `s` that does not end with `c`,
      where everything dropped is `c`. */
  function RStrip(s: string, c: char): (r: string)
    ensures |r| <= |s|
    ensures forall i :: |r| <= i < |s| ==> s[i] == c
    ensures r == [] || r[|r| - 1] != c
    decreases |s|
  {
    if |s| > 0 && s[|s| - 1] == c then RStrip(s[..|s| - 1], c) else s
  }

  /** Python's `s.strip(c)`: neither end of the result is `c`. */
  function Strip(s: string, c: char): (r: string)
    ensures |r| <= |s|
    ensures r == [] || (r[0] != c && r[|r| - 1] != c)
  {
    var l := LStrip(s, c);
    var r := RStrip(l, c);
    RStripPrefix(l, c);
    assert r == [] || r[0] == l[0];
    r
  }

  /** Python's `s.count(c)` for one character. */
  function Count(s: string, c: char): (n: nat)
    ensures n <= |s|
    ensures n == 0 <==> c !in s
  {
    if s == [] then 0
    else
      assert c in s <==> s[0] == c || c in s[1..];
      (if s[0] == c then 1 else 0) + Count(s[1..], c)
  }

  /** `parts` glued together with `c` between neighbours (Python's `c.join(parts)`). */
  function Join(parts: seq<string>, c: char): string
  {
    if |parts| == 0 then []
    else if |parts| == 1 then parts[0]
    else parts[0] + [c] + Join(parts[1..], c)
  }

  /** Python's `s.split(c)`: one more piece than there are separators, no piece
      holds the separator, and joining the pieces gives `s` back. */
  function Split(s: string, c: char): (parts: seq<string>)
    ensures |parts| == Count(s, c) + 1
    ensures forall i :: 0 <= i < |parts| ==> c !in parts[i]
    ensures Join(parts, c) == s
    decreases |s|
  {
    if |s| == 0 then [[]]
    else
      var rest := Split(s[1..], c);
      if s[0] == c then
        SplitStepSeparator(s, c, rest);
        [[]] + rest
      else
        SplitStepOther(s, c, rest);
        [[s[0]] + rest[0]] + rest[1..]
  }

  /** A separator in front opens a new, empty first piece. */
  lemma SplitStepSeparator(s: string, c: char, rest: seq<string>)
    requires |s| > 0 && s[0] == c
    requires |rest| == Count(s[1..], c) + 1
    requires forall i :: 0 <= i < |rest| ==> c !in rest[i]
    requires Join(rest, c) == s[1..]
    ensures |[[]] + rest| == Count(s, c) + 1
    ensures forall i :: 0 <= i < |[[]] + rest| ==> c !in ([[]] + rest)[i]
    ensures Join([[]] + rest, c) == s
  {
    var parts := [[]] + rest;
    assert s == [s[0]] + s[1..];
    assert parts[1..] == rest;
    forall i | 0 <= i < |parts|
      ensures c !in parts[i]
    {
      if i > 0 {
        assert parts[i] == rest[i - 1];
      }
    }
  }

  /** Any other character in front joins the first piece. */
  lemma SplitStepOther(s: string, c: char, rest: seq<string>)
    requires |s| > 0 && s[0] != c
    requires |rest| == Count(s[1..], c) + 1
    requires forall i :: 0 <= i < |rest| ==> c !in rest[i]
    requires Join(rest, c) == s[1..]
    ensures |[[s[0]] + rest[0]] + rest[1..]| == Count(s, c) + 1
    ensures forall i :: 0 <= i < |[[s[0]] + rest[0]] + rest[1..]| ==> c !in ([[s[0]] + rest[0]] + rest[1..])[i]
    ensures Join([[s[0]] + rest[0]] + rest[1..], c) == s
  {
    var parts := [[s[0]] + rest[0]] + rest[1..];
    assert s == [s[0]] + s[1..];
    JoinConsFirst(s[0], rest, c);
    forall i | 0 <= i < |parts|
      ensures c !in parts[i]
    {
      if i == 0 {
        assert parts[0] == [s[0]] + rest[0];
      } else {
        assert parts[i] == rest[i];
      }
    }
  }

  /** Putting a character in front of the first piece puts it in front of the join. */
  lemma JoinConsFirst(x: char, parts: seq<string>, c: char)
    requires |parts| > 0
    ensures Join([[x] + parts[0]] + parts[1..], c) == [x] + Join(parts, c)
  {
    var q := [[x] + parts[0]] + parts[1..];
    if |parts| > 1 {
      assert q[1..] == parts[1..];
    }
  }

  /** Python's `s.replace(pat, rep)`: occurrences of `pat` found left to right,
      without overlap, each replaced by `rep`. */
  function Replace(s: string, pat: string, rep: string): (r: string)
    requires |pat| > 0
    ensures |rep| <= |pat| ==> |r| <= |s|
    decreases |s|
  {
    if |s| < |pat| then s
    else if s[..|pat|] == pat then rep + Replace(s[|pat|..], pat, rep)
    else [s[0]] + Replace(s[1..], pat, rep)
  }

  /** `pat` occurs in `s` starting at index `i`. */
  predicate OccursAt(s: string, pat: string, i: nat) {
    i + |pat| <= |s| && s[i..i + |pat|] == pat
  }

  /** `s` with every `c` deleted and everything else kept in order. */
  function Remove(s: string, c: char): (r: string)
    ensures c !in r
    ensures multiset(r) == multiset(s)[c := 0]
  {
    if s == [] then []
    else
      assert s == [s[0]] + s[1..];
      (if s[0] == c then [] else [s[0]]) + Remove(s[1..], c)
  }

  predicate IsUpper(ch: char) { 'A' <= ch <= 'Z' }

  predicate IsLower(ch: char) { 'a' <= ch <= 'z' }

  predicate IsLetter(ch: char) { IsUpper(ch) || IsLower(ch) }

  function ToUpper(ch: char): char {
    if IsLower(ch) then (ch as int - 'a' as int + 'A' as int) as char else ch
  }

  function ToLower(ch: char): char {
    if IsUpper(ch) then (ch as int - 'A' as int + 'a' as int) as char else ch
  }

  /** Title-casing of `s` where `afterLetter` says whether the character before `s`
      was a letter: a letter is upper-cased when it opens a word and lower-cased
      inside one; anything else is kept. */
  function TitleFrom(s: string, afterLetter: bool): (r: string)
    ensures |r| == |s|
    ensures forall i :: 0 <= i < |s| ==> (IsLetter(r[i]) <==> IsLetter(s[i]))
    ensures forall i :: 0 <= i < |s| && !IsLetter(s[i]) ==> r[i] == s[i]
    ensures forall i :: 0 <= i < |s| ==> ToLower(r[i]) == ToLower(s[i])
    ensures forall i :: 0 <= i < |s| && IsLetter(s[i]) ==>
      (IsUpper(r[i]) <==> (if i == 0 then !afterLetter else !IsLetter(s[i - 1])))
  {
    if s == [] then []
    else
      var ch := s[0];
      var out := if !IsLetter(ch) then ch else if afterLetter then ToLower(ch) else ToUpper(ch);
      var rest := TitleFrom(s[1..], IsLetter(ch));
      var r := [out] + rest;
      assert forall i :: 1 <= i < |s| ==> r[i] == rest[i - 1] && s[i] == s[1..][i - 1];
      r
  }

  /** ASCII model of Python's `str.title()`. */
  function Title(s: string): string {
    TitleFrom(s, false)
  }

  // ---------------------------------------------------------------------------
  // Lemmas
  // ---------------------------------------------------------------------------

  /** `count` is the multiplicity of `c` in `s`. */
  lemma {:induction false} CountIsMultiplicity(s: string, c: char)
    ensures Count(s, c) == multiset(s)[c]
  {
    if s != [] {
      assert s == [s[0]] + s[1..];
      CountIsMultiplicity(s[1..], c);
    }
  }

  /** Leading copies of `c` make no difference to `lstrip`. */
  lemma {:induction false} LStripAbsorbs(c: char, n: nat, s: string)
    ensures LStrip(Repeat(c, n) + s, c) == LStrip(s, c)
  {
    if n > 0 {
      var t := Repeat(c, n) + s;
      assert t[0] == c && t[1..] == Repeat(c, n - 1) + s by {
        assert Repeat(c, n) == [c] + Repeat(c, n - 1);
      }
      LStripAbsorbs(c, n - 1, s);
    } else {
      assert Repeat(c, n) + s == s;
    }
  }

  /** Trailing copies of `c` make no difference to `rstrip`. */
  lemma {:induction false} RStripAbsorbs(c: char, n: nat, s: string)
    ensures RStrip(s + Repeat(c, n), c) == RStrip(s, c)
  {
    if n > 0 {
      var t := s + Repeat(c, n);
      assert Repeat(c, n)[..n - 1] == Repeat(c, n - 1);
      assert t[|t| - 1] == c;
      assert t[..|t| - 1] == s + Repeat(c, n - 1);
      assert RStrip(t, c) == RStrip(t[..|t| - 1], c);
      RStripAbsorbs(c, n - 1, s);
    } else {
      assert s + Repeat(c, n) == s;
    }
  }

  /** `lstrip` leaves a string that does not start with `c` alone. */
  lemma LStripNoop(s: string, c: char)
    requires s == [] || s[0] != c
    ensures LStrip(s, c) == s
  {
  }

  /** `rstrip` leaves a string that does not end with `c` alone. */
  lemma RStripNoop(s: string, c: char)
    requires s == [] || s[|s| - 1] != c
    ensures RStrip(s, c) == s
  {
  }

  /** What `lstrip` keeps is a suffix of the string. */
  lemma {:induction false} LStripSuffix(s: string, c: char)
    ensures LStrip(s, c) == s[|s| - |LStrip(s, c)|..]
    decreases |s|
  {
    if |s| > 0 && s[0] == c {
      LStripSuffix(s[1..], c);
      assert s[1..][|s[1..]| - |LStrip(s[1..], c)|..] == s[|s| - |LStrip(s[1..], c)|..];
    }
  }

  /** What `rstrip` keeps is a prefix of the string. */
  lemma {:induction false} RStripPrefix(s: string, c: char)
    ensures RStrip(s, c) == s[..|RStrip(s, c)|]
    decreases |s|
  {
    if |s| > 0 && s[|s| - 1] == c {
      RStripPrefix(s[..|s| - 1], c);
      assert s[..|s| - 1][..|RStrip(s[..|s| - 1], c)|] == s[..|RStrip(s[..|s| - 1], c)|];
    }
  }

  /** Appending to a string whose `lstrip` is not empty appends to the `lstrip`. */
  lemma {:induction false} LStripAppend(s: string, t: string, c: char)
    requires LStrip(s, c) != []
    ensures LStrip(s + t, c) == LStrip(s, c) + t
    decreases |s|
  {
    if s[0] == c {
      assert (s + t)[1..] == s[1..] + t;
      LStripAppend(s[1..], t, c);
    } else {
      assert (s + t)[0] == s[0];
    }
  }

  /** A string made only of `c` strips to nothing, whatever follows it. */
  lemma LStripAllSame(s: string, c: char)
    requires LStrip(s, c) == []
    ensures s == Repeat(c, |s|)
  {
    var all := Repeat(c, |s|);
    assert forall i :: 0 <= i < |s| ==> s[i] == all[i];
  }

  /** `strip` ignores any number of `c` on either side. */
  lemma StripAbsorbs(c: char, m: nat, s: string, n: nat)
    ensures Strip(Repeat(c, m) + s + Repeat(c, n), c) == Strip(s, c)
  {
    var padded := s + Repeat(c, n);
    assert Repeat(c, m) + s + Repeat(c, n) == Repeat(c, m) + padded;
    LStripAbsorbs(c, m, padded);
    StripPadded(s, c, n);
  }

  /** Trailing copies of `c` make no difference to `strip`. */
  lemma StripPadded(s: string, c: char, n: nat)
    ensures RStrip(LStrip(s + Repeat(c, n), c), c) == RStrip(LStrip(s, c), c)
  {
    if LStrip(s, c) == [] {
      LStripBlankPadded(s, c, n);
    } else {
      LStripAppend(s, Repeat(c, n), c);
      RStripAbsorbs(c, n, LStrip(s, c));
    }
  }

  /** A string that `lstrip` empties stays empty with copies of `c` after it. */
  lemma LStripBlankPadded(s: string, c: char, n: nat)
    requires LStrip(s, c) == []
    ensures LStrip(s + Repeat(c, n), c) == []
  {
    LStripAllSame(s, c);
    var all := Repeat(c, |s| + n);
    assert s + Repeat(c, n) == all;
    LStripAbsorbs(c, |s| + n, []);
    assert all + [] == all;
  }

  /** Stripping twice is stripping once. */
  lemma StripIdempotent(s: string, c: char)
    ensures Strip(Strip(s, c), c) == Strip(s, c)
  {
    var r := Strip(s, c);
    LStripNoop(r, c);
    RStripNoop(r, c);
  }

  /** Three pieces joined. */
  lemma JoinThree(a: string, b: string, d: string, c: char)
    ensures Join([a, b, d], c) == a + [c] + b + [c] + d
  {
    var xs := [a, b, d];
    assert xs[1..][1..] == [d];
    assert Join(xs[1..][1..], c) == d;
    assert xs[1..] == [b, d];
    assert Join(xs[1..], c) == b + [c] + d;
  }

  /** A string with no `c` is one piece under `split`. */
  lemma {:induction false} SplitNoSeparator(a: string, c: char)
    requires c !in a
    ensures Split(a, c) == [a]
    decreases |a|
  {
    if a != [] {
      assert c !in a[1..];
      SplitNoSeparator(a[1..], c);
    }
  }

  /** The first separator ends the first piece. */
  lemma {:induction false} SplitAtFirst(a: string, c: char, t: string)
    requires c !in a
    ensures Split(a + [c] + t, c) == [a] + Split(t, c)
    decreases |a|
  {
    var s := a + [c] + t;
    if a == [] {
      assert s == [c] + t;
      assert s[1..] == t;
    } else {
      var a' := a[1..];
      assert a == [a[0]] + a';
      assert s == [a[0]] + (a' + [c] + t);
      assert s[1..] == a' + [c] + t;
      assert c !in a';
      SplitAtFirst(a', c, t);
      var rest := Split(s[1..], c);
      assert rest == [a'] + Split(t, c);
      assert Split(s, c) == [[a[0]] + rest[0]] + rest[1..];
      assert rest[1..] == Split(t, c);
    }
  }

  /** Splitting undoes joining pieces that hold no separator. */
  lemma {:induction false} SplitJoin(parts: seq<string>, c: char)
    requires |parts| > 0
    requires forall i :: 0 <= i < |parts| ==> c !in parts[i]
    ensures Split(Join(parts, c), c) == parts
    decreases |parts|
  {
    if |parts| == 1 {
      SplitNoSeparator(parts[0], c);
    } else {
      SplitJoin(parts[1..], c);
      SplitAtFirst(parts[0], c, Join(parts[1..], c));
      assert parts == [parts[0]] + parts[1..];
    }
  }

  /** Replacing a one-character pattern by nothing is deleting that character. */
  lemma {:induction false} ReplaceCharIsRemove(s: string, c: char)
    ensures Replace(s, [c], []) == Remove(s, c)
    decreases |s|
  {
    if s != [] {
      ReplaceCharIsRemove(s[1..], c);
      if s[0] == c {
        assert s[..1] == [c];
      } else {
        assert s[..1][0] != [c][0];
      }
    }
  }

  /** Where `pat` does not occur, replacing it changes nothing. */
  lemma {:induction false} ReplaceAbsent(s: string, pat: string, rep: string)
    requires |pat| > 0
    requires forall i: nat :: !OccursAt(s, pat, i)
    ensures Replace(s, pat, rep) == s
    decreases |s|
  {
    if |s| >= |pat| {
      assert !OccursAt(s, pat, 0);
      assert s[..|pat|] != pat by {
        assert s[0..0 + |pat|] == s[..|pat|];
      }
      forall i: nat
        ensures !OccursAt(s[1..], pat, i)
      {
        OccursShift(s, pat, i);
      }
      ReplaceAbsent(s[1..], pat, rep);
      assert s == [s[0]] + s[1..];
    }
  }

  /** An occurrence in the tail is an occurrence one place further in `s`. */
  lemma OccursShift(s: string, pat: string, i: nat)
    requires |s| > 0
    ensures OccursAt(s[1..], pat, i) ==> OccursAt(s, pat, i + 1)
  {
    if OccursAt(s[1..], pat, i) {
      assert s[1..][i..i + |pat|] == s[i + 1..i + 1 + |pat|];
    }
  }

  /** The first occurrence of `pat` is replaced, and replacing goes on after it:
      everything before it is kept as it is. */
  lemma {:induction false} ReplaceFirst(a: string, pat: string, b: string, rep: string)
    requires |pat| > 0
    requires forall i: nat :: i < |a| ==> !OccursAt(a + pat + b, pat, i)
    ensures Replace(a + pat + b, pat, rep) == a + rep + Replace(b, pat, rep)
    decreases |a|
  {
    var s := a + pat + b;
    if a == [] {
      assert s == pat + b;
      assert s[..|pat|] == pat;
      assert s[|pat|..] == b;
    } else {
      var t := a[1..] + pat + b;
      assert t == s[1..];
      PastFirstChar(s, pat, |a|);
      ReplaceFirst(a[1..], pat, b, rep);
      assert Replace(s, pat, rep) == [a[0]] + Replace(t, pat, rep);
      assert a == [a[0]] + a[1..];
    }
  }

  /** With no occurrence at position 0, `Replace` keeps the first character, and
      the tail has no occurrence before position `n - 1` either. */
  lemma PastFirstChar(s: string, pat: string, n: nat)
    requires |pat| > 0 && 0 < n <= |s|
    requires forall i: nat :: i < n ==> !OccursAt(s, pat, i)
    ensures forall i: nat :: i < n - 1 ==> !OccursAt(s[1..], pat, i)
    ensures forall rep :: Replace(s, pat, rep) == [s[0]] + Replace(s[1..], pat, rep)
  {
    assert !OccursAt(s, pat, 0);
    if |s| >= |pat| {
      assert s[..|pat|] != pat by {
        assert s[0..0 + |pat|] == s[..|pat|];
      }
    }
    forall i: nat | i < n - 1
      ensures !OccursAt(s[1..], pat, i)
    {
      OccursShift(s, pat, i);
    }
  }

  /** Title-casing is idempotent. */
  lemma {:induction false} TitleFromIdempotent(s: string, b: bool)
    ensures TitleFrom(TitleFrom(s, b), b) == TitleFrom(s, b)
    decreases |s|
  {
    if s != [] {
      var t := TitleFrom(s, b);
      assert t[1..] == TitleFrom(s[1..], IsLetter(s[0]));
      assert IsLetter(t[0]) == IsLetter(s[0]);
      TitleFromIdempotent(s[1..], IsLetter(s[0]));
    }
  }

  /** Replacing by nothing only deletes: every character of the result was in `s`
      at least as often. */
  lemma {:induction false} ReplaceByNothingShrinks(s: string, pat: string)
    requires |pat| > 0
    ensures multiset(Replace(s, pat, [])) <= multiset(s)
    decreases |s|
  {
    if |s| >= |pat| {
      if s[..|pat|] == pat {
        ReplaceByNothingShrinks(s[|pat|..], pat);
        ShrinkAtMatch(s, pat);
      } else {
        ReplaceByNothingShrinks(s[1..], pat);
        ShrinkPastChar(s, pat);
      }
    }
  }

  lemma ShrinkAtMatch(s: string, pat: string)
    requires 0 < |pat| <= |s| && s[..|pat|] == pat
    requires multiset(Replace(s[|pat|..], pat, [])) <= multiset(s[|pat|..])
    ensures multiset(Replace(s, pat, [])) <= multiset(s)
  {
    var t := s[|pat|..];
    var r := Replace(t, pat, []);
    assert Replace(s, pat, []) == [] + r;
    assert [] + r == r;
    assert s == s[..|pat|] + t;
    assert multiset(s) == multiset(s[..|pat|]) + multiset(t);
    assert multiset(t) <= multiset(s);
  }

  lemma ShrinkPastChar(s: string, pat: string)
    requires 0 < |pat| <= |s| && s[..|pat|] != pat
    requires multiset(Replace(s[1..], pat, [])) <= multiset(s[1..])
    ensures multiset(Replace(s, pat, [])) <= multiset(s)
  {
    var t := s[1..];
    assert Replace(s, pat, []) == [s[0]] + Replace(t, pat, []);
    assert s == [s[0]] + t;
  }

  /** A character absent from `s` is absent after replacing by nothing. */
  lemma ReplaceByNothingKeepsOut(s: string, pat: string, d: char)
    requires |pat| > 0
    requires d !in s
    ensures d !in Replace(s, pat, [])
  {
    ReplaceByNothingShrinks(s, pat);
    assert multiset(s)[d] == 0;
  }

  /** A character absent from `s` stays absent after deleting another one. */
  lemma RemoveKeepsOut(s: string, c: char, d: char)
    requires d !in s
    ensures d !in Remove(s, c)
  {
    assert multiset(s)[d] == 0;
  }

  /** Deleting from a concatenation deletes from each part, so `Remove` keeps
      the order of what it keeps. */
  lemma {:induction false} RemoveAppend(s: string, t: string, c: char)
    ensures Remove(s + t, c) == Remove(s, c) + Remove(t, c)
    decreases |s|
  {
    if s != [] {
      assert (s + t)[0] == s[0];
      assert (s + t)[1..] == s[1..] + t;
      RemoveAppend(s[1..], t, c);
    } else {
      assert s + t == t;
    }
  }

  /** One character is deleted when it is `c` and kept otherwise. */
  lemma RemoveOne(x: char, c: char)
    ensures Remove([x], c) == if x == c then [] else [x]
  {
    assert [x][1..] == [];
  }

  /** `strip` keeps a contiguous middle of `s`: everything before it and after it
      is `c`. */
  lemma StripSlice(s: string, c: char)
    ensures var k := |s| - |LStrip(s, c)|;
      var r := Strip(s, c);
      && k + |r| <= |s|
      && r == s[k..k + |r|]
      && (forall i :: 0 <= i < k ==> s[i] == c)
      && (forall i :: k + |r| <= i < |s| ==> s[i] == c)
  {
    var l := LStrip(s, c);
    var k := |s| - |l|;
    var r := RStrip(l, c);
    LStripSuffix(s, c);
    RStripPrefix(l, c);
    assert r == s[k..k + |r|];
    forall i | k + |r| <= i < |s|
      ensures s[i] == c
    {
      assert l[i - k] == c;
    }
  }

  /** Each of `lines` followed by `c`, all concatenated (a text file's contents). */
  function Terminated(lines: seq<string>, c: char): string {
    if lines == [] then [] else lines[0] + [c] + Terminated(lines[1..], c)
  }

  /** Splitting terminated lines gives the lines back, and an empty last piece. */
  lemma {:induction false} SplitTerminated(lines: seq<string>, c: char)
    requires forall i :: 0 <= i < |lines| ==> c !in lines[i]
    ensures Split(Terminated(lines, c), c) == lines + [[]]
    decreases |lines|
  {
    if lines == [] {
      assert Split([], c) == [[]];
    } else {
      SplitTerminated(lines[1..], c);
      SplitAtFirst(lines[0], c, Terminated(lines[1..], c));
      assert lines == [lines[0]] + lines[1..];
    }
  }
}
