/** Path strings and their components, as std::filesystem::path iterates over them. */
module PathText {
  import opened FileTree

  /** The text between slashes, empty pieces included. */
  function Segments(s: string): (r: seq<string>)
    ensures |r| > 0
    ensures forall i :: 0 <= i < |r| ==> '/' !in r[i]
  {
    if s == "" then [""]
    else
      var tail := Segments(s[1..]);
      if s[0] == '/' then [""] + tail else [[s[0]] + tail[0]] + tail[1..]
  }

  function NonEmpty(segments: seq<string>): (r: seq<string>)
    ensures forall x :: x in r ==> x in segments && x != ""
  {
    if segments == [] then []
    else (if segments[0] == "" then [] else [segments[0]]) + NonEmpty(segments[1..])
  }

  /** path iteration: "/" for a leading slash, the names, and "" for a slash after the last name. */
  function PathComponents(s: string): seq<string> {
    var names := NonEmpty(Segments(s));
    (if s != "" && s[0] == '/' then ["/"] else [])
    + names
    + (if names != [] && s != "" && s[|s| - 1] == '/' then [""] else [])
  }

  /** The components walk_split keeps: the root is dropped and a trailing slash becomes ".". */
  function SplitParts(s: string): seq<Name> {
    var names := NonEmpty(Segments(s));
    names + (if names != [] && s != "" && s[|s| - 1] == '/' then ["."] else [])
  }

  function RelativePath(s: string): string {
    if s != "" && s[0] == '/' then RelativePath(s[1..]) else s
  }

  predicate IsAbsolute(s: string) {
    s != "" && s[0] == '/'
  }

  method WalkSplit(path: string) returns (parts: seq<Name>)
    ensures parts == SplitParts(path)
    ensures forall x :: x in parts ==> x != "" && '/' !in x
  {
    var components := PathComponents(path);
    ghost var names := NonEmpty(Segments(path));
    parts := [];
    for i := 0 to |components|
      invariant parts == WithoutRoot(components[..i])
    {
      assert components[..i + 1] == components[..i] + [components[i]];
      WithoutRootAppend(components[..i], [components[i]]);
      if components[i] != "/" {
        parts := parts + [if components[i] == "" then "." else components[i]];
      }
    }
    assert components[..|components|] == components;
    WithoutRootOfComponents(path);
  }

  ghost function WithoutRoot(components: seq<string>): seq<string> {
    if components == [] then []
    else
      (if components[0] == "/" then []
       else if components[0] == "" then ["."]
       else [components[0]])
      + WithoutRoot(components[1..])
  }

  lemma {:induction false} WithoutRootAppend(a: seq<string>, b: seq<string>)
    ensures WithoutRoot(a + b) == WithoutRoot(a) + WithoutRoot(b)
  {
    if a == [] {
      assert a + b == b;
    } else {
      assert (a + b)[1..] == a[1..] + b;
      WithoutRootAppend(a[1..], b);
    }
  }

  lemma {:induction false} WithoutRootOfNames(names: seq<string>)
    requires forall x :: x in names ==> x != "" && '/' !in x
    ensures WithoutRoot(names) == names
  {
    if names != [] {
      assert names[0] in names;
      assert names[0] != "/";
      assert forall x :: x in names[1..] ==> x in names;
      WithoutRootOfNames(names[1..]);
    }
  }

  lemma {:induction false} WithoutRootOfThree(lead: seq<string>, names: seq<string>, trail: seq<string>)
    requires lead == [] || lead == ["/"]
    requires trail == [] || trail == [""]
    requires WithoutRoot(names) == names
    ensures WithoutRoot(lead + names + trail) == names + (if trail == [] then [] else ["."])
  {
    assert WithoutRoot(["/"]) == [] && WithoutRoot([""]) == ["."] && WithoutRoot([]) == [];
    hide WithoutRoot;
    WithoutRootAppend(lead + names, trail);
    WithoutRootAppend(lead, names);
  }

  lemma {:induction false} WithoutRootOfComponents(s: string)
    ensures WithoutRoot(PathComponents(s)) == SplitParts(s)
  {
    hide Segments, NonEmpty, WithoutRoot;
    var names := NonEmpty(Segments(s));
    var lead := if s != "" && s[0] == '/' then ["/"] else [];
    var trail := if names != [] && s != "" && s[|s| - 1] == '/' then [""] else [];
    NamesOfText(s);
    WithoutRootOfNames(names);
    WithoutRootOfThree(lead, names, trail);
  }

  lemma {:induction false} NamesOfText(s: string)
    ensures forall x :: x in NonEmpty(Segments(s)) ==> x != "" && '/' !in x
  {
  }

  /** The text of a relative path naming these components. */
  function JoinNames(names: seq<Name>): string {
    if names == [] then ""
    else if |names| == 1 then names[0]
    else names[0] + "/" + JoinNames(names[1..])
  }

  lemma {:induction false} SegmentsOfName(n: string, rest: string)
    requires '/' !in n
    ensures Segments(n) == [n]
    ensures Segments(n + "/" + rest) == [n] + Segments(rest)
  {
    if n == "" {
      assert n + "/" + rest == "/" + rest;
      assert ("/" + rest)[1..] == rest;
    } else {
      assert forall c :: c in n[1..] ==> c in n;
      SegmentsOfName(n[1..], rest);
      assert (n + "/" + rest)[1..] == n[1..] + "/" + rest;
      assert n == [n[0]] + n[1..];
    }
  }

  lemma {:induction false} SegmentsOfJoin(names: seq<Name>)
    requires names != []
    requires forall i :: 0 <= i < |names| ==> names[i] != "" && '/' !in names[i]
    ensures Segments(JoinNames(names)) == names
    ensures JoinNames(names) != "" && JoinNames(names)[|JoinNames(names)| - 1] != '/'
  {
    if |names| == 1 {
      SegmentsOfName(names[0], "");
      assert names[0][|names[0]| - 1] in names[0];
      assert names == [names[0]];
    } else {
      SegmentsOfJoin(names[1..]);
      SegmentsOfName(names[0], JoinNames(names[1..]));
      assert names == [names[0]] + names[1..];
    }
  }

  lemma {:induction false} NonEmptyKeepsNames(names: seq<Name>)
    requires forall i :: 0 <= i < |names| ==> names[i] != ""
    ensures NonEmpty(names) == names
  {
    if names != [] {
      NonEmptyKeepsNames(names[1..]);
    }
  }

  lemma {:induction false} SplitOfSome(names: seq<Name>)
    requires names != []
    requires forall i :: 0 <= i < |names| ==> names[i] != "" && '/' !in names[i]
    ensures SplitParts(JoinNames(names)) == names
  {
    hide JoinNames, Segments, NonEmpty, SplitParts;
    SegmentsOfJoin(names);
    NonEmptyKeepsNames(names);
    SplitWithoutSlash(JoinNames(names));
  }

  /** Splitting a joined path gives its components back, so every list of names has a path text. */
  lemma {:induction false} SplitOfJoin(names: seq<Name>)
    requires forall i :: 0 <= i < |names| ==> names[i] != "" && '/' !in names[i]
    ensures SplitParts(JoinNames(names)) == names
  {
    hide JoinNames, SplitParts;
    if names == [] {
      NothingSplits();
    } else {
      SplitOfSome(names);
    }
  }

  lemma {:induction false} SplitWithoutSlash(s: string)
    requires s != "" && s[|s| - 1] != '/'
    ensures SplitParts(s) == NonEmpty(Segments(s))
  {
  }

  lemma {:induction false} NothingSplits()
    ensures JoinNames([]) == "" && SplitParts("") == []
  {
  }

  // ---- the components of a path, by their places in it ----

  /** Places i to j of s hold a name: a stretch without a slash, not empty, that goes on at neither end. */
  ghost predicate IsStretch(s: string, i: int, j: int) {
    && 0 <= i < j <= |s|
    && (forall k :: i <= k < j ==> s[k] != '/')
    && (i == 0 || s[i - 1] == '/')
    && (j == |s| || s[j] == '/')
  }

  datatype Place = Place(from: int, to: int)

  /** All the stretches of s, from left to right. */
  ghost predicate AreStretches(s: string, ps: seq<Place>) {
    && (forall k :: 0 <= k < |ps| ==> IsStretch(s, ps[k].from, ps[k].to))
    && (forall k, l :: 0 <= k < l < |ps| ==> ps[k].to < ps[l].from)
    && (forall i, j :: IsStretch(s, i, j) ==> Place(i, j) in ps)
  }

  ghost predicate TextsAt(s: string, ps: seq<Place>, names: seq<string>) {
    |names| == |ps| && forall k :: 0 <= k < |ps| ==> 0 <= ps[k].from <= ps[k].to <= |s| && names[k] == s[ps[k].from..ps[k].to]
  }

  function FirstSlash(s: string): (n: nat)
    ensures n <= |s| && (forall k :: 0 <= k < n ==> s[k] != '/') && (n < |s| ==> s[n] == '/')
  {
    if s == "" || s[0] == '/' then 0 else FirstSlash(s[1..]) + 1
  }

  function Moved(ps: seq<Place>, d: nat): (r: seq<Place>)
    ensures |r| == |ps|
  {
    seq(|ps|, k requires 0 <= k < |ps| => Place(ps[k].from + d, ps[k].to + d))
  }

  lemma {:induction false} StretchesBehind(s: string, n: nat, i: int, j: int)
    requires n < |s| && s[n] == '/' && n < i
    ensures IsStretch(s, i, j) <==> IsStretch(s[n + 1..], i - n - 1, j - n - 1)
  {
    var rest := s[n + 1..];
    assert forall k :: 0 <= k < |rest| ==> rest[k] == s[n + 1 + k];
    if IsStretch(rest, i - n - 1, j - n - 1) {
      forall k | i <= k < j ensures s[k] != '/' {
        assert rest[k - n - 1] == s[k];
      }
    }
  }

  lemma {:induction false} FirstStretch(s: string, n: nat, i: int, j: int)
    requires n == FirstSlash(s) && i <= n
    ensures IsStretch(s, i, j) <==> i == 0 && j == n && n > 0
  {
  }

  lemma {:induction false} SegmentsFrom(s: string)
    ensures var n := FirstSlash(s);
            Segments(s) == if n == |s| then [s] else [s[..n]] + Segments(s[n + 1..])
  {
    var n := FirstSlash(s);
    if n == |s| {
      SegmentsOfName(s, "");
    } else {
      SegmentsOfName(s[..n], s[n + 1..]);
      assert s[..n] + "/" + s[n + 1..] == s;
    }
  }

  lemma {:induction false} NonEmptyHead(x: string, more: seq<string>)
    ensures NonEmpty([x] + more) == (if x == "" then [] else [x]) + NonEmpty(more)
    ensures NonEmpty([]) == []
  {
    assert ([x] + more)[1..] == more;
  }

  lemma {:induction false} PlacesOf(s: string) returns (ps: seq<Place>)
    ensures AreStretches(s, ps) && TextsAt(s, ps, NonEmpty(Segments(s)))
    decreases |s|
  {
    hide Segments, NonEmpty, FirstSlash, AreStretches, TextsAt;
    var n := FirstSlash(s);
    SegmentsFrom(s);
    if n == |s| {
      ps := if n == 0 then [] else [Place(0, n)];
      NonEmptyHead(s, []);
      assert [s] + [] == [s];
      WholeStretch(s, ps);
    } else {
      var behind := PlacesOf(s[n + 1..]);
      ps := Joined(n, behind);
      NonEmptyHead(s[..n], Segments(s[n + 1..]));
      PlacesJoin(s, n, behind);
      TextsJoin(s, n, behind, NonEmpty(Segments(s[n + 1..])));
    }
  }

  lemma {:induction false} WholeStretch(s: string, ps: seq<Place>)
    requires FirstSlash(s) == |s| && ps == if s == "" then [] else [Place(0, |s|)]
    ensures AreStretches(s, ps) && TextsAt(s, ps, if s == "" then [] else [s])
  {
    forall i, j ensures IsStretch(s, i, j) ==> Place(i, j) in ps {
      if IsStretch(s, i, j) {
        FirstStretch(s, |s|, i, j);
        assert ps[0] == Place(i, j);
      }
    }
  }

  /** The stretches of s: the first one, if it begins with one, and those behind the first slash. */
  function Joined(n: nat, behind: seq<Place>): (ps: seq<Place>)
    ensures var f := if n == 0 then 0 else 1;
            && |ps| == f + |behind|
            && (n > 0 ==> ps[0] == Place(0, n))
            && forall k :: f <= k < |ps| ==> ps[k] == Place(behind[k - f].from + n + 1, behind[k - f].to + n + 1)
  {
    (if n == 0 then [] else [Place(0, n)]) + Moved(behind, n + 1)
  }

  lemma {:induction false} PlacesJoin(s: string, n: nat, behind: seq<Place>)
    requires n == FirstSlash(s) < |s| && AreStretches(s[n + 1..], behind)
    ensures AreStretches(s, Joined(n, behind))
  {
    hide IsStretch, FirstSlash, Joined;
    var ps, f := Joined(n, behind), if n == 0 then 0 else 1;
    forall k | 0 <= k < |ps| ensures IsStretch(s, ps[k].from, ps[k].to) && (k >= f ==> n < ps[k].from) {
      if k < f {
        FirstStretch(s, n, 0, n);
      } else {
        PlaceMoved(s, n, behind[k - f]);
      }
    }
    forall i, j | IsStretch(s, i, j) ensures Place(i, j) in ps {
      PlaceFound(s, n, behind, i, j);
    }
  }

  lemma {:induction false} PlaceMoved(s: string, n: nat, p: Place)
    requires n < |s| && s[n] == '/' && IsStretch(s[n + 1..], p.from, p.to)
    ensures IsStretch(s, p.from + n + 1, p.to + n + 1) && n < p.from + n + 1
  {
    hide IsStretch;
    StretchFrom(s[n + 1..], p.from, p.to);
    StretchesBehind(s, n, p.from + n + 1, p.to + n + 1);
  }

  lemma {:induction false} PlaceFound(s: string, n: nat, behind: seq<Place>, i: int, j: int)
    requires n == FirstSlash(s) < |s| && AreStretches(s[n + 1..], behind) && IsStretch(s, i, j)
    ensures Place(i, j) in Joined(n, behind)
  {
    hide IsStretch, Joined;
    var f := if n == 0 then 0 else 1;
    if i <= n {
      FirstStretch(s, n, i, j);
      assert Joined(n, behind)[0] == Place(i, j);
    } else {
      StretchesBehind(s, n, i, j);
      var k :| 0 <= k < |behind| && behind[k] == Place(i - n - 1, j - n - 1);
      assert Joined(n, behind)[f + k] == Place(i, j);
    }
  }

  lemma {:induction false} StretchFrom(s: string, i: int, j: int)
    requires IsStretch(s, i, j)
    ensures 0 <= i < j <= |s|
  {
  }

  lemma {:induction false} TextsJoin(s: string, n: nat, behind: seq<Place>, names: seq<string>)
    requires n == FirstSlash(s) < |s| && TextsAt(s[n + 1..], behind, names)
    ensures TextsAt(s, Joined(n, behind), (if s[..n] == "" then [] else [s[..n]]) + names)
  {
    var rest := s[n + 1..];
    forall k | 0 <= k < |behind|
      ensures rest[behind[k].from..behind[k].to] == s[behind[k].from + n + 1..behind[k].to + n + 1] {
    }
  }

  /**
   The components of a path are its stretches between slashes, all of them, in order, and "." for a slash
   behind the last of them.
   */
  lemma {:induction false} PartsAreStretches(s: string) returns (ps: seq<Place>, names: seq<string>)
    ensures AreStretches(s, ps) && TextsAt(s, ps, names)
    ensures SplitParts(s) == names + if ps != [] && s != "" && s[|s| - 1] == '/' then ["."] else []
  {
    hide Segments, NonEmpty, AreStretches;
    ps := PlacesOf(s);
    names := NonEmpty(Segments(s));
  }

  lemma {:induction false} SegmentsAppend(a: string, b: string)
    ensures Segments(a + "/" + b) == Segments(a) + Segments(b)
    decreases |a|
  {
    if a == "" {
      assert a + "/" + b == "/" + b && ("/" + b)[1..] == b;
    } else {
      assert (a + "/" + b)[1..] == a[1..] + "/" + b;
      SegmentsAppend(a[1..], b);
    }
  }

  lemma {:induction false} NonEmptyAppend(a: seq<string>, b: seq<string>)
    ensures NonEmpty(a + b) == NonEmpty(a) + NonEmpty(b)
  {
    if a == [] {
      assert a + b == b;
    } else {
      assert (a + b)[1..] == a[1..] + b;
      NonEmptyAppend(a[1..], b);
    }
  }

  lemma {:induction false} DoubledNames(a: string, b: string)
    ensures NonEmpty(Segments(a + "//" + b)) == NonEmpty(Segments(a + "/" + b))
    ensures NonEmpty(Segments("/" + b)) == NonEmpty(Segments(b))
  {
    NonEmptyHead("", Segments(b));
    assert Segments("") == [""];
    hide Segments, NonEmpty;
    assert a + "//" + b == a + "/" + ("/" + b) && "/" + b == "" + "/" + b;
    SegmentsAppend(a, b);
    SegmentsAppend(a, "/" + b);
    SegmentsAppend("", b);
    NonEmptyAppend(Segments(a), Segments(b));
    NonEmptyAppend(Segments(a), Segments("/" + b));
  }

  lemma {:induction false} LastOf(a: string, b: string)
    requires b != ""
    ensures (a + b)[|a + b| - 1] == b[|b| - 1]
  {
  }

  /** Further slashes add no component: neither at the beginning nor between two parts. */
  lemma {:induction false} SlashesCollapse(a: string, b: string)
    ensures SplitParts(a + "//" + b) == SplitParts(a + "/" + b)
    ensures SplitParts("/" + b) == SplitParts(b)
  {
    NonEmptyHead("", []);
    assert Segments("") == [""] && [""] + [] == [""];
    hide Segments, NonEmpty;
    DoubledNames(a, b);
    if b == "" {
      assert a + "/" + b == a + "/" && a + "//" + b == a + "//" && "/" + b == "/";
      LastOf(a, "/");
      LastOf(a, "//");
    } else {
      LastOf(a + "/", b);
      LastOf(a + "//", b);
      LastOf("/", b);
    }
  }
}
