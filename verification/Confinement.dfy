/**
 What the scoped lookup guarantees: it never leaves the root's subtree, and a canonical path leads
 back to the entry it names. How it compares with the kernel's own lookup is in KernelWalk.
 */
module Confinement {
  import opened Results
  import opened FileTree
  import opened PathText
  import opened Resolution
  import opened Rootfs

  function ScopedHandle(s: Scope, path: string, noFollow: bool): Result<Path, Errno> {
    Handle(Lookup(s, s.root, SplitParts(path), noFollow, MAX_SYMLINKS))
  }

  /** No search error lies between the root and p. */
  ghost predicate Accessible(fs: Fs, root: Path, p: Path) {
    Within(root, p) && forall i :: |root| <= i < |p| ==> (p[..i], p[i]) !in fs.lookupFault
  }

  /** Where a lookup may stand, and what its outcome may name. */
  ghost predicate Reached(s: Scope, p: Path) {
    p in s.fs.nodes && Accessible(s.fs, s.root, p)
  }

  ghost predicate Confined(s: Scope, o: Outcome) {
    match o
    case Found(at, _) => Reached(s, at)
    case Absent(at, todo) => Reached(s, at) && IsDir(s.fs, at) && todo != [] && OpenAt(s.fs, at, todo[0]) == Failure(ENOENT)
    case _ => true
  }

  lemma {:induction false} ParentReached(s: Scope, cur: Path)
    requires ValidScope(s) && Reached(s, cur) && cur != s.root
    ensures Reached(s, Parent(cur)) && IsDir(s.fs, Parent(cur))
  {
    assert Seated(s.fs, cur);
    var up := Parent(cur);
    assert forall i :: 0 <= i < |up| ==> up[..i] == cur[..i] && up[i] == cur[i];
  }

  lemma {:induction false} ChildReached(s: Scope, cur: Path, name: Name)
    requires ValidScope(s) && Reached(s, cur) && name != ".."
    requires OpenAt(s.fs, cur, name).Success?
    ensures Reached(s, OpenAt(s.fs, cur, name).value)
  {
    OpenAtFinds(s.fs, cur, name);
    var h := OpenAt(s.fs, cur, name).value;
    if name != "." {
      assert h[..|cur|] == cur;
      forall i | |s.root| <= i < |h| ensures (h[..i], h[i]) !in s.fs.lookupFault {
        if i < |cur| {
          assert h[..i] == cur[..i] && h[i] == cur[i];
        }
      }
    }
  }

  /** Whatever "..", absolute and relative links the path holds, the walk stays below the root. */
  lemma {:induction false} LookupIsConfined(s: Scope, cur: Path, comps: seq<Name>, noFollow: bool, budget: nat)
    requires ValidScope(s) && Reached(s, cur)
    ensures Confined(s, Lookup(s, cur, comps, noFollow, budget))
    decreases budget, |comps|
  {
    hide TargetParts, Reached, Accessible;
    if comps == [] {
    } else if comps[0] == ".." {
      if cur in s.stops {
        LookupIsConfined(s, cur, comps[1..], noFollow, budget);
      } else if OpenAt(s.fs, cur, "..").Success? {
        ParentReached(s, cur);
        LookupIsConfined(s, Parent(cur), comps[1..], noFollow, budget);
      }
    } else {
      var entry := OpenAt(s.fs, cur, comps[0]);
      if entry.Success? {
        var h := entry.value;
        ChildReached(s, cur, comps[0]);
        if !IsLink(s.fs, h) {
          LookupIsConfined(s, h, comps[1..], noFollow, budget);
        } else if !(noFollow && |comps| == 1) {
          var target := s.fs.nodes[h].target;
          var base := Follow(s, cur, h, target, budget);
          if base.Success? {
            RootReached(s);
            LookupIsConfined(s, base.value, TargetParts(target), false, budget - 1);
            var inner := Lookup(s, base.value, TargetParts(target), false, budget - 1);
            if inner.Found? {
              LookupIsConfined(s, inner.at, comps[1..], noFollow, inner.budget);
            }
          }
        }
      }
    }
  }

  lemma {:induction false} RootReached(s: Scope)
    requires ValidScope(s)
    ensures Reached(s, s.root)
  {
  }

  /** Entering the subdirectory `name` takes one step of a lookup. */
  lemma {:induction false} PlainStep(s: Scope, cur: Path, name: Name, rest: seq<Name>, noFollow: bool, budget: nat)
    requires ValidScope(s) && IsDir(s.fs, cur) && IsDir(s.fs, cur + [name]) && (cur, name) !in s.fs.lookupFault
    ensures Lookup(s, cur, [name] + rest, noFollow, budget) == Lookup(s, cur + [name], rest, noFollow, budget)
  {
    var next := cur + [name];
    assert Seated(s.fs, next);
    assert next[|next| - 1] == name;
    assert ([name] + rest)[1..] == rest;
  }

  lemma {:induction false} PlainWalk(s: Scope, cur: Path, names: seq<Name>, more: seq<Name>, noFollow: bool, budget: nat)
    requires ValidScope(s) && IsDir(s.fs, cur + names) && Accessible(s.fs, cur, cur + names)
    ensures Lookup(s, cur, names + more, noFollow, budget) == Lookup(s, cur + names, more, noFollow, budget)
    decreases |names|
  {
    hide Lookup;
    if names == [] {
      assert cur + names == cur && names + more == more;
    } else {
      var p, next, rest := cur + names, cur + [names[0]], names[1..];
      assert next + rest == p;
      assert p[..|cur|] == cur && p[|cur|] == names[0];
      AncestorIsDir(s.fs, p, |cur|);
      if rest == [] {
        assert next == p;
      } else {
        AncestorIsDir(s.fs, p, |next|);
        assert p[..|next|] == next;
      }
      assert [names[0]] + (rest + more) == names + more;
      PlainStep(s, cur, names[0], rest + more, noFollow, budget);
      PlainWalk(s, next, rest, more, noFollow, budget);
    }
  }

  lemma {:induction false} NamesBelow(fs: Fs, root: Path, names: seq<Name>)
    requires ValidFs(fs) && root + names in fs.nodes
    ensures forall i :: 0 <= i < |names| ==> ProperName(names[i])
    decreases |names|
  {
    if names != [] {
      var p, last := root + names, |names| - 1;
      assert Seated(fs, p);
      assert Parent(p) == root + names[..last];
      NamesBelow(fs, root, names[..last]);
      assert p[|p| - 1] == names[last];
      forall i | 0 <= i < |names| ensures ProperName(names[i]) {
        if i < last {
          assert names[..last][i] == names[i];
        }
      }
    }
  }

  lemma {:induction false} LastStep(s: Scope, cur: Path, name: Name, budget: nat)
    requires ValidScope(s) && IsDir(s.fs, cur) && cur + [name] in s.fs.nodes && (cur, name) !in s.fs.lookupFault
    ensures Lookup(s, cur, [name], true, budget) == Found(cur + [name], budget)
  {
    var p := cur + [name];
    assert Seated(s.fs, p);
    assert p[|p| - 1] == name;
    assert [name][1..] == [];
  }

  lemma {:induction false} AccessibleParent(fs: Fs, root: Path, p: Path)
    requires Accessible(fs, root, p) && p != root
    ensures Accessible(fs, root, Parent(p)) && (Parent(p), p[|p| - 1]) !in fs.lookupFault
  {
    var up := Parent(p);
    assert forall i :: 0 <= i < |up| ==> up[..i] == p[..i] && up[i] == p[i];
  }

  lemma {:induction false} LastNameOf(fs: Fs, root: Path, p: Path)
    requires ValidFs(fs) && p in fs.nodes && Within(root, p) && p != root
    ensures IsDir(fs, Parent(p)) && root <= Parent(p) && Parent(p) + [p[|p| - 1]] == p
    ensures root + Parent(p)[|root|..] == Parent(p)
    ensures p[|root|..] == Parent(p)[|root|..] + [p[|p| - 1]]
  {
    assert Seated(fs, p);
  }

  /** An entry's own path below the root leads back to it, whatever it is, without following a link. */
  lemma {:induction false} CanonicalPathResolves(s: Scope, p: Path)
    requires ValidScope(s) && p in s.fs.nodes && Accessible(s.fs, s.root, p) && p != s.root
    ensures ScopedHandle(s, JoinNames(p[|s.root|..]), true) == Success(p)
  {
    AccessibleParent(s.fs, s.root, p);
    LastNameOf(s.fs, s.root, p);
    hide JoinNames, SplitParts, Lookup, Accessible, Seated, ProperName, Parent;
    var names, up, name := p[|s.root|..], Parent(p), p[|p| - 1];
    assert s.root + names == p;
    ProperIsPlain(s.fs, s.root, names);
    SplitOfJoin(names);
    PlainWalk(s, s.root, up[|s.root|..], [name], true, MAX_SYMLINKS);
    LastStep(s, up, name, MAX_SYMLINKS);
  }

  lemma {:induction false} ProperIsPlain(fs: Fs, root: Path, names: seq<Name>)
    requires ValidFs(fs) && root + names in fs.nodes
    ensures forall i :: 0 <= i < |names| ==> names[i] != "" && '/' !in names[i]
  {
    NamesBelow(fs, root, names);
  }

  // ---- the stack of entered links says "inside a link" too often ----

  /** A root directory holding one link, `up`, whose target is "/". */
  function SlashLinkTree(): Fs {
    Fs(map[[] := Directory(1), ["up"] := Symlink("/")], map[], map[], {}, map[], {}, 2)
  }

  lemma {:induction false} SlashLinkTexts()
    ensures SplitParts("up/new") == ["up", "new"]
    ensures TargetParts("/") == []
  {
    SplitOfJoin(["up", "new"]);
    assert JoinNames(["up", "new"]) == "up/new";
    assert RelativePath("/") == RelativePath("") == "";
    NothingSplits();
  }

  lemma {:induction false} SlashLinkEnters()
    ensures var fs := SlashLinkTree();
            Step(WalkerScope(fs, []), [], ["up", "new"], 0, false, MAX_SYMLINKS) == Go([], ["new"], 0, MAX_SYMLINKS - 1)
    ensures OpenAt(SlashLinkTree(), [], "new") == Failure(ENOENT)
  {
    SlashLinkTexts();
    hide TargetParts;
    var fs := SlashLinkTree();
    assert [] + ["up"] == ["up"] && [] + ["new"] == ["new"];
    assert fs.nodes[["up"]] == Symlink("/");
    assert OpenAt(fs, [], "up") == Success(["up"]);
    assert ["up", "new"][1..] == ["new"] && [] + ["new"] == ["new"];
  }

  lemma {:induction false} SlashLinkMisses()
    ensures Step(WalkerScope(SlashLinkTree(), []), [], ["new"], 0, false, MAX_SYMLINKS - 1) == Stop(Absent([], ["new"]))
  {
    SlashLinkEnters();
  }

  lemma {:induction false} SlashLinkIsValid()
    ensures ValidFs(SlashLinkTree()) && IsDir(SlashLinkTree(), [])
  {
  }

  /** Looking up "up/new" misses `new` in the root, outside any link, yet is taken back to the link. */
  lemma {:induction false} SlashLinkIsRewound()
    ensures LookupEnding(SlashLinkTree(), [], "up/new", false) == (Absent([], ["new"]), Some(Entered([], "up", ["new"])))
  {
    hide Step, SplitParts, SlashLinkTree, TargetParts, Run, Lookup, EntryLeft;
    var s := WalkerScope(SlashLinkTree(), []);
    SlashLinkIsValid();
    SlashLinkTexts();
    SlashLinkEnters();
    SlashLinkMisses();
    EndingOfPath(SlashLinkTree(), [], "up/new", false);
    var link := Entered([], "up", ["new"]);
    EndingStops(s, Position([], ["new"], 0, MAX_SYMLINKS - 1, 0, true, Some(link)), false, Absent([], ["new"]));
    var w := Position([], ["up", "new"], 0, MAX_SYMLINKS, 0, false, None);
    assert w.parts[1..] == ["new"] && [] + w.parts[1..] == ["new"];
    EndingEnters(s, w, false, [], []);
  }

  /** A walk that follows no link has none left to go back to, so what it misses is reported exactly. */
  lemma {:induction false} NoLinkOwesNothing(s: Scope, w: Position, noFollow: bool)
    requires forall p :: Within(s.root, p) ==> !IsLink(s.fs, p)
    requires ValidScope(s) && Reached(s, w.cur)
    requires w.owed == 0 && !w.stuck && w.outermost.None?
    ensures EntryLeft(s, w, noFollow) == None
    decreases |w.parts|
  {
    hide Reached, TargetParts;
    if w.parts != [] {
      var m := Step(s, w.cur, w.parts, 0, noFollow, w.budget);
      if m.Go? {
        if w.parts[0] == ".." {
          if w.cur !in s.stops {
            ParentReached(s, w.cur);
          }
        } else {
          ChildReached(s, w.cur, w.parts[0]);
          ReachedIsWithin(s, OpenAt(s.fs, w.cur, w.parts[0]).value);
        }
        NoLinkOwesNothing(s, Past(w, m.cur), noFollow);
      }
    }
  }

  lemma {:induction false} ReachedIsWithin(s: Scope, p: Path)
    requires Reached(s, p)
    ensures Within(s.root, p)
  {
  }
}
