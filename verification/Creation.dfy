/**
 Root::create_directories of infra/rootfs.cpp: look the path up, then make the directories that are
 missing, one by one, from where the lookup stopped.
 */
module Creation {
  import opened Results
  import opened FileTree
  import opened PathText
  import opened Resolution
  import opened Rootfs
  import opened Confinement
  import opened Removal

  const PERMISSION_LIMIT := 0x400  // one above 01777

  /** mkdirat. It does not follow a trailing link: any existing entry is EEXIST. */
  function MkdirAt(fs: Fs, dir: Path, name: Name): Result<Fs, Errno> {
    if !IsDir(fs, dir) then Failure(ENOTDIR)
    else if (dir, name) in fs.lookupFault then Failure(fs.lookupFault[(dir, name)])
    else if name == "." || name == ".." || dir + [name] in fs.nodes then Failure(EEXIST)
    else if (dir, name) in fs.createFault then Failure(fs.createFault[(dir, name)])
    else Success(fs.(nodes := fs.nodes[dir + [name] := Directory(fs.nextInode)], nextInode := fs.nextInode + 1))
  }

  /** The directory that a list of names leads to, "." standing still. */
  function Descend(at: Path, names: seq<Name>): (r: Path)
    ensures at <= r
    decreases |names|
  {
    if names == [] then at
    else if names[0] == "." then Descend(at, names[1..])
    else Descend(at + [names[0]], names[1..])
  }

  /** fs' is fs with a new directory for every path strictly below `at` on the way to `to`, and nothing else. */
  ghost predicate Grew(fs: Fs, fs': Fs, at: Path, to: Path) {
    && at <= to
    && fs' == fs.(nodes := fs'.nodes, nextInode := fs'.nextInode)
    && fs.nextInode <= fs'.nextInode
    && (forall p :: p in fs'.nodes <==> p in fs.nodes || (at < p && p <= to))
    && (forall p :: p in fs.nodes ==> fs'.nodes[p] == fs.nodes[p])
    && (forall p :: p in fs'.nodes && p !in fs.nodes ==> fs'.nodes[p].Directory? && fs'.nodes[p].inode >= fs.nextInode)
  }

  /** Making and entering the names one after the other meets no error. */
  ghost predicate Creatable(fs: Fs, at: Path, names: seq<Name>)
    decreases |names|
  {
    names == [] ||
    (&& names[0] != ".."
     && (at, names[0]) !in fs.lookupFault
     && if names[0] == "." then Creatable(fs, at, names[1..])
        else (at, names[0]) !in fs.createFault && Creatable(fs, at + [names[0]], names[1..]))
  }

  /** Why a missing name cannot be made. An entry that mkdirat reports and openat then misses is ENOENT. */
  function RefusalOf(fs: Fs, at: Path, name: Name): Errno {
    if name == ".." then ENOENT
    else if (at, name) in fs.lookupFault then fs.lookupFault[(at, name)]
    else if (at, name) in fs.createFault && fs.createFault[(at, name)] != EEXIST then fs.createFault[(at, name)]
    else ENOENT
  }

  /** The names before k can be made, those up to k cannot, and exactly the former have been made. */
  ghost predicate RefusedAt(fs: Fs, fs': Fs, at: Path, names: seq<Name>, k: int, e: Errno) {
    && 0 <= k < |names|
    && Creatable(fs, at, names[..k]) && !Creatable(fs, at, names[..k + 1])
    && Grew(fs, fs', at, Descend(at, names[..k]))
    && e == RefusalOf(fs, Descend(at, names[..k]), names[k])
  }

  lemma {:induction false} CreatableOneMore(fs: Fs, at: Path, names: seq<Name>, n: Name)
    ensures Creatable(fs, at, names + [n]) <==> Creatable(fs, at, names) && Creatable(fs, Descend(at, names), [n])
    decreases |names|
  {
    if names == [] {
      assert names + [n] == [n];
    } else {
      assert (names + [n])[0] == names[0] && (names + [n])[1..] == names[1..] + [n];
      CreatableOneMore(fs, if names[0] == "." then at else at + [names[0]], names[1..], n);
    }
  }

  lemma {:induction false} CreatableOne(fs: Fs, at: Path, n: Name)
    ensures Creatable(fs, at, [n]) <==>
            n != ".." && (at, n) !in fs.lookupFault && (n == "." || (at, n) !in fs.createFault)
  {
    assert [n][1..] == [];
  }

  lemma {:induction false} CreatableIgnoresNodes(fs: Fs, fs': Fs, at: Path, names: seq<Name>)
    requires fs.lookupFault == fs'.lookupFault && fs.createFault == fs'.createFault
    ensures Creatable(fs, at, names) == Creatable(fs', at, names)
    decreases |names|
  {
    if names != [] {
      CreatableIgnoresNodes(fs, fs', if names[0] == "." then at else at + [names[0]], names[1..]);
    }
  }

  lemma {:induction false} MkdirKeepsTree(fs: Fs, dir: Path, name: Name)
    requires ValidFs(fs) && MkdirAt(fs, dir, name).Success? && ProperName(name)
    ensures ValidFs(MkdirAt(fs, dir, name).value)
  {
    var p, fs' := dir + [name], MkdirAt(fs, dir, name).value;
    assert Parent(p) == dir && p[|p| - 1] == name;
    forall q: Path ensures Seated(fs', q) {
      assert Seated(fs, q);
      assert q != p && q != [] && q in fs.nodes ==> Parent(q) in fs.nodes && fs'.nodes[Parent(q)].Directory?;
    }
  }

  /** One more directory at the end of the chain. */
  lemma {:induction false} GrowOne(fs: Fs, mid: Fs, at: Path, cur: Path, name: Name)
    requires Grew(fs, mid, at, cur) && MkdirAt(mid, cur, name).Success?
    requires cur + [name] !in fs.nodes
    ensures Grew(fs, MkdirAt(mid, cur, name).value, at, cur + [name])
  {
    var p, fs' := cur + [name], MkdirAt(mid, cur, name).value;
    forall q: Path ensures q in fs'.nodes <==> q in fs.nodes || (at < q && q <= p) {
      assert q in fs'.nodes <==> q in mid.nodes || q == p;
      if q <= p && q != p {
        assert q == p[..|q|] == cur[..|q|];
      }
    }
  }

  /** Nothing exists below an entry that does not exist. */
  lemma {:induction false} NothingBelowMissing(fs: Fs, p: Path, q: Path)
    requires ValidFs(fs) && p !in fs.nodes && p <= q
    ensures q !in fs.nodes
  {
    if q in fs.nodes {
      if p == q {
      } else {
        NothingBelow(fs, p, q);
      }
    }
  }

  ghost predicate IsSuffix(o: Outcome, comps: seq<Name>) {
    o.Absent? ==> |o.todo| <= |comps| && o.todo == comps[|comps| - |o.todo|..]
  }

  lemma {:induction false} SuffixOfTail(o: Outcome, comps: seq<Name>)
    requires comps != [] && IsSuffix(o, comps[1..])
    ensures IsSuffix(o, comps)
  {
  }

  /** Every component of what is left of the path is one of the path's own. */
  lemma {:induction false} AbsentIsSuffix(s: Scope, cur: Path, comps: seq<Name>, noFollow: bool, budget: nat)
    ensures IsSuffix(Lookup(s, cur, comps, noFollow, budget), comps)
    decreases |comps|
  {
    hide TargetParts, OpenAt, Follow;
    var o := Lookup(s, cur, comps, noFollow, budget);
    if comps == [] {
    } else {
      if comps[0] == ".." {
        if cur in s.stops {
          AbsentIsSuffix(s, cur, comps[1..], noFollow, budget);
        } else if OpenAt(s.fs, cur, "..").Success? {
          AbsentIsSuffix(s, OpenAt(s.fs, cur, "..").value, comps[1..], noFollow, budget);
        }
      } else if OpenAt(s.fs, cur, comps[0]).Success? {
        var h := OpenAt(s.fs, cur, comps[0]).value;
        if !IsLink(s.fs, h) {
          AbsentIsSuffix(s, h, comps[1..], noFollow, budget);
        } else {
          var target := s.fs.nodes[h].target;
          var base := Follow(s, cur, h, target, budget);
          if base.Success? {
            var inner := Lookup(s, base.value, TargetParts(target), false, budget - 1);
            if inner.Found? {
              AbsentIsSuffix(s, inner.at, comps[1..], noFollow, inner.budget);
            }
          }
        }
      }
      if IsSuffix(o, comps[1..]) {
        SuffixOfTail(o, comps);
      }
    }
  }

  lemma {:induction false} SplitHasNoSlash(path: string)
    ensures forall x :: x in SplitParts(path) ==> x != "" && '/' !in x
  {
  }

  /** Where making directories starts: a missing entry of a directory below the root, with proper names to come. */
  lemma {:induction false} AbsentIsCreatable(fs: Fs, root: Path, path: string, at: Path, todo: seq<Name>)
    requires ValidFs(fs) && IsDir(fs, root)
    requires LookupEnding(fs, root, path, false).0 == Absent(at, todo)
    ensures todo != [] && IsDir(fs, at) && Within(root, at)
    ensures ProperName(todo[0]) && at + [todo[0]] !in fs.nodes && (at, todo[0]) !in fs.lookupFault
    ensures forall x :: x in todo ==> x != "" && '/' !in x
  {
    var s := WalkerScope(fs, root);
    LookupIsConfined(s, root, SplitParts(path), false, MAX_SYMLINKS);
    AbsentIsSuffix(s, root, SplitParts(path), false, MAX_SYMLINKS);
    SplitHasNoSlash(path);
    assert forall x :: x in todo ==> x in SplitParts(path);
    assert todo[0] in todo;
  }

  method CreateDirectories(host: Host, root: Path, path: string, perms: nat) returns (r: Result<Path, Errno>)
    requires ValidFs(host.fs) && IsDir(host.fs, root)
    modifies host`fs
    ensures ValidFs(host.fs)
    ensures perms > 1023 ==> r == Failure(EINVAL) && host.fs == old(host.fs)
    ensures perms <= 1023 ==>
              match LookupEnding(old(host.fs), root, path, false)
              case (Refused(e), _) => r == Failure(e) && host.fs == old(host.fs)
              case (Found(at, _), _) =>
                && host.fs == old(host.fs)
                && r == (if !IsDir(host.fs, at) then Failure(ENOTDIR)
                         else if (at, ".") in host.fs.lookupFault then Failure(host.fs.lookupFault[(at, ".")])
                         else Success(at))
              case (Dangling, _) => r == Failure(ENOTDIR) && host.fs == old(host.fs)
              case (Absent(at, todo), left) =>
                if left.Some? then r == Failure(ENOTDIR) && host.fs == old(host.fs)
                else
                  && (r.Success? <==> Creatable(old(host.fs), at, todo))
                  && (r.Success? ==> r.value == Descend(at, todo) && Grew(old(host.fs), host.fs, at, r.value))
                  && (r.Failure? ==> exists k :: RefusedAt(old(host.fs), host.fs, at, todo, k, r.error))
    ensures r.Success? ==> IsDir(host.fs, r.value)
  {
    if perms >= PERMISSION_LIMIT {
      return Failure(EINVAL);
    }
    ghost var fs0 := host.fs;
    ghost var ending := LookupEnding(fs0, root, path, false);
    var partial := ResolvePartial(host.fs, root, path, false);
    if partial.Failure? {
      return Failure(partial.error);
    }
    if partial.value.remaining == [] {
      return OpenDirectory(host.fs, partial.value.fd, ".");
    }
    var rest := partial.value.remaining;
    if ending.1.Some? {
      assert IsLink(host.fs, partial.value.fd + [rest[0]]);
    } else {
      AbsentIsCreatable(fs0, root, path, partial.value.fd, rest);
    }
    r := MakeChain(host, partial.value.fd, rest);
  }

  lemma {:induction false} DescendOneMore(at: Path, names: seq<Name>, n: Name)
    ensures Descend(at, names + [n]) == if n == "." then Descend(at, names) else Descend(at, names) + [n]
    decreases |names|
  {
    if names == [] {
      assert names + [n] == [n];
    } else {
      assert (names + [n])[1..] == names[1..] + [n];
      DescendOneMore(if names[0] == "." then at else at + [names[0]], names[1..], n);
    }
  }

  /** The state of the loop: the names before i have been made and entered. */
  ghost predicate Made(fs0: Fs, fs: Fs, at: Path, names: seq<Name>, i: nat, current: Path) {
    && i <= |names|
    && ValidFs(fs) && IsDir(fs, current)
    && current == Descend(at, names[..i])
    && Grew(fs0, fs, at, current)
    && Creatable(fs0, at, names[..i])
    && (Creatable(fs0, at, names) <==> Creatable(fs0, current, names[i..]))
    && (i < |names| ==> current + [names[i]] !in fs0.nodes || names[i] == ".")
    && (i > 0 ==> current !in fs0.nodes)
  }

  lemma {:induction false} MadeOneMore(fs0: Fs, fs: Fs, at: Path, names: seq<Name>, i: nat, current: Path)
    requires ValidFs(fs0) && Made(fs0, fs, at, names, i, current) && i < |names|
    requires names[i] != "" && '/' !in names[i] && names[i] != ".." && (i == 0 ==> names[i] != ".")
    ensures names[i] == "." && (current, ".") !in fs.lookupFault ==> Made(fs0, fs, at, names, i + 1, current)
    ensures names[i] != "." && MkdirAt(fs, current, names[i]).Success? ==>
              Made(fs0, MkdirAt(fs, current, names[i]).value, at, names, i + 1, current + [names[i]])
  {
    var name := names[i];
    assert names[..i + 1] == names[..i] + [name];
    DescendOneMore(at, names[..i], name);
    CreatableOneMore(fs0, at, names[..i], name);
    CreatableOne(fs0, current, name);
    assert names[i..][0] == name && names[i..][1..] == names[i + 1..];
    if name == "." {
      if i + 1 < |names| {
        NothingBelowMissing(fs0, current, current + [names[i + 1]]);
      }
    } else if MkdirAt(fs, current, name).Success? {
      MkdirKeepsTree(fs, current, name);
      GrowOne(fs0, fs, at, current, name);
      if i + 1 < |names| {
        NothingBelowMissing(fs0, current + [name], current + [name] + [names[i + 1]]);
      }
    }
  }

  lemma {:induction false} RefusesHere(fs0: Fs, fs: Fs, at: Path, names: seq<Name>, i: nat, current: Path)
    requires Made(fs0, fs, at, names, i, current) && i < |names|
    requires !Creatable(fs0, current, [names[i]])
    ensures RefusedAt(fs0, fs, at, names, i, RefusalOf(fs0, current, names[i]))
  {
    hide Grew, Creatable;
    assert names[..i + 1] == names[..i] + [names[i]];
    CreatableOneMore(fs0, at, names[..i], names[i]);
  }

  /**
   The loop over the components that a lookup left. When the first one names a link nothing is made;
   when it is missing the chain is made up to the first component that refuses.
   */
  method MakeChain(host: Host, at: Path, remaining: seq<Name>) returns (r: Result<Path, Errno>)
    requires ValidFs(host.fs) && IsDir(host.fs, at) && remaining != []
    requires
      || IsLink(host.fs, at + [remaining[0]])
      || (&& ProperName(remaining[0]) && at + [remaining[0]] !in host.fs.nodes
          && forall x :: x in remaining ==> x != "" && '/' !in x)
    modifies host`fs
    ensures ValidFs(host.fs)
    ensures IsLink(old(host.fs), at + [remaining[0]]) ==> r.Failure? && host.fs == old(host.fs)
    ensures IsLink(old(host.fs), at + [remaining[0]]) && (at, remaining[0]) !in old(host.fs).lookupFault ==> r == Failure(ENOTDIR)
    ensures r.Success? ==> IsDir(host.fs, r.value)
    ensures !IsLink(old(host.fs), at + [remaining[0]]) ==>
              && (r.Success? <==> Creatable(old(host.fs), at, remaining))
              && (r.Success? ==> r.value == Descend(at, remaining) && Grew(old(host.fs), host.fs, at, r.value))
              && (r.Failure? ==> exists k :: RefusedAt(old(host.fs), host.fs, at, remaining, k, r.error))
  {
    ghost var fs0 := host.fs;
    var current := at;
    assert remaining[..0] == [] && remaining[0..] == remaining;
    for i := 0 to |remaining|
      invariant i == 0 ==> host.fs == fs0 && current == at
      invariant i > 0 ==> !IsLink(fs0, at + [remaining[0]])
      invariant !IsLink(fs0, at + [remaining[0]]) ==> Made(fs0, host.fs, at, remaining, i, current)
      invariant ValidFs(host.fs)
    {
      var name := remaining[i];
      ghost var before := host.fs;
      assert remaining[i..][0] == name;
      if IsLink(fs0, at + [remaining[0]]) {
        assert Seated(fs0, at + [name]);
        assert (at + [name])[|at|] == name;
      } else {
        assert name in remaining;
        if name != ".." {
          MadeOneMore(fs0, before, at, remaining, i, current);
        }
      }
      CreatableOne(fs0, current, name);
      if !IsLink(fs0, at + [remaining[0]]) && !Creatable(fs0, current, [name]) {
        RefusesHere(fs0, before, at, remaining, i, current);
      }
      if name == ".." {
        return Failure(ENOENT);
      }
      var made := MkdirAt(host.fs, current, name);
      match made {
        case Success(fs') => host.fs := fs';
        case Failure(e) =>
          if e != EEXIST {
            return Failure(e);
          }
      }
      var next := OpenDirectory(host.fs, current, name);
      if next.Failure? {
        return Failure(next.error);
      }
      current := next.value;
    }
    assert remaining[..|remaining|] == remaining;
    return Success(current);
  }

  // ---- the path leads to what was made ----

  lemma {:induction false} GrownOpens(fs: Fs, fs': Fs, at: Path, to: Path, cur: Path, name: Name)
    requires Grew(fs, fs', at, to) && OpenAt(fs, cur, name).Success?
    ensures OpenAt(fs', cur, name) == OpenAt(fs, cur, name)
  {
  }

  /** The scopes before and after: new directories never pass for the root. */
  ghost predicate GrownScope(s: Scope, s': Scope, at: Path, to: Path) {
    && ValidScope(s) && ValidScope(s')
    && s == WalkerScope(s.fs, s.root) && s' == WalkerScope(s'.fs, s.root)
    && Grew(s.fs, s'.fs, at, to)
  }

  lemma {:induction false} GrownStops(s: Scope, s': Scope, at: Path, to: Path, p: Path)
    requires GrownScope(s, s', at, to) && p in s.fs.nodes
    ensures p in s.stops <==> p in s'.stops
    ensures IsDir(s.fs, p) == IsDir(s'.fs, p) && IsLink(s.fs, p) == IsLink(s'.fs, p)
  {
  }

  /** A link that is followed before is followed the same way after. */
  lemma {:induction false} LinkInBoth(s: Scope, s': Scope, at: Path, to: Path, cur: Path, h: Path, comps: seq<Name>, noFollow: bool, budget: nat)
    returns (base: Path, target: string)
    requires GrownScope(s, s', at, to) && IsDir(s.fs, cur) && Reached(s, cur)
    requires comps != [] && comps[0] != ".." && OpenAt(s.fs, cur, comps[0]) == Success(h) && IsLink(s.fs, h)
    requires !(noFollow && |comps| == 1)
    requires !Lookup(s, cur, comps, noFollow, budget).Refused?
    ensures budget > 0 && ValidScope(s) && IsDir(s.fs, base) && Reached(s, base)
    ensures Lookup(s, cur, comps, noFollow, budget) == LookupPast(s, base, target, comps[1..], noFollow, budget - 1)
    ensures Lookup(s', cur, comps, noFollow, budget) == LookupPast(s', base, target, comps[1..], noFollow, budget - 1)
  {
    GrownOpens(s.fs, s'.fs, at, to, cur, comps[0]);
    GrownStops(s, s', at, to, h);
    assert s'.fs.nodes[h] == s.fs.nodes[h];
    target := s.fs.nodes[h].target;
    hide Lookup, Grew, Aliases, LookupPast;
    LookupOfLink(s, cur, h, comps, noFollow, budget);
    LookupOfLink(s', cur, h, comps, noFollow, budget);
    base := Follow(s, cur, h, target, budget).value;
    RootReached(s);
  }

  /** What the lookup found before, it finds again. */
  lemma {:induction false} FoundStays(s: Scope, s': Scope, at: Path, to: Path, cur: Path, comps: seq<Name>, noFollow: bool, budget: nat)
    requires GrownScope(s, s', at, to) && IsDir(s.fs, cur) && Reached(s, cur)
    requires Lookup(s, cur, comps, noFollow, budget).Found?
    ensures Lookup(s', cur, comps, noFollow, budget) == Lookup(s, cur, comps, noFollow, budget)
    decreases budget, |comps|, 1
  {
    hide Grew, TargetParts, ValidFs, Aliases, Reached;
    if comps == [] {
    } else {
      GrownStops(s, s', at, to, cur);
      if OpenAt(s.fs, cur, comps[0]).Success? {
        GrownOpens(s.fs, s'.fs, at, to, cur, comps[0]);
        OpenAtFinds(s.fs, cur, comps[0]);
        GrownStops(s, s', at, to, OpenAt(s.fs, cur, comps[0]).value);
      }
      if comps[0] == ".." {
        if cur in s.stops {
          FoundStays(s, s', at, to, cur, comps[1..], noFollow, budget);
        } else {
          ParentReached(s, cur);
          FoundStays(s, s', at, to, Parent(cur), comps[1..], noFollow, budget);
        }
      } else {
        var h := OpenAt(s.fs, cur, comps[0]).value;
        ChildReached(s, cur, comps[0]);
        if !IsLink(s.fs, h) {
          if IsDir(s.fs, h) {
            FoundStays(s, s', at, to, h, comps[1..], noFollow, budget);
          }
        } else if !(noFollow && |comps| == 1) {
          FoundStaysPastLink(s, s', at, to, cur, h, comps, noFollow, budget);
        }
      }
    }
  }

  lemma {:induction false} FoundStaysPastLink(s: Scope, s': Scope, at: Path, to: Path, cur: Path, h: Path, comps: seq<Name>, noFollow: bool, budget: nat)
    requires GrownScope(s, s', at, to) && IsDir(s.fs, cur) && Reached(s, cur)
    requires comps != [] && comps[0] != ".." && OpenAt(s.fs, cur, comps[0]) == Success(h) && IsLink(s.fs, h)
    requires !(noFollow && |comps| == 1)
    requires Lookup(s, cur, comps, noFollow, budget).Found?
    ensures Lookup(s', cur, comps, noFollow, budget) == Lookup(s, cur, comps, noFollow, budget)
    decreases budget, |comps|, 0
  {
    var base, target := LinkInBoth(s, s', at, to, cur, h, comps, noFollow, budget);
    FoundStaysFrom(s, s', at, to, base, target, comps[1..], noFollow, budget - 1);
  }

  lemma {:induction false} FoundStaysFrom(s: Scope, s': Scope, at: Path, to: Path, base: Path, target: string, rest: seq<Name>, noFollow: bool, budget: nat)
    requires GrownScope(s, s', at, to) && ValidScope(s) && IsDir(s.fs, base) && Reached(s, base)
    requires LookupPast(s, base, target, rest, noFollow, budget).Found?
    ensures LookupPast(s', base, target, rest, noFollow, budget) == LookupPast(s, base, target, rest, noFollow, budget)
    decreases budget + 1, |rest|, 0
  {
    hide Lookup, GrownScope, OpenAt, Follow, Grew, TargetParts, ValidFs, Aliases, Reached, ValidScope;
    FoundStays(s, s', at, to, base, TargetParts(target), false, budget);
    var inner := Lookup(s, base, TargetParts(target), false, budget);
    LookupIsConfined(s, base, TargetParts(target), false, budget);
    if rest == [] {
      NothingStays(s, s', inner.at, noFollow, inner.budget);
    } else {
      GrownStops(s, s', at, to, inner.at);
      FoundStays(s, s', at, to, inner.at, rest, noFollow, inner.budget);
    }
  }

  lemma {:induction false} NothingStays(s: Scope, s': Scope, cur: Path, noFollow: bool, budget: nat)
    ensures Lookup(s', cur, [], noFollow, budget) == Lookup(s, cur, [], noFollow, budget)
  {
  }

  /** Where the lookup missed before, the new lookup goes on with the same components. */
  lemma {:induction false} AbsentGoesOn(s: Scope, s': Scope, at: Path, to: Path, cur: Path, comps: seq<Name>, budget: nat)
    returns (left: nat)
    requires GrownScope(s, s', at, to) && IsDir(s.fs, cur) && Reached(s, cur)
    requires Lookup(s, cur, comps, false, budget).Absent?
    ensures var o := Lookup(s, cur, comps, false, budget);
            Lookup(s', cur, comps, false, budget) == Lookup(s', o.at, o.todo, false, left)
    decreases |comps|, 1
  {
    hide Grew, TargetParts, ValidFs, Aliases, Reached;
    left := budget;
    GrownStops(s, s', at, to, cur);
    if OpenAt(s.fs, cur, comps[0]).Success? {
      GrownOpens(s.fs, s'.fs, at, to, cur, comps[0]);
      OpenAtFinds(s.fs, cur, comps[0]);
      GrownStops(s, s', at, to, OpenAt(s.fs, cur, comps[0]).value);
    }
    if comps[0] == ".." {
      if cur in s.stops {
        left := AbsentGoesOn(s, s', at, to, cur, comps[1..], budget);
      } else {
        ParentReached(s, cur);
        left := AbsentGoesOn(s, s', at, to, Parent(cur), comps[1..], budget);
      }
    } else if OpenAt(s.fs, cur, comps[0]).Success? {
      var h := OpenAt(s.fs, cur, comps[0]).value;
      ChildReached(s, cur, comps[0]);
      if !IsLink(s.fs, h) {
        left := AbsentGoesOn(s, s', at, to, h, comps[1..], budget);
      } else {
        left := AbsentGoesOnPastLink(s, s', at, to, cur, h, comps, budget);
      }
    }
  }

  lemma {:induction false} LookupOfNothing(s: Scope, inner: Outcome, rest: seq<Name>)
    ensures inner.Found? && rest == [] ==> Lookup(s, inner.at, rest, false, inner.budget) == Found(inner.at, inner.budget)
  {
  }

  lemma {:induction false} AbsentGoesOnPastLink(s: Scope, s': Scope, at: Path, to: Path, cur: Path, h: Path, comps: seq<Name>, budget: nat)
    returns (left: nat)
    requires GrownScope(s, s', at, to) && IsDir(s.fs, cur) && Reached(s, cur)
    requires comps != [] && comps[0] != ".." && OpenAt(s.fs, cur, comps[0]) == Success(h) && IsLink(s.fs, h)
    requires Lookup(s, cur, comps, false, budget).Absent?
    ensures var o := Lookup(s, cur, comps, false, budget);
            Lookup(s', cur, comps, false, budget) == Lookup(s', o.at, o.todo, false, left)
    decreases |comps|, 0
  {
    var base, target := LinkInBoth(s, s', at, to, cur, h, comps, false, budget);
    left := AbsentGoesOnFrom(s, s', at, to, base, target, comps[1..], budget - 1);
  }

  lemma {:induction false} AbsentGoesOnFrom(s: Scope, s': Scope, at: Path, to: Path, base: Path, target: string, rest: seq<Name>, budget: nat)
    returns (left: nat)
    requires GrownScope(s, s', at, to) && ValidScope(s) && IsDir(s.fs, base) && Reached(s, base)
    requires LookupPast(s, base, target, rest, false, budget).Absent?
    ensures var o := LookupPast(s, base, target, rest, false, budget);
            LookupPast(s', base, target, rest, false, budget) == Lookup(s', o.at, o.todo, false, left)
    decreases |rest|, 2
  {
    hide GrownScope, OpenAt, Follow, Grew, TargetParts, ValidFs, Aliases, Reached, ValidScope;
    var inner := Lookup(s, base, TargetParts(target), false, budget);
    assert inner.Found? && rest != [] && IsDir(s.fs, inner.at) by {
      LookupOfNothing(s, inner, rest);
    }
    hide Lookup;
    FoundStays(s, s', at, to, base, TargetParts(target), false, budget);
    LookupIsConfined(s, base, TargetParts(target), false, budget);
    GrownStops(s, s', at, to, inner.at);
    left := AbsentGoesOn(s, s', at, to, inner.at, rest, inner.budget);
  }

  /** A chain of directories is walked to its end. */
  lemma {:induction false} ChainIsWalked(s: Scope, at: Path, todo: seq<Name>, budget: nat)
    requires ValidScope(s) && Creatable(s.fs, at, todo)
    requires forall x :: x in todo ==> x != "" && '/' !in x
    requires forall p :: at <= p && p <= Descend(at, todo) ==> IsDir(s.fs, p)
    ensures Lookup(s, at, todo, false, budget) == Found(Descend(at, todo), budget)
    decreases |todo|
  {
    if todo != [] {
      assert todo[0] in todo;
      assert forall x :: x in todo[1..] ==> x in todo;
      var next := if todo[0] == "." then at else at + [todo[0]];
      assert at <= next && next <= Descend(at, todo);
      assert IsDir(s.fs, at) && IsDir(s.fs, next);
      ChainIsWalked(s, next, todo[1..], budget);
    }
  }

  /**
   After create_directories made what was missing, looking the path up again leads to the very
   directory that was returned.
   */
  lemma {:induction false} CreatedPathResolves(fs: Fs, fs': Fs, root: Path, path: string, at: Path, todo: seq<Name>)
    requires ValidFs(fs) && ValidFs(fs') && IsDir(fs, root)
    requires LookupEnding(fs, root, path, false) == (Absent(at, todo), None)
    requires Creatable(fs, at, todo) && Grew(fs, fs', at, Descend(at, todo))
    ensures ScopedHandle(WalkerScope(fs', root), path, false) == Success(Descend(at, todo))
  {
    var s, s', to := WalkerScope(fs, root), WalkerScope(fs', root), Descend(at, todo);
    assert SameInode(fs', root, root);
    assert GrownScope(s, s', at, to);
    RootReached(s);
    var left := AbsentGoesOn(s, s', at, to, root, SplitParts(path), MAX_SYMLINKS);
    AbsentIsCreatable(fs, root, path, at, todo);
    CreatableIgnoresNodes(fs, fs', at, todo);
    ChainIsDirectories(fs, fs', at, todo[0], to);
    ChainIsWalked(s', at, todo, left);
  }

  lemma {:induction false} ChainIsDirectories(fs: Fs, fs': Fs, at: Path, first: Name, to: Path)
    requires ValidFs(fs) && Grew(fs, fs', at, to) && IsDir(fs, at)
    requires at + [first] !in fs.nodes && at + [first] <= to
    ensures forall p :: at <= p && p <= to ==> IsDir(fs', p)
  {
    forall p | at <= p && p <= to ensures IsDir(fs', p) {
      if p == at {
        assert fs'.nodes[p] == fs.nodes[p];
      } else {
        assert p[|at|] == to[|at|] == first;
        assert at + [first] <= p;
        NothingBelowMissing(fs, at + [first], p);
        assert p in fs'.nodes;
      }
    }
  }
}
