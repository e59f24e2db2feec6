/**
 Every interleaving of the two programs of a sound script, whatever is logged and whoever fails:
 nobody blocks for good, every message received is the one expected, at most one message is on its
 way to the child, and actions happen in the script's order.
 */
module Interleaving {
  import opened Results
  import opened Choreography

  /** The parent's and the child's whole programs: the script's part, then exec and its detection. */
  function ParentProgram(s: seq<Item>, after: seq<ParentOp>): (r: seq<ParentOp>)
    ensures r != []
  {
    ParentSide(s) + ([AwaitClose] + after)
  }

  function ChildProgram(s: seq<Item>): (r: seq<ChildOp>)
    ensures r != []
  {
    ChildSide(s) + [Perform(Exec)]
  }

  /** What the parent may do once the container runs: its poststart hooks, or nothing. */
  ghost predicate After(after: seq<ParentOp>) {
    after == [] || after == [Do(PoststartHooks)]
  }

  // ---- the invariant: the parent has passed s[..i], the child s[..j] ----

  ghost predicate Todo(s: seq<Item>, after: seq<ParentOp>, st: State, i: nat, j: nat) {
    && i <= |s| && j <= |s|
    && (|| st.parentTodo == ParentProgram(s[i..], after)
        || (i == |s| && !st.alive && !st.sawFatal && st.up == [] && (st.parentTodo == after || st.parentTodo == [])))
    && (|| st.childTodo == ChildProgram(s[j..])
        || (j == |s| && !st.alive && st.childTodo == []))
  }

  ghost predicate Queued(s: seq<Item>, st: State, i: nat, j: nat) {
    && i <= |s| && j <= |s|
    && (|| (i <= j && Bodies(st.up) == Ups(s[i..j]) && st.down == [] && !HasDown(s, i, j))
        || (j <= i && Bodies(st.up) == [] && st.down == Downs(s[j..i]) && !HasUp(s, j, i)))
  }

  /** The action at position k of the script is taken. */
  ghost predicate Taken(s: seq<Item>, k: nat, i: nat, j: nat) {
    k < |s| && ((k < i && s[k].ParentDoes?) || (k < j && s[k].ChildDoes?))
  }

  ghost predicate Traced(s: seq<Item>, after: seq<ParentOp>, st: State, i: nat, j: nat) {
    && (forall x, y :: 0 <= x < y < |st.trace| ==> Rank(st.trace[x]) < Rank(st.trace[y]))
    && (forall a :: a in st.trace ==>
          || (exists k: nat :: Taken(s, k, i, j) && ActOf(s[k]) == Some(a))
          || (a == Exec && st.childTodo == [])
          || (a == PoststartHooks && st.parentTodo == []))
    && (forall k: nat :: Taken(s, k, i, j) ==> ActOf(s[k]).value in st.trace)
    && (st.childTodo == [] ==> Exec in st.trace)
    && (st.parentTodo == [] && after != [] ==> PoststartHooks in st.trace)
  }

  ghost predicate At(s: seq<Item>, after: seq<ParentOp>, st: State, i: nat, j: nat) {
    Todo(s, after, st, i, j) && Queued(s, st, i, j) && Traced(s, after, st, i, j)
  }

  ghost predicate Invariant(s: seq<Item>, after: seq<ParentOp>, st: State) {
    exists i: nat, j: nat :: At(s, after, st, i, j)
  }

  // ---- lists ----

  function ParentOpOf(t: Item): ParentOp
    requires !t.ChildDoes?
  {
    match t
    case Up(b) => Wait(b)
    case Down(b) => Tell(b)
    case ParentDoes(a) => Do(a)
  }

  function ChildOpOf(t: Item): ChildOp
    requires !t.ParentDoes?
  {
    match t
    case Up(b) => Send(b)
    case Down(b) => Expect(b)
    case ChildDoes(a) => Perform(a)
  }

  lemma {:induction false} ParentHead(s: seq<Item>, after: seq<ParentOp>, i: nat)
    requires i < |s| && !s[i].ChildDoes?
    ensures ParentProgram(s[i..], after) == [ParentOpOf(s[i])] + ParentProgram(s[i + 1..], after)
  {
  }

  lemma {:induction false} ChildHead(s: seq<Item>, j: nat)
    requires j < |s| && !s[j].ParentDoes?
    ensures ChildProgram(s[j..]) == [ChildOpOf(s[j])] + ChildProgram(s[j + 1..])
  {
  }

  lemma {:induction false} ProgramsEnd(s: seq<Item>, after: seq<ParentOp>)
    ensures ParentProgram(s[|s|..], after) == [AwaitClose] + after
    ensures ChildProgram(s[|s|..]) == [Perform(Exec)]
  {
  }

  lemma {:induction false} UpsAppend(a: seq<Item>, b: seq<Item>)
    ensures Ups(a + b) == Ups(a) + Ups(b)
  {
    if a == [] {
      assert a + b == b;
    } else {
      var whole := a + b;
      assert whole[0] == a[0] && whole[1..] == a[1..] + b;
      UpsAppend(a[1..], b);
      assert Ups(whole) == (if a[0].Up? then [a[0].body] else []) + (Ups(a[1..]) + Ups(b));
    }
  }

  lemma {:induction false} DownsAppend(a: seq<Item>, b: seq<Item>)
    ensures Downs(a + b) == Downs(a) + Downs(b)
  {
    if a == [] {
      assert a + b == b;
    } else {
      var whole := a + b;
      assert whole[0] == a[0] && whole[1..] == a[1..] + b;
      DownsAppend(a[1..], b);
      assert Downs(whole) == (if a[0].Down? then [a[0].body] else []) + (Downs(a[1..]) + Downs(b));
    }
  }

  lemma {:induction false} BodiesAppend(a: seq<Message>, b: seq<Message>)
    ensures Bodies(a + b) == Bodies(a) + Bodies(b)
  {
    if a == [] {
      assert a + b == b;
    } else {
      var whole := a + b;
      assert whole[0] == a[0] && whole[1..] == a[1..] + b;
      BodiesAppend(a[1..], b);
      assert Bodies(whole) == (if a[0].Control? then [a[0].body] else []) + (Bodies(a[1..]) + Bodies(b));
    }
  }

  /** One more item at the end of a stretch. */
  lemma {:induction false} StretchEnd(s: seq<Item>, lo: nat, hi: nat)
    requires lo <= hi < |s|
    ensures Ups(s[lo..hi + 1]) == Ups(s[lo..hi]) + (if s[hi].Up? then [s[hi].body] else [])
    ensures Downs(s[lo..hi + 1]) == Downs(s[lo..hi]) + (if s[hi].Down? then [s[hi].body] else [])
  {
    assert s[lo..hi + 1] == s[lo..hi] + [s[hi]];
    assert [s[hi]][1..] == [];
    UpsAppend(s[lo..hi], [s[hi]]);
    DownsAppend(s[lo..hi], [s[hi]]);
  }

  lemma {:induction false} StretchStart(s: seq<Item>, lo: nat, hi: nat)
    requires lo < hi <= |s|
    ensures Ups(s[lo..hi]) == (if s[lo].Up? then [s[lo].body] else []) + Ups(s[lo + 1..hi])
    ensures Downs(s[lo..hi]) == (if s[lo].Down? then [s[lo].body] else []) + Downs(s[lo + 1..hi])
  {
  }

  lemma {:induction false} NoUpsWithout(s: seq<Item>, lo: nat, hi: nat)
    requires lo <= hi <= |s|
    ensures !HasUp(s, lo, hi) ==> Ups(s[lo..hi]) == []
    ensures !HasDown(s, lo, hi) ==> Downs(s[lo..hi]) == []
    ensures Ups(s[lo..hi]) == [] ==> !HasUp(s, lo, hi)
    ensures Downs(s[lo..hi]) == [] ==> !HasDown(s, lo, hi)
    decreases hi - lo
  {
    if lo < hi {
      StretchStart(s, lo, hi);
      NoUpsWithout(s, lo + 1, hi);
    }
  }

  // ---- passing over the other side's items ----

  lemma {:induction false} ParentSkips(s: seq<Item>, after: seq<ParentOp>, st: State, i: nat, j: nat)
    requires At(s, after, st, i, j) && i < |s| && s[i].ChildDoes?
    ensures At(s, after, st, i + 1, j)
  {
    assert ParentProgram(s[i..], after) == ParentProgram(s[i + 1..], after) by {
      assert s[i..][1..] == s[i + 1..];
      assert ParentSide(s[i..]) == [] + ParentSide(s[i + 1..]);
    }
    QueueUnlessParentActs(s, st, i, j);
    hide Queued, ParentProgram, ChildProgram, Rank;
    assert forall k: nat :: Taken(s, k, i, j) <==> Taken(s, k, i + 1, j);
  }

  lemma {:induction false} ChildSkips(s: seq<Item>, after: seq<ParentOp>, st: State, i: nat, j: nat)
    requires At(s, after, st, i, j) && j < |s| && s[j].ParentDoes?
    ensures At(s, after, st, i, j + 1)
  {
    assert ChildProgram(s[j..]) == ChildProgram(s[j + 1..]) by {
      assert s[j..][1..] == s[j + 1..];
      assert ChildSide(s[j..]) == [] + ChildSide(s[j + 1..]);
    }
    QueueUnlessChildActs(s, st, i, j);
    hide Queued, ParentProgram, ChildProgram, Rank;
    assert forall k: nat :: Taken(s, k, i, j) <==> Taken(s, k, i, j + 1);
  }

  /** The parent stands at an item of its own, or past the script. */
  lemma {:induction false} ParentArrives(s: seq<Item>, after: seq<ParentOp>, st: State, i: nat, j: nat) returns (i': nat)
    requires At(s, after, st, i, j)
    ensures At(s, after, st, i', j) && i <= i' <= |s| && (i' < |s| ==> !s[i'].ChildDoes?)
    decreases |s| - i
  {
    i' := i;
    if i < |s| && s[i].ChildDoes? {
      ParentSkips(s, after, st, i, j);
      i' := ParentArrives(s, after, st, i + 1, j);
    }
  }

  lemma {:induction false} ChildArrives(s: seq<Item>, after: seq<ParentOp>, st: State, i: nat, j: nat) returns (j': nat)
    requires At(s, after, st, i, j)
    ensures At(s, after, st, i, j') && j <= j' <= |s| && (j' < |s| ==> !s[j'].ParentDoes?)
    decreases |s| - j
  {
    j' := j;
    if j < |s| && s[j].ParentDoes? {
      ChildSkips(s, after, st, i, j);
      j' := ChildArrives(s, after, st, i, j + 1);
    }
  }

  lemma {:induction false} BeginsAt(s: seq<Item>, after: seq<ParentOp>)
    ensures At(s, after, Start(ParentProgram(s, after), ChildProgram(s)), 0, 0)
  {
  }

  // ---- what each receive gets ----

  lemma {:induction false} ParentGets(s: seq<Item>, after: seq<ParentOp>, st: State, i: nat, j: nat)
    requires At(s, after, st, i, j) && Bodies(st.up) != [] && (i < |s| ==> !s[i].ChildDoes?)
    ensures i < j && i < |s| && (s[i].Up? ==> Bodies(st.up)[0] == s[i].body)
  {
  }

  lemma {:induction false} HeadOfBodies(queue: seq<Message>)
    requires queue != []
    ensures queue[0].Log? ==> Bodies(queue) == Bodies(queue[1..])
    ensures queue[0].Control? ==> Bodies(queue) == [queue[0].body] + Bodies(queue[1..])
  {
  }

  // ---- the queues, turn by turn ----

  lemma {:induction false} EmptyStretch(s: seq<Item>, k: nat)
    requires k <= |s|
    ensures Ups(s[k..k]) == [] && Downs(s[k..k]) == [] && !HasUp(s, k, k) && !HasDown(s, k, k)
  {
  }

  /** A stretch and the stretch without its first item. */
  lemma {:induction false} StretchTail(s: seq<Item>, lo: nat, hi: nat)
    requires lo < hi <= |s|
    ensures Ups(s[lo..hi]) == (if s[lo].Up? then [s[lo].body] else []) + Ups(s[lo + 1..hi])
    ensures Downs(s[lo..hi]) == (if s[lo].Down? then [s[lo].body] else []) + Downs(s[lo + 1..hi])
    ensures !HasUp(s, lo, hi) <==> !HasUp(s, lo + 1, hi) && !s[lo].Up?
    ensures !HasDown(s, lo, hi) <==> !HasDown(s, lo + 1, hi) && !s[lo].Down?
  {
  }

  /** A stretch and the stretch with one more item at its end. */
  lemma {:induction false} StretchGrows(s: seq<Item>, lo: nat, hi: nat)
    requires lo <= hi < |s|
    ensures Ups(s[lo..hi + 1]) == Ups(s[lo..hi]) + (if s[hi].Up? then [s[hi].body] else [])
    ensures Downs(s[lo..hi + 1]) == Downs(s[lo..hi]) + (if s[hi].Down? then [s[hi].body] else [])
    ensures !HasUp(s, lo, hi + 1) <==> !HasUp(s, lo, hi) && !s[hi].Up?
    ensures !HasDown(s, lo, hi + 1) <==> !HasDown(s, lo, hi) && !s[hi].Down?
  {
    StretchEnd(s, lo, hi);
    NoUpsWithout(s, lo, hi);
    NoUpsWithout(s, lo, hi + 1);
  }

  lemma {:induction false} QueueUnlessParentActs(s: seq<Item>, st: State, i: nat, j: nat)
    requires Queued(s, st, i, j) && i < |s| && ActOf(s[i]).Some?
    ensures Queued(s, st, i + 1, j)
  {
    hide Ups, Downs, HasUp, HasDown, Bodies;
    EmptyStretch(s, i);
    if i < j {
      StretchTail(s, i, j);
    } else {
      StretchGrows(s, j, i);
    }
  }

  lemma {:induction false} QueueUnlessChildActs(s: seq<Item>, st: State, i: nat, j: nat)
    requires Queued(s, st, i, j) && j < |s| && ActOf(s[j]).Some?
    ensures Queued(s, st, i, j + 1)
  {
    hide Ups, Downs, HasUp, HasDown, Bodies;
    EmptyStretch(s, j);
    if j < i {
      StretchTail(s, j, i);
    } else {
      StretchGrows(s, i, j);
    }
  }

  lemma {:induction false} QueueAfterSend(s: seq<Item>, st: State, i: nat, j: nat)
    requires Queued(s, st, i, j) && j < |s| && s[j].Up?
    ensures Queued(s, st.(up := st.up + [Control(s[j].body)]), i, j + 1)
  {
    assert Bodies([Control(s[j].body)]) == [s[j].body];
    hide Ups, Downs, HasUp, HasDown, Bodies;
    EmptyStretch(s, j);
    if j < i {
      StretchTail(s, j, i);
    } else {
      StretchGrows(s, i, j);
      BodiesAppend(st.up, [Control(s[j].body)]);
    }
  }

  lemma {:induction false} QueueAfterWait(s: seq<Item>, st: State, i: nat, j: nat)
    requires Queued(s, st, i, j) && i < |s| && s[i].Up? && st.up != [] && st.up[0].Control?
    ensures st.up[0].body == s[i].body && Queued(s, st.(up := st.up[1..]), i + 1, j)
  {
    HeadOfBodies(st.up);
    hide Ups, Downs, HasUp, HasDown, Bodies;
    EmptyStretch(s, i);
    if i < j {
      StretchTail(s, i, j);
      assert Ups(s[i..j])[1..] == Ups(s[i + 1..j]) && Bodies(st.up)[1..] == Bodies(st.up[1..]);
    }
  }

  lemma {:induction false} QueueAfterTell(s: seq<Item>, st: State, i: nat, j: nat)
    requires Queued(s, st, i, j) && i < |s| && s[i].Down?
    ensures j <= i && st.down == Downs(s[j..i])
    ensures Queued(s, st.(down := st.down + [s[i].body]), i + 1, j)
  {
    hide Ups, Downs, HasUp, Bodies;
    EmptyStretch(s, i);
    assert i < j ==> HasDown(s, i, j);
    StretchGrows(s, j, i);
  }

  lemma {:induction false} QueueAfterExpect(s: seq<Item>, st: State, i: nat, j: nat)
    requires Queued(s, st, i, j) && j < |s| && s[j].Down? && st.down != []
    ensures st.down[0] == s[j].body && Queued(s, st.(down := st.down[1..]), i, j + 1)
  {
  }

  // ---- the parent's turns ----

  lemma {:induction false} ParentReceives(s: seq<Item>, after: seq<ParentOp>, st: State, i: nat, j: nat)
    requires At(s, after, st, i, j) && i < |s| && s[i].Up? && st.up != []
    requires ParentRuns(st) && st.parentTodo == ParentProgram(s[i..], after)
    ensures st.up[0].Log? ==> At(s, after, ParentStep(st), i, j)
    ensures st.up[0].Control? ==> st.up[0].body == s[i].body && At(s, after, ParentStep(st), i + 1, j)
    ensures ParentStep(st).failed == st.failed
  {
    hide Ups, Downs, HasUp, HasDown, Bodies, ParentProgram, ChildProgram, Rank;
    ParentHead(s, after, i);
    HeadOfBodies(st.up);
    if st.up[0].Control? {
      QueueAfterWait(s, st, i, j);
      hide Queued;
      assert forall k: nat :: Taken(s, k, i, j) <==> Taken(s, k, i + 1, j);
      assert ParentStep(st).parentTodo == ParentProgram(s[i + 1..], after);
    } else {
      assert ParentStep(st) == st.(up := st.up[1..]);
    }
  }

  lemma {:induction false} ParentTells(s: seq<Item>, after: seq<ParentOp>, st: State, i: nat, j: nat)
    requires At(s, after, st, i, j) && i < |s| && s[i].Down?
    requires ParentRuns(st) && st.parentTodo == ParentProgram(s[i..], after)
    ensures st.alive ==> At(s, after, ParentStep(st), i + 1, j)
    ensures !st.alive ==> At(s, after, ParentStep(st), i, j)
  {
    hide Ups, Downs, HasUp, HasDown, Bodies, ParentProgram, ChildProgram, Rank;
    ParentHead(s, after, i);
    QueueAfterTell(s, st, i, j);
    if st.alive {
      hide Queued;
      assert forall k: nat :: Taken(s, k, i, j) <==> Taken(s, k, i + 1, j);
      assert ParentStep(st).parentTodo == ParentProgram(s[i + 1..], after);
    } else {
      GivingUpKeeps(s, after, st, i, j);
    }
  }

  /** Nothing that comes later in the script has been done when the parent acts. */
  lemma {:induction false} ParentActIsNext(s: seq<Item>, after: seq<ParentOp>, st: State, i: nat, j: nat)
    requires Separated(s) && At(s, after, st, i, j) && i < |s| && s[i].ParentDoes?
    requires st.parentTodo == ParentProgram(s[i..], after)
    ensures forall a :: a in st.trace ==> Rank(a) < Rank(s[i].act)
  {
    NotPastDown(s, st, i, j);
    assert HasDown(s, i, |s|);
    assert st.childTodo != [];
    forall a | a in st.trace ensures Rank(a) < Rank(s[i].act) {
      var k: nat :| Taken(s, k, i, j) && ActOf(s[k]) == Some(a);
      assert s[k].ChildDoes? && i < k ==> HasDown(s, i, k);
      assert k < i;
    }
  }

  /** The child is not past any message the parent has still to send. */
  lemma {:induction false} NotPastDown(s: seq<Item>, st: State, i: nat, j: nat)
    requires Queued(s, st, i, j)
    ensures forall k: nat :: i <= k && k <= j ==> !HasDown(s, i, k)
  {
  }

  lemma {:induction false} NotPastUp(s: seq<Item>, st: State, i: nat, j: nat)
    requires Queued(s, st, i, j)
    ensures forall k: nat :: j <= k && k <= i ==> !HasUp(s, j, k)
  {
  }

  lemma {:induction false} ParentActs(s: seq<Item>, after: seq<ParentOp>, st: State, i: nat, j: nat)
    requires Separated(s) && At(s, after, st, i, j) && i < |s| && s[i].ParentDoes?
    requires ParentRuns(st) && st.parentTodo == ParentProgram(s[i..], after)
    ensures At(s, after, ParentStep(st), i + 1, j)
  {
    hide HasUp, HasDown, Ups, Downs, Bodies, Separated, Rank, ParentProgram, ParentSide, ChildSide;
    ParentHead(s, after, i);
    ParentActIsNext(s, after, st, i, j);
    QueueUnlessParentActs(s, st, i, j);
    OneMoreTaken(s, i, j, i + 1, j, i);
    var st' := ParentStep(st);
    assert st'.parentTodo == ParentProgram(s[i + 1..], after);
    assert Traced(s, after, st', i + 1, j) by {
      hide Todo, Queued;
      TraceGrows(s, after, st, st', i, j, i + 1, j, i, s[i].act);
    }
    hide Traced, Taken;
  }

  lemma {:induction false} OneMoreTaken(s: seq<Item>, i: nat, j: nat, i': nat, j': nat, n: nat)
    requires n < |s|
    requires (i' == i + 1 && j' == j && n == i && s[n].ParentDoes?) || (i' == i && j' == j + 1 && n == j && s[n].ChildDoes?)
    ensures forall k: nat :: Taken(s, k, i', j') <==> Taken(s, k, i, j) || k == n
  {
  }

  /** Appending the action at position n keeps the trace's account. */
  lemma {:induction false} TraceGrows(s: seq<Item>, after: seq<ParentOp>, st: State, st': State, i: nat, j: nat, i': nat, j': nat, n: nat, a: Act)
    requires Traced(s, after, st, i, j) && n < |s| && ActOf(s[n]) == Some(a)
    requires forall k: nat :: Taken(s, k, i', j') <==> Taken(s, k, i, j) || k == n
    requires forall e :: e in st.trace ==> Rank(e) < Rank(a)
    requires st'.trace == st.trace + [a]
    requires (st'.childTodo == [] <==> st.childTodo == []) && (st'.parentTodo == [] <==> st.parentTodo == [])
    ensures Traced(s, after, st', i', j')
  {
  }

  lemma {:induction false} ParentFinishes(s: seq<Item>, after: seq<ParentOp>, st: State, i: nat, j: nat)
    requires Separated(s) && At(s, after, st, i, j) && After(after) && i == |s| && Enabled(st, ParentTurn, 1)
    ensures At(s, after, ParentStep(st), i, j)
    ensures st.parentTodo[0] == AwaitClose && st.up != [] ==> st.up[0].Log?
  {
    ProgramsEnd(s, after);
    hide Separated, ParentProgram, ChildProgram;
    if st.parentTodo == ParentProgram(s[i..], after) {
      ParentDetectsClose(s, after, st, i, j);
    } else {
      ParentRunsPoststart(s, after, st, i, j);
    }
  }

  lemma {:induction false} ParentDetectsClose(s: seq<Item>, after: seq<ParentOp>, st: State, i: nat, j: nat)
    requires At(s, after, st, i, j) && After(after) && i == |s| && Enabled(st, ParentTurn, 1)
    requires st.parentTodo == [AwaitClose] + after && ParentProgram(s[i..], after) == [AwaitClose] + after
    ensures At(s, after, ParentStep(st), i, j)
    ensures st.up != [] ==> st.up[0].Log?
  {
    if st.up == [] {
      hide HasUp, HasDown, Ups, Downs, Bodies, Taken, Rank, ChildProgram;
      if st.sawFatal {
        GivingUpKeeps(s, after, st, i, j);
      } else {
        assert ParentStep(st) == st.(parentTodo := after);
      }
    } else {
      HeadOfBodies(st.up);
      assert Bodies(st.up) != [] ==> false by {
        if Bodies(st.up) != [] {
          ParentGets(s, after, st, i, j);
        }
      }
      hide HasUp, HasDown, Ups, Downs, Bodies, Taken, Rank, ChildProgram;
      assert ParentStep(st) == st.(up := st.up[1..], sawFatal := st.sawFatal || st.up[0].fatal);
    }
  }

  lemma {:induction false} PoststartIsLast(s: seq<Item>, after: seq<ParentOp>, st: State, i: nat, j: nat)
    requires Separated(s) && Traced(s, after, st, i, j) && st.parentTodo != []
    ensures forall e :: e in st.trace ==> Rank(e) < Rank(PoststartHooks)
  {
  }

  lemma {:induction false} ParentRunsPoststart(s: seq<Item>, after: seq<ParentOp>, st: State, i: nat, j: nat)
    requires Separated(s) && At(s, after, st, i, j) && i == |s| && ParentRuns(st)
    requires !st.alive && !st.sawFatal && st.up == [] && st.parentTodo == after == [Do(PoststartHooks)]
    ensures At(s, after, ParentStep(st), i, j)
  {
    hide HasUp, HasDown, Ups, Downs, Bodies, ParentProgram, ChildProgram;
    PoststartIsLast(s, after, st, i, j);
    hide Separated, Taken;
    var st' := ParentStep(st);
    assert st' == st.(parentTodo := [], trace := st.trace + [PoststartHooks]);
    assert forall e :: e in st'.trace <==> e in st.trace || e == PoststartHooks;
  }

  // ---- the child's turns ----

  lemma {:induction false} ChildSends(s: seq<Item>, after: seq<ParentOp>, st: State, i: nat, j: nat)
    requires At(s, after, st, i, j) && j < |s| && s[j].Up?
    requires st.alive && st.childTodo == ChildProgram(s[j..])
    ensures At(s, after, ChildStep(st), i, j + 1)
  {
    hide Ups, Downs, HasUp, HasDown, Bodies, ParentProgram, ChildProgram, Rank;
    ChildHead(s, j);
    QueueAfterSend(s, st, i, j);
    hide Queued;
    assert forall k: nat :: Taken(s, k, i, j) <==> Taken(s, k, i, j + 1);
    assert ChildStep(st).childTodo == ChildProgram(s[j + 1..]);
  }

  lemma {:induction false} ChildReceives(s: seq<Item>, after: seq<ParentOp>, st: State, i: nat, j: nat)
    requires At(s, after, st, i, j) && j < |s| && s[j].Down? && st.down != []
    requires st.alive && st.childTodo == ChildProgram(s[j..])
    ensures st.down[0] == s[j].body
    ensures At(s, after, ChildStep(st), i, j + 1)
  {
    hide Ups, Downs, HasUp, HasDown, Bodies, ParentProgram, ChildProgram, Rank;
    ChildHead(s, j);
    QueueAfterExpect(s, st, i, j);
    hide Queued;
    assert forall k: nat :: Taken(s, k, i, j) <==> Taken(s, k, i, j + 1);
    assert ChildStep(st).childTodo == ChildProgram(s[j + 1..]);
  }

  lemma {:induction false} ChildActIsNext(s: seq<Item>, after: seq<ParentOp>, st: State, i: nat, j: nat)
    requires Separated(s) && At(s, after, st, i, j) && After(after) && j < |s| && s[j].ChildDoes?
    requires st.alive && st.childTodo == ChildProgram(s[j..])
    ensures forall a :: a in st.trace ==> Rank(a) < Rank(s[j].act)
  {
    NotPastUp(s, st, i, j);
    assert st.parentTodo != [];
    forall a | a in st.trace ensures Rank(a) < Rank(s[j].act) {
      var k: nat :| Taken(s, k, i, j) && ActOf(s[k]) == Some(a);
      assert s[k].ParentDoes? && j < k ==> HasUp(s, j, k);
      assert k < j;
    }
  }

  lemma {:induction false} ChildActs(s: seq<Item>, after: seq<ParentOp>, st: State, i: nat, j: nat)
    requires Separated(s) && At(s, after, st, i, j) && After(after) && j < |s| && s[j].ChildDoes?
    requires st.alive && st.childTodo == ChildProgram(s[j..])
    ensures At(s, after, ChildStep(st), i, j + 1)
  {
    hide HasUp, HasDown, Ups, Downs, Bodies, Separated, Rank, ParentProgram, ChildProgram, ParentSide, ChildSide;
    ActIsBelowExec(s, j);
    ChildHead(s, j);
    ChildActIsNext(s, after, st, i, j);
    QueueUnlessChildActs(s, st, i, j);
    OneMoreTaken(s, i, j, i, j + 1, j);
    var st' := ChildStep(st);
    assert st'.childTodo == ChildProgram(s[j + 1..]);
    hide Queued;
    assert Todo(s, after, st', i, j + 1) by {
      hide Traced, Taken;
    }
    hide Todo;
    TraceGrows(s, after, st, st', i, j, i, j + 1, j, s[j].act);
    hide Traced, Taken;
  }

  lemma {:induction false} ActIsBelowExec(s: seq<Item>, k: nat)
    requires Separated(s) && k < |s| && ActOf(s[k]).Some?
    ensures Rank(ActOf(s[k]).value) < Rank(Exec)
  {
  }

  lemma {:induction false} ExecIsNext(s: seq<Item>, after: seq<ParentOp>, st: State, i: nat, j: nat)
    requires Separated(s) && Traced(s, after, st, i, j) && st.parentTodo != [] && st.childTodo != []
    ensures forall e :: e in st.trace ==> Rank(e) < Rank(Exec)
  {
  }

  lemma {:induction false} ChildExecs(s: seq<Item>, after: seq<ParentOp>, st: State, i: nat, j: nat)
    requires Separated(s) && At(s, after, st, i, j) && After(after) && j == |s|
    requires st.alive && st.childTodo == ChildProgram(s[j..])
    ensures At(s, after, ChildStep(st), i, j)
  {
    ProgramsEnd(s, after);
    assert st.parentTodo != [];
    hide HasUp, HasDown, Ups, Downs, Bodies, ParentProgram, ChildProgram;
    ExecIsNext(s, after, st, i, j);
    hide Separated, Taken;
    var st' := ChildStep(st);
    assert st' == st.(childTodo := [], trace := st.trace + [Exec], alive := false);
    assert forall e :: e in st'.trace <==> e in st.trace || e == Exec;
  }

  // ---- every step keeps the invariant ----

  lemma {:induction false} ParentTurnKeeps(s: seq<Item>, after: seq<ParentOp>, st: State, capacity: nat)
    requires Separated(s) && After(after) && Invariant(s, after, st) && Enabled(st, ParentTurn, capacity)
    ensures Invariant(s, after, ParentStep(st))
  {
    var i0: nat, j: nat :| At(s, after, st, i0, j);
    var i := ParentArrives(s, after, st, i0, j);
    hide Queued, Traced, Separated;
    if i == |s| {
      ParentFinishes(s, after, st, i, j);
      assert At(s, after, ParentStep(st), i, j);
    } else {
      assert s[i..][1..] == s[i + 1..];
      match s[i] {
        case Up(b) =>
          if st.up == [] {
            assert At(s, after, ParentStep(st), i, j) by {
              GivingUpKeeps(s, after, st, i, j);
            }
          } else {
            ParentReceives(s, after, st, i, j);
            assert At(s, after, ParentStep(st), i, j) || At(s, after, ParentStep(st), i + 1, j);
          }
        case Down(b) =>
          ParentTells(s, after, st, i, j);
          assert At(s, after, ParentStep(st), i, j) || At(s, after, ParentStep(st), i + 1, j);
        case ParentDoes(a) =>
          ParentActs(s, after, st, i, j);
          assert At(s, after, ParentStep(st), i + 1, j);
      }
    }
  }

  lemma {:induction false} GivingUpKeeps(s: seq<Item>, after: seq<ParentOp>, st: State, i: nat, j: nat)
    requires At(s, after, st, i, j)
    ensures At(s, after, GiveUp(st), i, j)
    ensures At(s, after, st.(alive := false), i, j)
  {
  }

  lemma {:induction false} LoggingKeeps(s: seq<Item>, after: seq<ParentOp>, st: State, fatal: bool, errno: int, i: nat, j: nat)
    requires At(s, after, st, i, j) && st.alive
    ensures At(s, after, st.(up := st.up + [Log(fatal, errno)]), i, j)
  {
    BodiesAppend(st.up, [Log(fatal, errno)]);
    assert Bodies([Log(fatal, errno)]) == [];
  }

  lemma {:induction false} ChildTurnKeeps(s: seq<Item>, after: seq<ParentOp>, st: State, capacity: nat)
    requires Separated(s) && After(after) && Invariant(s, after, st) && Enabled(st, ChildTurn, capacity)
    ensures Invariant(s, after, ChildStep(st))
  {
    var i: nat, j0: nat :| At(s, after, st, i, j0);
    var j := ChildArrives(s, after, st, i, j0);
    hide Queued, Traced, Separated;
    if j == |s| {
      ChildExecs(s, after, st, i, j);
      assert At(s, after, ChildStep(st), i, j);
    } else {
      assert s[j..][1..] == s[j + 1..];
      match s[j] {
        case Up(b) => ChildSends(s, after, st, i, j);
        case Down(b) => ChildReceives(s, after, st, i, j);
        case ChildDoes(a) => ChildActs(s, after, st, i, j);
      }
      assert At(s, after, ChildStep(st), i, j + 1);
    }
  }

  lemma {:induction false} StepKeeps(s: seq<Item>, after: seq<ParentOp>, st: State, step: Step, capacity: nat)
    requires Separated(s) && After(after) && Invariant(s, after, st) && Enabled(st, step, capacity)
    ensures Invariant(s, after, Apply(st, step, capacity))
  {
    var i: nat, j: nat :| At(s, after, st, i, j);
    hide At, Separated, After;
    match step {
      case ParentTurn => ParentTurnKeeps(s, after, st, capacity);
      case ChildTurn => ChildTurnKeeps(s, after, st, capacity);
      case ChildLogs(fatal, errno) => LoggingKeeps(s, after, st, fatal, errno, i, j);
      case ChildCrashes => GivingUpKeeps(s, after, st, i, j);
      case ParentFails => GivingUpKeeps(s, after, st, i, j);
    }
  }

  lemma {:induction false} RunKeeps(s: seq<Item>, after: seq<ParentOp>, st: State, steps: seq<Step>, capacity: nat)
    requires Separated(s) && After(after) && Invariant(s, after, st)
    requires Execute(st, steps, capacity).Some?
    ensures Invariant(s, after, Execute(st, steps, capacity).value)
    decreases |steps|
  {
    hide Invariant, Apply, Enabled;
    if steps != [] {
      StepKeeps(s, after, st, steps[0], capacity);
      RunKeeps(s, after, Apply(st, steps[0], capacity), steps[1..], capacity);
    }
  }

  // ---- what the invariant gives ----

  /** Whatever either side is about to receive is what it expects. */
  ghost predicate ReceivesAreExpected(st: State) {
    && (st.parentTodo != [] && st.up != [] && st.up[0].Control? && (st.parentTodo[0].Wait? || st.parentTodo[0].AwaitClose?)
        ==> st.parentTodo[0] == Wait(st.up[0].body))
    && (st.childTodo != [] && st.down != [] && st.childTodo[0].Expect? ==> st.childTodo[0] == Expect(st.down[0]))
  }

  lemma {:induction false} ParentReceivesExpected(s: seq<Item>, after: seq<ParentOp>, st: State)
    requires After(after) && Invariant(s, after, st)
    requires st.parentTodo != [] && st.up != [] && st.up[0].Control? && (st.parentTodo[0].Wait? || st.parentTodo[0].AwaitClose?)
    ensures st.parentTodo[0] == Wait(st.up[0].body)
  {
    var i0: nat, j: nat :| At(s, after, st, i0, j);
    var i := ParentArrives(s, after, st, i0, j);
    HeadOfBodies(st.up);
    ParentGets(s, after, st, i, j);
    assert s[i..][1..] == s[i + 1..];
  }

  lemma {:induction false} ChildReceivesExpected(s: seq<Item>, after: seq<ParentOp>, st: State)
    requires Invariant(s, after, st)
    requires st.childTodo != [] && st.down != [] && st.childTodo[0].Expect?
    ensures st.childTodo[0] == Expect(st.down[0])
  {
    var i: nat, j0: nat :| At(s, after, st, i, j0);
    var j := ChildArrives(s, after, st, i, j0);
    if j < |s| {
      assert s[j..][1..] == s[j + 1..];
      if s[j].Down? {
        QueueAfterExpect(s, st, i, j);
      }
    }
  }

  lemma {:induction false} InvariantReceives(s: seq<Item>, after: seq<ParentOp>, st: State)
    requires After(after) && Invariant(s, after, st)
    ensures ReceivesAreExpected(st)
  {
    hide Invariant, After;
    if st.parentTodo != [] && st.up != [] && st.up[0].Control? && (st.parentTodo[0].Wait? || st.parentTodo[0].AwaitClose?) {
      ParentReceivesExpected(s, after, st);
    }
    if st.childTodo != [] && st.down != [] && st.childTodo[0].Expect? {
      ChildReceivesExpected(s, after, st);
    }
  }

  /** Between two messages to the child there is one from it, so at most one is on its way. */
  lemma {:induction false} AtMostOneDown(s: seq<Item>, after: seq<ParentOp>, st: State)
    requires Separated(s) && Invariant(s, after, st)
    ensures |st.down| <= 1
  {
    var i: nat, j: nat :| At(s, after, st, i, j);
    if st.down != [] {
      FewDowns(s, j, i);
    }
  }

  lemma {:induction false} FewDowns(s: seq<Item>, lo: nat, hi: nat)
    requires Separated(s) && lo <= hi <= |s| && !HasUp(s, lo, hi)
    ensures |Downs(s[lo..hi])| <= 1
    decreases hi - lo
  {
    if lo < hi {
      StretchTail(s, lo, hi);
      FewDowns(s, lo + 1, hi);
      if s[lo].Down? {
        forall d: nat | lo < d < hi ensures !s[d].Down? {
          assert s[d].Down? ==> HasUp(s, lo, d);
          assert HasUp(s, lo, d) ==> HasUp(s, lo, hi);
        }
        NoUpsWithout(s, lo + 1, hi);
      }
    }
  }

  /** Some process can go on with its program, unless the parent is through or has given up. */
  lemma {:induction false} NeverStuck(s: seq<Item>, after: seq<ParentOp>, st: State, capacity: nat)
    requires Separated(s) && After(after) && Invariant(s, after, st) && capacity >= 1 && ParentRuns(st)
    ensures Enabled(st, ParentTurn, capacity) || Enabled(st, ChildTurn, capacity)
  {
    if !Enabled(st, ParentTurn, capacity) {
      var i0: nat, j0: nat :| At(s, after, st, i0, j0);
      var i := ParentArrives(s, after, st, i0, j0);
      var j := ChildArrives(s, after, st, i, j0);
      ParentTellsFreely(s, after, st, i, j);
      ChildCanGoOn(s, after, st, i, j);
    }
  }

  /** A message to the child is sent only when none is on its way. */
  lemma {:induction false} ParentTellsFreely(s: seq<Item>, after: seq<ParentOp>, st: State, i: nat, j: nat)
    requires Separated(s) && After(after) && At(s, after, st, i, j) && (i < |s| ==> !s[i].ChildDoes?)
    ensures st.parentTodo != [] && st.parentTodo[0].Tell? ==> st.down == []
  {
    if i < |s| && st.parentTodo != [] && st.parentTodo[0].Tell? {
      assert s[i..][1..] == s[i + 1..];
      assert s[i].Down?;
      QueueAfterTell(s, st, i, j);
      forall d: nat | j <= d < i ensures !s[d].Down? {
        assert s[d].Down? ==> HasUp(s, d, i);
        assert HasUp(s, d, i) ==> HasUp(s, j, i);
      }
      NoUpsWithout(s, j, i);
    }
  }

  /** When the parent waits for a message that has not come, the child has something to do. */
  lemma {:induction false} ChildCanGoOn(s: seq<Item>, after: seq<ParentOp>, st: State, i: nat, j: nat)
    requires After(after) && At(s, after, st, i, j) && (i < |s| ==> !s[i].ChildDoes?) && (j < |s| ==> !s[j].ParentDoes?)
    requires ParentRuns(st) && !Enabled(st, ParentTurn, 1)
    requires st.parentTodo[0].Wait? || st.parentTodo[0].AwaitClose?
    ensures Enabled(st, ChildTurn, 1)
  {
  }

  // ---- runs end ----

  function Measure(st: State): nat {
    3 * (|st.parentTodo| + |st.childTodo|) + |st.up| + (if st.alive then 1 else 0) + (if st.failed then 0 else 1)
  }

  lemma {:induction false} StepDecreases(st: State, step: Step, capacity: nat)
    requires Enabled(st, step, capacity)
    ensures !step.ChildLogs? ==> Measure(Apply(st, step, capacity)) < Measure(st)
    ensures step.ChildLogs? ==> Measure(Apply(st, step, capacity)) == Measure(st) + 1
  {
  }

  function Logs(steps: seq<Step>): nat {
    if steps == [] then 0 else (if steps[0].ChildLogs? then 1 else 0) + Logs(steps[1..])
  }

  /** However it is scheduled, a run takes no more steps than the programs and the logs allow. */
  lemma {:induction false} RunsEnd(st: State, steps: seq<Step>, capacity: nat)
    requires Execute(st, steps, capacity).Some?
    ensures |steps| <= Measure(st) + 2 * Logs(steps)
    decreases |steps|
  {
    if steps != [] {
      StepDecreases(st, steps[0], capacity);
      RunsEnd(Apply(st, steps[0], capacity), steps[1..], capacity);
    }
  }

  // ---- the order of actions ----

  ghost predicate InScript(s: seq<Item>, a: Act) {
    exists k :: 0 <= k < |s| && ActOf(s[k]) == Some(a)
  }

  /** Actions have happened by rank, and none before all the script's lower ones. */
  ghost predicate InOrder(s: seq<Item>, trace: seq<Act>) {
    && (forall x, y :: 0 <= x < y < |trace| ==> Rank(trace[x]) < Rank(trace[y]))
    && (forall e, a :: e in trace && InScript(s, a) && Rank(a) < Rank(e) ==> a in trace)
  }

  lemma {:induction false} EarlierIsTaken(s: seq<Item>, after: seq<ParentOp>, st: State, i: nat, j: nat, e: Act, m: nat)
    requires Separated(s) && At(s, after, st, i, j) && After(after) && e in st.trace
    requires m < |s| && ActOf(s[m]).Some? && Rank(ActOf(s[m]).value) < Rank(e)
    ensures ActOf(s[m]).value in st.trace
  {
    hide HasUp, HasDown, Ups, Downs, Bodies, ParentProgram, ChildProgram;
    if k: nat :| Taken(s, k, i, j) && ActOf(s[k]) == Some(e) {
      assert m < k by {
        assert Rank(ActOf(s[m]).value) < Rank(ActOf(s[k]).value);
      }
      TakenBefore(s, st, i, j, m, k);
      assert Taken(s, m, i, j);
    } else {
      TakenAtEnd(s, after, st, i, j, m);
      assert Taken(s, m, i, j);
    }
  }

  /** What precedes an action that is taken has been taken. */
  lemma {:induction false} TakenBefore(s: seq<Item>, st: State, i: nat, j: nat, m: nat, k: nat)
    requires Separated(s) && Queued(s, st, i, j) && Taken(s, k, i, j) && m < k && ActOf(s[m]).Some? && ActOf(s[k]).Some?
    ensures Taken(s, m, i, j)
  {
    hide Ups, Downs, Bodies;
    NotPastDown(s, st, i, j);
    NotPastUp(s, st, i, j);
    if s[m].ParentDoes? && s[k].ChildDoes? {
      assert HasDown(s, m, k);
      var d: nat :| m <= d < k && s[d].Down?;
      assert i <= d ==> HasDown(s, i, k);
    }
    if s[m].ChildDoes? && s[k].ParentDoes? {
      assert HasUp(s, m, k);
      var u: nat :| m <= u < k && s[u].Up?;
      assert j <= u ==> HasUp(s, j, k);
    }
  }

  /** Only past wait_for_close does the parent have so little left to do. */
  lemma {:induction false} PastClose(s: seq<Item>, after: seq<ParentOp>, st: State, i: nat, j: nat)
    requires Todo(s, after, st, i, j) && (st.parentTodo == [] || st.parentTodo == [Do(PoststartHooks)])
    ensures i == |s| && !st.alive && !st.sawFatal && st.up == []
  {
    assert ParentProgram(s[i..], after)[|ParentSide(s[i..])|] == AwaitClose;
  }

  /** When the child has exec'ed, or the parent has seen it gone, the whole script has been acted. */
  lemma {:induction false} TakenAtEnd(s: seq<Item>, after: seq<ParentOp>, st: State, i: nat, j: nat, m: nat)
    requires Separated(s) && At(s, after, st, i, j) && After(after) && m < |s| && ActOf(s[m]).Some?
    requires (st.childTodo == [] && Exec in st.trace) || st.parentTodo == [] || st.parentTodo == [Do(PoststartHooks)]
    ensures Taken(s, m, i, j)
  {
    hide Ups, Downs, Bodies, ParentSide, ChildSide;
    NotPastDown(s, st, i, j);
    NotPastUp(s, st, i, j);
    if st.parentTodo == [] || st.parentTodo == [Do(PoststartHooks)] {
      PastClose(s, after, st, i, j);
    }
    if s[m].ParentDoes? {
      assert HasDown(s, m, |s|);
      var d: nat :| m <= d < |s| && s[d].Down?;
      assert HasDown(s, i, |s|) || d < i;
    } else {
      assert HasUp(s, m, |s|);
      var u: nat :| m <= u < |s| && s[u].Up?;
      assert HasUp(s, j, |s|) || u < j;
    }
  }

  lemma {:induction false} InvariantInOrder(s: seq<Item>, after: seq<ParentOp>, st: State)
    requires Separated(s) && After(after) && Invariant(s, after, st)
    ensures InOrder(s, st.trace)
  {
    var i: nat, j: nat :| At(s, after, st, i, j);
    forall e, a | e in st.trace && InScript(s, a) && Rank(a) < Rank(e) ensures a in st.trace {
      var m: nat :| m < |s| && ActOf(s[m]) == Some(a);
      EarlierIsTaken(s, after, st, i, j, e, m);
    }
  }

  /** The parent passes wait_for_close only when everything is done, the child's end is closed and no
      fatal log has come since exec_ready. */
  lemma {:induction false} StartedMeansDone(s: seq<Item>, after: seq<ParentOp>, st: State)
    requires Separated(s) && After(after) && Invariant(s, after, st)
    requires st.parentTodo == [] || st.parentTodo == [Do(PoststartHooks)]
    ensures !st.alive && !st.sawFatal && st.up == []
    ensures forall a :: InScript(s, a) ==> a in st.trace
  {
    var i: nat, j: nat :| At(s, after, st, i, j);
    PastClose(s, after, st, i, j);
    forall a | InScript(s, a) ensures a in st.trace {
      var m: nat :| m < |s| && ActOf(s[m]) == Some(a);
      TakenAtEnd(s, after, st, i, j, m);
    }
  }

  // ---- runs in which nothing fails ----

  predicate Benign(step: Step) {
    step == ParentTurn || step == ChildTurn || (step.ChildLogs? && !step.fatal)
  }

  predicate IsFatal(m: Message) {
    m.Log? && m.fatal
  }

  ghost predicate Clean(st: State) {
    && !st.failed && !st.sawFatal
    && (forall k :: 0 <= k < |st.up| ==> !IsFatal(st.up[k]))
    && (!st.alive ==> st.childTodo == [])
  }

  lemma {:induction false} NothingQueued(st: State)
    ensures st.up == [] ==> Bodies(st.up) == []
  {
  }

  /** A child that has exec'ed has sent everything, so the parent finds what it waits for. */
  lemma {:induction false} ExecedHasSent(s: seq<Item>, after: seq<ParentOp>, st: State)
    requires After(after) && Invariant(s, after, st) && ParentRuns(st) && !st.alive && st.childTodo == []
    ensures st.parentTodo[0].Wait? ==> st.up != []
    ensures !st.parentTodo[0].Tell?
  {
    var i0: nat, j: nat :| At(s, after, st, i0, j);
    var i := ParentArrives(s, after, st, i0, j);
    hide Ups, Downs, HasUp, HasDown, Bodies, ParentProgram, ChildProgram, Traced;
    ProgramsEnd(s, after);
    if i < |s| {
      ParentHead(s, after, i);
      StretchTail(s, i, j);
      NothingQueued(st);
    }
  }

  lemma {:induction false} CleanParentStep(s: seq<Item>, after: seq<ParentOp>, st: State, capacity: nat)
    requires After(after) && Invariant(s, after, st) && Clean(st) && Enabled(st, ParentTurn, capacity)
    ensures Clean(ParentStep(st))
  {
    InvariantReceives(s, after, st);
    if !st.alive {
      ExecedHasSent(s, after, st);
    }
    hide Invariant, After;
    var st' := ParentStep(st);
    assert !st'.failed;
    assert st'.up == st.up || (st.up != [] && st'.up == st.up[1..]);
    forall k | 0 <= k < |st'.up| ensures !IsFatal(st'.up[k]) {
      assert st'.up[k] == st.up[k] || (k + 1 < |st.up| && st'.up[k] == st.up[k + 1]);
    }
  }

  lemma {:induction false} ExecIsLast(s: seq<Item>, after: seq<ParentOp>, st: State)
    requires Separated(s) && Invariant(s, after, st) && st.childTodo != [] && st.childTodo[0] == Perform(Exec)
    ensures |st.childTodo| == 1
  {
    assert forall k :: 0 <= k < |s| ==> ActOf(s[k]) != Some(Exec);
    var i: nat, j0: nat :| At(s, after, st, i, j0);
    var j := ChildArrives(s, after, st, i, j0);
    hide Queued, Traced;
    assert j < |s| ==> s[j..][1..] == s[j + 1..];
    assert j == |s| ==> s[j..] == [];
  }

  lemma {:induction false} CleanChildStep(st: State)
    requires ReceivesAreExpected(st) && Clean(st) && Enabled(st, ChildTurn, |st.up| + 1)
    requires st.childTodo[0] == Perform(Exec) ==> |st.childTodo| == 1
    ensures Clean(ChildStep(st))
  {
  }

  lemma {:induction false} CleanStep(s: seq<Item>, after: seq<ParentOp>, st: State, step: Step, capacity: nat)
    requires Separated(s) && After(after) && Invariant(s, after, st) && Clean(st)
    requires Benign(step) && Enabled(st, step, capacity)
    ensures Clean(Apply(st, step, capacity))
  {
    InvariantReceives(s, after, st);
    match step {
      case ParentTurn =>
        hide Invariant, Clean, Enabled, After, Separated, ReceivesAreExpected;
        CleanParentStep(s, after, st, capacity);
      case ChildTurn =>
        if st.childTodo[0] == Perform(Exec) {
          ExecIsLast(s, after, st);
        }
        hide Invariant, Clean, After, Separated, ReceivesAreExpected;
        CleanChildStep(st);
      case ChildLogs(_, _) =>
        hide Invariant, After, Separated, ReceivesAreExpected;
    }
  }

  lemma {:induction false} CleanRun(s: seq<Item>, after: seq<ParentOp>, st: State, steps: seq<Step>, capacity: nat)
    requires Separated(s) && After(after) && Invariant(s, after, st) && Clean(st)
    requires (forall k :: 0 <= k < |steps| ==> Benign(steps[k])) && Execute(st, steps, capacity).Some?
    ensures Clean(Execute(st, steps, capacity).value)
    decreases |steps|
  {
    hide Invariant, Apply, Enabled, Clean, Benign, Separated, After;
    if steps != [] {
      assert Benign(steps[0]);
      CleanStep(s, after, st, steps[0], capacity);
      StepKeeps(s, after, st, steps[0], capacity);
      CleanRun(s, after, Apply(st, steps[0], capacity), steps[1..], capacity);
    }
  }

  /** When nothing fails, a run that can go no further has started the container. */
  lemma {:induction false} CleanRunsComplete(s: seq<Item>, after: seq<ParentOp>, steps: seq<Step>, capacity: nat)
    requires Sound(s) && After(after) && capacity >= 1
    requires forall k :: 0 <= k < |steps| ==> Benign(steps[k])
    requires Execute(Start(ParentProgram(s, after), ChildProgram(s)), steps, capacity).Some?
    requires var st := Execute(Start(ParentProgram(s, after), ChildProgram(s)), steps, capacity).value;
             !Enabled(st, ParentTurn, capacity) && !Enabled(st, ChildTurn, capacity)
    ensures var st := Execute(Start(ParentProgram(s, after), ChildProgram(s)), steps, capacity).value;
            && st.parentTodo == [] && !st.failed && Exec in st.trace
            && (forall a :: InScript(s, a) ==> a in st.trace)
            && (after != [] ==> PoststartHooks in st.trace)
  {
    var st0 := Start(ParentProgram(s, after), ChildProgram(s));
    SoundIsSeparated(s);
    BeginsAt(s, after);
    assert Invariant(s, after, st0) && Clean(st0);
    RunKeeps(s, after, st0, steps, capacity);
    CleanRun(s, after, st0, steps, capacity);
    var st := Execute(st0, steps, capacity).value;
    hide Execute, Separated, Sound;
    if ParentRuns(st) {
      NeverStuck(s, after, st, capacity);
    }
    assert st.parentTodo == [];
    StartedMeansDone(s, after, st);
    ExecAndPoststart(s, after, st);
  }

  lemma {:induction false} ExecAndPoststart(s: seq<Item>, after: seq<ParentOp>, st: State)
    requires Separated(s) && After(after) && Invariant(s, after, st)
    ensures st.childTodo == [] ==> Exec in st.trace
    ensures st.parentTodo == [] && after != [] ==> PoststartHooks in st.trace
  {
  }

  // ---- a closed socket is taken for exec ----

  /** Past wait_for_close. */
  predicate Accepted(st: State) {
    AwaitClose !in st.parentTodo
  }

  /** Why the child is gone: it crashed before its exec, or else it has exec'ed or been killed by the parent. */
  ghost predicate Fate(st: State, crashed: bool) {
    && (crashed ==> !st.alive && st.childTodo != [])
    && (!crashed && !st.alive ==> st.childTodo == [] || (st.failed && !Accepted(st)))
  }

  lemma {:induction false} AcceptedIsAtEnd(s: seq<Item>, after: seq<ParentOp>, st: State)
    requires After(after) && Invariant(s, after, st)
    ensures Accepted(st) ==> !st.alive && (st.parentTodo == [] || st.parentTodo == [Do(PoststartHooks)])
    ensures st.parentTodo != [] && !st.parentTodo[0].Do? ==> !Accepted(st)
    ensures st.alive ==> st.childTodo != [] && !Accepted(st)
  {
    var i: nat, j: nat :| At(s, after, st, i, j);
    hide Queued, Traced;
    assert ParentProgram(s[i..], after)[|ParentSide(s[i..])|] == AwaitClose;
  }

  lemma {:induction false} FateOfTurn(st: State, crashed: bool, capacity: nat)
    requires Fate(st, crashed) && Enabled(st, ParentTurn, capacity)
    requires !st.parentTodo[0].Do? ==> !Accepted(st)
    requires st.alive ==> !Accepted(st)
    ensures Fate(ParentStep(st), crashed)
  {
    var st' := ParentStep(st);
    assert st'.parentTodo == st.parentTodo || st'.parentTodo == st.parentTodo[1..];
    assert st.parentTodo[0] == AwaitClose || (Accepted(st.(parentTodo := st.parentTodo[1..])) ==> Accepted(st));
  }

  lemma {:induction false} FateOfStep(s: seq<Item>, after: seq<ParentOp>, st: State, crashed: bool, step: Step, capacity: nat)
    requires Separated(s) && After(after) && Invariant(s, after, st) && Fate(st, crashed) && Enabled(st, step, capacity)
    ensures Fate(Apply(st, step, capacity), crashed || step == ChildCrashes)
  {
    AcceptedIsAtEnd(s, after, st);
    InvariantReceives(s, after, st);
    match step {
      case ParentTurn =>
        hide Invariant, After, Separated, ReceivesAreExpected, Fate, Accepted;
        FateOfTurn(st, crashed, capacity);
      case ChildTurn =>
        if st.childTodo[0] == Perform(Exec) {
          ExecIsLast(s, after, st);
        }
        hide Invariant, After, Separated, Accepted;
      case _ =>
        hide Invariant, After, Separated, ReceivesAreExpected, Accepted;
    }
  }

  lemma {:induction false} FateOfRun(s: seq<Item>, after: seq<ParentOp>, st: State, crashed: bool, steps: seq<Step>, capacity: nat)
    requires Separated(s) && After(after) && Invariant(s, after, st) && Fate(st, crashed)
    requires Execute(st, steps, capacity).Some?
    ensures Invariant(s, after, Execute(st, steps, capacity).value)
    ensures Fate(Execute(st, steps, capacity).value, crashed || ChildCrashes in steps)
    decreases |steps|
  {
    hide Invariant, Apply, Enabled, Fate, Separated, After;
    if steps != [] {
      FateOfStep(s, after, st, crashed, steps[0], capacity);
      StepKeeps(s, after, st, steps[0], capacity);
      FateOfRun(s, after, Apply(st, steps[0], capacity), crashed || steps[0] == ChildCrashes, steps[1..], capacity);
      assert ChildCrashes in steps <==> steps[0] == ChildCrashes || ChildCrashes in steps[1..];
    }
  }

  lemma {:induction false} ExecedIff(s: seq<Item>, after: seq<ParentOp>, st: State)
    requires Separated(s) && After(after) && Invariant(s, after, st)
    ensures Exec in st.trace <==> st.childTodo == []
    ensures PoststartHooks in st.trace ==> st.parentTodo == []
  {
    var i: nat, j: nat :| At(s, after, st, i, j);
    NotScripted(s);
    hide Todo, Queued, Separated, After, Rank, ActOf;
  }

  lemma {:induction false} NotScripted(s: seq<Item>)
    requires Separated(s)
    ensures forall k: nat :: k < |s| ==> ActOf(s[k]) != Some(Exec) && ActOf(s[k]) != Some(PoststartHooks)
  {
    hide HasUp, HasDown;
  }

  /**
   wait_for_close takes a closed socket for an exec: once the parent is past it, the child has exec'ed if and
   only if it did not crash.
   */
  lemma {:induction false} AcceptedIsExecedIff(s: seq<Item>, after: seq<ParentOp>, steps: seq<Step>, capacity: nat)
    requires Sound(s) && After(after)
    requires Execute(Start(ParentProgram(s, after), ChildProgram(s)), steps, capacity).Some?
    requires Accepted(Execute(Start(ParentProgram(s, after), ChildProgram(s)), steps, capacity).value)
    ensures Exec in Execute(Start(ParentProgram(s, after), ChildProgram(s)), steps, capacity).value.trace <==> ChildCrashes !in steps
  {
    var st0 := Start(ParentProgram(s, after), ChildProgram(s));
    SoundIsSeparated(s);
    BeginsAt(s, after);
    assert Invariant(s, after, st0) && Fate(st0, false);
    hide Invariant, Separated, Execute, ParentProgram, ChildProgram, Sound, After;
    FateOfRun(s, after, st0, false, steps, capacity);
    var st := Execute(st0, steps, capacity).value;
    AcceptedIsAtEnd(s, after, st);
    ExecedIff(s, after, st);
  }

  /** No queue ever holds more than there is room for. */
  lemma {:induction false} QueuesHold(st: State, steps: seq<Step>, capacity: nat)
    requires |st.up| <= capacity && |st.down| <= capacity && Execute(st, steps, capacity).Some?
    ensures var end := Execute(st, steps, capacity).value; |end.up| <= capacity && |end.down| <= capacity
    decreases |steps|
  {
    if steps != [] {
      QueueHolds(st, steps[0], capacity);
      hide Enabled, Apply;
      QueuesHold(Apply(st, steps[0], capacity), steps[1..], capacity);
    }
  }

  lemma {:induction false} QueueHolds(st: State, step: Step, capacity: nat)
    requires |st.up| <= capacity && |st.down| <= capacity && Enabled(st, step, capacity)
    ensures var next := Apply(st, step, capacity); |next.up| <= capacity && |next.down| <= capacity
  {
    if step == ParentTurn && st.parentTodo[0].Tell? && st.alive {
      assert |st.down| < capacity;
    }
  }

  // ---- the main results ----

  /** Everything a reachable state of the two programs guarantees. */
  ghost predicate Safe(s: seq<Item>, st: State, capacity: nat) {
    && (ParentRuns(st) ==> Enabled(st, ParentTurn, capacity) || Enabled(st, ChildTurn, capacity))
    && ReceivesAreExpected(st)
    && |st.down| <= 1 && |st.up| <= capacity
    && InOrder(s, st.trace)
    && (st.parentTodo == [] ==> !st.alive && !st.sawFatal && forall a :: InScript(s, a) ==> a in st.trace)
  }

  lemma {:induction false} RunsAreSafe(s: seq<Item>, after: seq<ParentOp>, steps: seq<Step>, capacity: nat)
    requires Sound(s) && After(after) && capacity >= 1
    requires Execute(Start(ParentProgram(s, after), ChildProgram(s)), steps, capacity).Some?
    ensures Safe(s, Execute(Start(ParentProgram(s, after), ChildProgram(s)), steps, capacity).value, capacity)
    ensures |steps| <= Measure(Start(ParentProgram(s, after), ChildProgram(s))) + 2 * Logs(steps)
  {
    var st0 := Start(ParentProgram(s, after), ChildProgram(s));
    SoundIsSeparated(s);
    BeginsAt(s, after);
    assert Invariant(s, after, st0);
    hide Invariant, Separated, Execute, ParentProgram, ChildProgram, Measure, Enabled, InOrder, ReceivesAreExpected, After;
    RunsEnd(st0, steps, capacity);
    QueuesHold(st0, steps, capacity);
    RunKeeps(s, after, st0, steps, capacity);
    var st := Execute(st0, steps, capacity).value;
    if ParentRuns(st) {
      NeverStuck(s, after, st, capacity);
    }
    InvariantReceives(s, after, st);
    AtMostOneDown(s, after, st);
    InvariantInOrder(s, after, st);
    if st.parentTodo == [] {
      StartedMeansDone(s, after, st);
    }
  }
}
