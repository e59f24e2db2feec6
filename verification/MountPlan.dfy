/**
 The order of the container's mounts: what is mounted at once, which read-only remounts wait for the end,
 in what order they are issued, and with what flags. The kernel's answers are scripts.
 */
module MountPlan {
  import opened Results
  import opened MountOptions

  type Flags = set<nat>

  /** One mount system call: where, with what flags, and whether it passes data. */
  datatype Call = Call(target: string, flags: Flags, withData: bool)

  /** A call that was made, and the error it returned. */
  datatype Issued = Issued(call: Call, error: Option<int>)

  function Done(c: Call): Issued {
    Issued(c, None)
  }

  /** The parts of a mount_t that decide. */
  datatype Spec = Spec(
    destination: string,
    kind: Option<string>,
    hasSource: bool,
    flags: Flags,
    propagation: Flags,
    data: string)

  datatype Remount = Remount(target: string, flags: Flags, data: string)

  datatype MountError = Invalid | Failed(errno: int) | AllFallbacksFailed | NotImplemented | NoRemountEntry

  const EPERM := 1
  const NOTHING: Flags := {}
  const INHERITED: Flags := {NOSUID, NODEV, NOEXEC}

  /** A call that makes an existing mount read-only. */
  predicate MakesReadOnly(c: Call) {
    REMOUNT in c.flags && RDONLY in c.flags
  }

  ghost predicate NoneMakesReadOnly(calls: seq<Issued>) {
    forall k :: 0 <= k < |calls| ==> !MakesReadOnly(calls[k].call)
  }

  /** The last of the calls succeeded, or failed; there is one. */
  predicate EndsWell(calls: seq<Issued>) {
    calls != [] && calls[|calls| - 1].error == None
  }

  predicate EndsBadly(calls: seq<Issued>) {
    calls != [] && calls[|calls| - 1].error.Some?
  }

  /** What the calls returned is what the kernel's script says. */
  ghost predicate Answered(calls: seq<Issued>, errors: seq<Option<int>>) {
    forall k :: 0 <= k < |calls| ==> calls[k].error == ErrorAt(errors, k)
  }

  function Behind(errors: seq<Option<int>>, n: nat): seq<Option<int>> {
    if n <= |errors| then errors[n..] else []
  }

  class Kernel {
    /** The errors of the next mount calls and the answers of the next fstatfs calls; then all goes well. */
    var errors: seq<Option<int>>
    var stats: seq<Result<Flags, int>>
    ghost var calls: seq<Issued>

    constructor (errors: seq<Option<int>>, stats: seq<Result<Flags, int>>)
      ensures this.errors == errors && this.stats == stats && calls == []
    {
      this.errors, this.stats, calls := errors, stats, [];
    }

    ghost predicate Agrees()
      reads this
    {
      Willing(errors, stats)
    }

    method Mount(c: Call) returns (e: Option<int>)
      modifies this
      ensures calls == old(calls) + [Issued(c, e)]
      ensures e == ErrorAt(old(errors), 0) && errors == Behind(old(errors), 1) && stats == old(stats)
    {
      e := None;
      if errors != [] {
        e := errors[0];
        errors := errors[1..];
      }
      calls := calls + [Issued(c, e)];
    }

    method StatFs() returns (r: Result<Flags, int>)
      modifies this
      ensures calls == old(calls) && errors == old(errors)
      ensures r == (if old(stats) == [] then Success(NOTHING) else old(stats)[0])
      ensures stats == if old(stats) == [] then [] else old(stats)[1..]
    {
      if stats == [] {
        return Success(NOTHING);
      }
      r := stats[0];
      stats := stats[1..];
    }
  }

  function ErrorAt(errors: seq<Option<int>>, k: nat): Option<int> {
    if k < |errors| then errors[k] else None
  }

  /** Every system call will succeed. */
  ghost predicate Willing(errors: seq<Option<int>>, stats: seq<Result<Flags, int>>) {
    && (forall k :: 0 <= k < |errors| ==> errors[k] == None)
    && (forall k :: 0 <= k < |stats| ==> stats[k].Success?)
  }

  // ---- remounting ----

  function WithFlags(r: Remount, more: Flags): Call {
    Call(r.target, r.flags + more, r.data != "" && REMOUNT !in r.flags && RDONLY !in r.flags)
  }

  /** The calls of one do_remount, given the flags that the destination reports; each comes after the one before failed. */
  predicate Attempts(r: Remount, reported: Flags, calls: seq<Issued>) {
    && 1 <= |calls| <= 3
    && calls[0].call == WithFlags(r, {})
    && (|calls| >= 2 ==>
          && calls[0].error.Some?
          && !(reported * INHERITED <= r.flags) && calls[1].call == WithFlags(r, reported * INHERITED))
    && (|calls| == 3 ==>
          && calls[1].error.Some?
          && RDONLY in reported && calls[2].call == WithFlags(r, reported * (INHERITED + {RDONLY})))
  }

  /** What the next fstatfs reports, or no flags when it fails. */
  function FlagsAt(stats: seq<Result<Flags, int>>): Flags {
    if stats == [] || stats[0].Failure? then {} else stats[0].value
  }

  /** No further attempt is due. */
  predicate Exhausted(r: Remount, reported: Flags, calls: seq<Issued>) {
    || (|calls| == 1 && reported * INHERITED <= r.flags)
    || (|calls| == 2 && RDONLY !in reported)
    || |calls| == 3
  }

  /** Every attempt asks for what was requested, and beyond that only for what the destination has. */
  lemma {:induction false} AttemptsAskForMore(r: Remount, reported: Flags, calls: seq<Issued>, k: nat)
    requires Attempts(r, reported, calls) && k < |calls|
    ensures calls[k].call.target == r.target
    ensures r.flags <= calls[k].call.flags <= r.flags + reported * {NOSUID, NODEV, NOEXEC, RDONLY}
    ensures REMOUNT in r.flags ==> !calls[k].call.withData
  {
  }

  /** For a remount that is read-only itself, the third attempt is the second one again. */
  lemma {:induction false} ThirdAttemptRepeats(r: Remount, reported: Flags, calls: seq<Issued>)
    requires Attempts(r, reported, calls) && |calls| == 3 && RDONLY in r.flags
    ensures calls[2].call == calls[1].call
  {
  }

  /** What do_remount throws when the last attempt has failed. */
  function RemountError(calls: seq<Issued>, stats: seq<Result<Flags, int>>): MountError {
    if |calls| == 1 && stats != [] && stats[0].Failure? then Failed(stats[0].error)
    else if |calls| == 3 && calls[2].error.Some? then Failed(calls[2].error.value)
    else AllFallbacksFailed
  }

  /** do_remount: on an error, retry with the flags the destination has. */
  method DoRemount(kernel: Kernel, r: Remount) returns (e: Option<MountError>, ghost made: seq<Issued>, ghost reported: Flags)
    modifies kernel
    ensures kernel.calls == old(kernel.calls) + made
    ensures Answered(made, old(kernel.errors)) && kernel.errors == Behind(old(kernel.errors), |made|)
    ensures if r.flags !! {BIND, REMOUNT, RDONLY} then e == Some(Invalid) && made == []
            else Attempts(r, reported, made) && e == if EndsWell(made) then None else Some(RemountError(made, old(kernel.stats)))
    ensures e.Some? && made != [] ==> reported == FlagsAt(old(kernel.stats)) && Exhausted(r, reported, made)
    ensures old(kernel.Agrees()) ==> kernel.Agrees() && (REMOUNT in r.flags ==> e == None)
  {
    made, reported := [], {};
    if r.flags !! {BIND, REMOUNT, RDONLY} {
      return Some(Invalid), [], {};
    }
    var withData := r.data != "";
    if REMOUNT in r.flags || RDONLY in r.flags {
      withData := false;
    }
    assert r.flags + {} == r.flags;
    var err := kernel.Mount(Call(r.target, r.flags, withData));
    made := [Issued(Call(r.target, r.flags, withData), err)];
    if err == None {
      return None, made, reported;
    }
    var stat := kernel.StatFs();
    if stat.Failure? {
      return Some(Failed(stat.error)), made, reported;
    }
    reported := stat.value;
    var more := stat.value * INHERITED;
    if more + r.flags != r.flags {
      assert more + r.flags == r.flags + more;
      err := kernel.Mount(Call(r.target, more + r.flags, withData));
      made := made + [Issued(Call(r.target, r.flags + more, withData), err)];
      assert kernel.calls == old(kernel.calls) + made;
      if err == None {
        return None, made, reported;
      }
      if RDONLY in stat.value {
        more := stat.value * (INHERITED + {RDONLY});
        err := kernel.Mount(Call(r.target, r.flags + more, withData));
        made := made + [Issued(Call(r.target, r.flags + more, withData), err)];
        assert kernel.calls == old(kernel.calls) + made;
        if err == None {
          return None, made, reported;
        }
        return Some(Failed(err.value)), made, reported;
      }
    }
    e := Some(AllFallbacksFailed);
  }

  lemma {:induction false} MoreCalls(made: seq<Issued>, more: seq<Issued>)
    ensures NoneMakesReadOnly(made + more) <==> NoneMakesReadOnly(made) && NoneMakesReadOnly(more)
  {
    var all := made + more;
    if NoneMakesReadOnly(all) {
      forall k | 0 <= k < |made| ensures !MakesReadOnly(made[k].call) {
        assert made[k] == all[k];
      }
      forall k | 0 <= k < |more| ensures !MakesReadOnly(more[k].call) {
        assert more[k] == all[|made| + k];
      }
    }
  }

  lemma {:induction false} OneMoreCall(made: seq<Issued>, c: Issued)
    ensures NoneMakesReadOnly(made + [c]) <==> NoneMakesReadOnly(made) && !MakesReadOnly(c.call)
  {
    MoreCalls(made, [c]);
    assert [c][0] == c;
  }

  /** A remount without the read-only flag gets it only from a destination that has it. */
  lemma {:induction false} DirectRemounts(r: Remount, reported: Flags, calls: seq<Issued>)
    requires RDONLY !in r.flags && RDONLY !in reported && (calls == [] || Attempts(r, reported, calls))
    ensures NoneMakesReadOnly(calls)
  {
  }

  // ---- mounting ----

  /** A mount whose own options ask for a read-only remount, of something that is no bind. */
  predicate RemountsItself(m: Spec) {
    REMOUNT in m.flags && RDONLY in m.flags && BIND !in m.flags
  }

  predicate IsCgroup(m: Spec) {
    m.kind.Some? && "cgroup" <= m.kind.value
  }

  /** A mount that the plan itself does not refuse. */
  predicate Mountable(m: Spec) {
    !IsCgroup(m) && (BIND in m.flags ==> m.hasSource)
  }

  /** The remount of a read-only mount. proc is reconfigured itself, anything else through its bind. */
  function Deferred(m: Spec): Remount {
    Remount(m.destination, m.flags + {REMOUNT} + (if m.kind != Some("proc") then {BIND} else {}), m.data)
  }

  /** What else do_mount learns of the container and its root. */
  datatype Context = Context(mapsUids: bool, mountsCgroup: bool, hasCgroup: bool)

  // ---- the calls of a mount that succeeds ----

  function BindCall(m: Spec): Call {
    Call(m.destination, m.flags - {RDONLY}, false)
  }

  function PlainCall(m: Spec): Call {
    Call(m.destination, m.flags, m.data != "")
  }

  function SysBindCall(m: Spec): Call {
    Call(m.destination, {BIND, REC}, false)
  }

  const CGROUP_MASK := Call("/sys/fs/cgroup", {BIND}, false)

  /** A bind without the read-only flag; or the mount; or, for sysfs that is refused, a bind of /sys instead. */
  predicate MountPart(c: Context, m: Spec, calls: seq<Issued>) {
    if BIND in m.flags then calls == [Done(BindCall(m))]
    else
      || calls == [Done(PlainCall(m))]
      || (&& m.kind == Some("sysfs") && c.mapsUids
          && calls == [Issued(PlainCall(m), Some(1)), Done(SysBindCall(m))]
                      + if !c.mountsCgroup && c.hasCgroup then [Done(CGROUP_MASK)] else [])
  }

  function PropagationPart(m: Spec): seq<Issued> {
    if m.propagation != {} then [Done(Call(m.destination, m.propagation, false))] else []
  }

  predicate RemountsAtOnce(m: Spec) {
    RDONLY !in m.flags && (BIND in m.flags || (m.data != "" && m.kind == Some("proc")))
  }

  predicate RemountPart(m: Spec, reported: Flags, calls: seq<Issued>) {
    if RemountsAtOnce(m) then Attempts(Deferred(m), reported, calls) && EndsWell(calls) else calls == []
  }

  /** A mount that succeeded, its calls, and the flags that its destination reported to a remount. */
  datatype Mounted = Mounted(spec: Spec, calls: seq<Issued>, reported: Flags)

  ghost predicate Carried(c: Context, x: Mounted) {
    if IsCgroup(x.spec) then x.calls == []
    else exists a, b :: MountPart(c, x.spec, a) && RemountPart(x.spec, x.reported, b) && x.calls == a + PropagationPart(x.spec) + b
  }

  lemma {:induction false} CarriedBy(c: Context, x: Mounted, a: seq<Issued>, b: seq<Issued>)
    requires !IsCgroup(x.spec) && MountPart(c, x.spec, a) && RemountPart(x.spec, x.reported, b)
    requires x.calls + [] == a + PropagationPart(x.spec) + b
    ensures Carried(c, x)
  {
    assert x.calls + [] == x.calls;
  }

  function SpecsOf(mounted: seq<Mounted>): seq<Spec> {
    seq(|mounted|, k requires 0 <= k < |mounted| => mounted[k].spec)
  }

  function CallsMade(mounted: seq<Mounted>): seq<Issued> {
    if mounted == [] then [] else CallsMade(mounted[..|mounted| - 1]) + mounted[|mounted| - 1].calls
  }

  lemma {:induction false} OneMoreMounted(mounted: seq<Mounted>, x: Mounted)
    ensures SpecsOf(mounted + [x]) == SpecsOf(mounted) + [x.spec]
    ensures CallsMade(mounted + [x]) == CallsMade(mounted) + x.calls
  {
    assert (mounted + [x])[..|mounted|] == mounted;
  }

  lemma {:induction false} DeferredIsRemount(m: Spec)
    ensures REMOUNT in Deferred(m).flags && !(Deferred(m).flags !! {BIND, REMOUNT, RDONLY})
    ensures RemountsAtOnce(m) ==> RDONLY !in Deferred(m).flags
  {
  }

  lemma {:induction false} AttemptsNotEmpty(r: Remount, reported: Flags, calls: seq<Issued>)
    requires Attempts(r, reported, calls)
    ensures calls != []
  {
  }

  lemma {:induction false} AtOnce(m: Spec, reported: Flags, calls: seq<Issued>)
    requires RemountsAtOnce(m) && Attempts(Deferred(m), reported, calls) && EndsWell(calls)
    ensures RemountPart(m, reported, calls)
  {
  }

  lemma {:induction false} CgroupCarried(c: Context, m: Spec)
    requires IsCgroup(m)
    ensures Carried(c, Mounted(m, [], {}))
  {
  }

  lemma {:induction false} BadEnd(r: Remount, reported: Flags, calls: seq<Issued>)
    ensures Attempts(r, reported, calls) && !EndsWell(calls) ==> EndsBadly(calls)
    ensures REMOUNT in r.flags ==> !(r.flags !! {BIND, REMOUNT, RDONLY})
  {
  }

  lemma {:induction false} NothingAnswered(errors: seq<Option<int>>)
    ensures Answered([], errors) && Behind(errors, 0) == errors && NoneMakesReadOnly([])
  {
  }

  lemma {:induction false} AnsweredMore(a: seq<Issued>, b: seq<Issued>, errors: seq<Option<int>>)
    requires Answered(a, errors) && Answered(b, Behind(errors, |a|))
    ensures Answered(a + b, errors)
    ensures Behind(Behind(errors, |a|), |b|) == Behind(errors, |a + b|)
  {
  }

  lemma {:induction false} AgreeingCalls(calls: seq<Issued>, errors: seq<Option<int>>, stats: seq<Result<Flags, int>>)
    requires Answered(calls, errors)
    ensures Willing(errors, stats) ==> !EndsBadly(calls)
  {
  }

  /** The error of a mount that failed: of its last call, or of the remount that has no attempt left. */
  ghost predicate Blames(e: MountError, calls: seq<Issued>, stats: seq<Result<Flags, int>>) {
    if calls == [] then e == Invalid
    else
      && EndsBadly(calls)
      && (|| e == Failed(calls[|calls| - 1].error.value)
          || e == AllFallbacksFailed
          || (stats != [] && stats[0].Failure? && e == Failed(stats[0].error)))
  }

  lemma {:induction false} BlamesRemount(made: seq<Issued>, more: seq<Issued>, stats: seq<Result<Flags, int>>)
    requires EndsBadly(more)
    ensures Blames(RemountError(more, stats), made + more, stats)
  {
  }

  class Mounter {
    const kernel: Kernel
    const context: Context
    /** Whether /sys has been bound recursively, and the remounts that wait for finalize. */
    var sysBound: bool
    var remounts: seq<Remount>
    /** The calls made before, and the mounts that succeeded since. */
    ghost const start: seq<Issued>
    ghost var mounted: seq<Mounted>

    constructor (kernel: Kernel, context: Context)
      ensures this.kernel == kernel && this.context == context && !sysBound && remounts == []
      ensures mounted == [] && start == kernel.calls && Faithful()
    {
      this.kernel, this.context := kernel, context;
      sysBound, remounts := false, [];
      start, mounted := kernel.calls, [];
    }

    /** The calls are those of the mounts that succeeded, in order, and nothing else. */
    ghost predicate Faithful()
      reads this, kernel
    {
      kernel.calls == start + CallsMade(mounted) && forall k :: 0 <= k < |mounted| ==> Carried(context, mounted[k])
    }

    /**
     The mount call of what is no bind mount; sysfs in a user namespace falls back to a bind of /sys. It
     succeeds exactly when the last call does.
     */
    method MountOther(m: Spec) returns (e: Option<MountError>, ghost made: seq<Issued>)
      requires BIND !in m.flags
      modifies kernel
      ensures kernel.calls == old(kernel.calls) + made && made != []
      ensures Answered(made, old(kernel.errors)) && kernel.errors == Behind(old(kernel.errors), |made|) && kernel.stats == old(kernel.stats)
      ensures e == match made[|made| - 1].error case None => None case Some(n) => Some(Failed(n))
      ensures e == None ==> MountPart(context, m, made)
      ensures made[0].call == PlainCall(m) && (|made| > 1 <==> m.kind == Some("sysfs") && made[0].error == Some(1) && context.mapsUids)
      ensures NoneMakesReadOnly(made) <==> !(REMOUNT in m.flags && RDONLY in m.flags)
      ensures old(kernel.Agrees()) ==> kernel.Agrees()
    {
      var err := kernel.Mount(Call(m.destination, m.flags, m.data != ""));
      made := [Issued(PlainCall(m), err)];
      assert made[0].call == PlainCall(m);
      if err == None {
        return None, made;
      }
      if m.kind != Some("sysfs") || err != Some(EPERM) || !context.mapsUids {
        return Some(Failed(err.value)), made;
      }
      err := kernel.Mount(Call(m.destination, {BIND, REC}, false));
      made := made + [Issued(SysBindCall(m), err)];
      assert kernel.calls == old(kernel.calls) + made;
      if err == None && !context.mountsCgroup && context.hasCgroup {
        err := kernel.Mount(Call("/sys/fs/cgroup", {BIND}, false));
        made := made + [Issued(CGROUP_MASK, err)];
        assert kernel.calls == old(kernel.calls) + made;
      }
      assert made[0].call == PlainCall(m);
      e := if err == None then None else Some(Failed(err.value));
    }

    /** The mount call of a bind mount, which leaves out the read-only flag. */
    method MountBind(m: Spec) returns (e: Option<MountError>, ghost made: seq<Issued>)
      requires BIND in m.flags
      modifies kernel
      ensures kernel.calls == old(kernel.calls) + made && NoneMakesReadOnly(made)
      ensures Answered(made, old(kernel.errors)) && kernel.errors == Behind(old(kernel.errors), |made|) && kernel.stats == old(kernel.stats)
      ensures if !m.hasSource then e == Some(Invalid) && made == []
              else |made| == 1 && made[0].call == BindCall(m)
                   && e == match made[0].error case None => None case Some(n) => Some(Failed(n))
      ensures e == None ==> MountPart(context, m, made)
      ensures old(kernel.Agrees()) ==> kernel.Agrees()
    {
      if !m.hasSource {
        return Some(Invalid), [];
      }
      var err := kernel.Mount(Call(m.destination, m.flags - {RDONLY}, false));
      made := [Issued(BindCall(m), err)];
      e := if err == None then None else Some(Failed(err.value));
    }

    /** The mount and its propagation, before any remount. It succeeds exactly when the last call does. */
    method MountAndPropagate(m: Spec) returns (e: Option<MountError>, ghost made: seq<Issued>, ghost first: seq<Issued>)
      requires REMOUNT !in m.propagation
      modifies kernel
      ensures kernel.calls == old(kernel.calls) + made
      ensures Answered(made, old(kernel.errors)) && kernel.errors == Behind(old(kernel.errors), |made|) && kernel.stats == old(kernel.stats)
      ensures made == [] <==> BIND in m.flags && !m.hasSource
      ensures e == if made == [] then Some(Invalid)
                   else match made[|made| - 1].error case None => None case Some(n) => Some(Failed(n))
      ensures e == None ==> MountPart(context, m, first) && made == first + PropagationPart(m)
      ensures NoneMakesReadOnly(made) <==> made == [] || !RemountsItself(m)
      ensures old(kernel.Agrees()) ==> kernel.Agrees()
    {
      if BIND in m.flags {
        e, made := MountBind(m);
      } else {
        e, made := MountOther(m);
      }
      first := made;
      if e == None && m.propagation != {} {
        ghost var errors := kernel.errors;
        var err := kernel.Mount(Call(m.destination, m.propagation, false));
        OneMoreCall(made, Issued(Call(m.destination, m.propagation, false), err));
        AnsweredMore(made, [Issued(Call(m.destination, m.propagation, false), err)], old(kernel.errors));
        made := made + [Issued(Call(m.destination, m.propagation, false), err)];
        if err.Some? {
          return Some(Failed(err.value)), made, first;
        }
      }
    }

    /**
     do_mount. It succeeds exactly when its last call does. A mount that succeeds leaves a remount for later
     exactly when it is read-only, and nothing that is done at once makes an existing mount read-only, unless
     its own options are such a remount or the destination reports that it is read-only.
     */
    method DoMount(m: Spec) returns (r: Result<Option<Remount>, MountError>, ghost made: seq<Issued>, ghost reported: Flags)
      requires REMOUNT !in m.propagation
      modifies kernel, this`sysBound, this`mounted
      ensures kernel.calls == old(kernel.calls) + made
      ensures Answered(made, old(kernel.errors)) && kernel.errors == Behind(old(kernel.errors), |made|)
      ensures mounted == old(mounted) + if r.Success? then [Mounted(m, made, reported)] else []
      ensures r.Success? ==> Carried(context, Mounted(m, made, reported))
      ensures RDONLY !in reported ==> (NoneMakesReadOnly(made) <==> made == [] || !RemountsItself(m))
      ensures !IsCgroup(m) && r.Success? ==> r.value == if RDONLY in m.flags then Some(Deferred(m)) else None
      ensures !IsCgroup(m) ==> (r.Success? <==> EndsWell(made)) && (made == [] <==> BIND in m.flags && !m.hasSource)
      ensures !IsCgroup(m) && r.Failure? ==> Blames(r.error, made, old(kernel.stats))
      ensures IsCgroup(m) ==>
                made == [] && r == if m.destination == "/sys/fs/cgroup" && old(sysBound) then Success(None) else Failure(NotImplemented)
      ensures sysBound == (old(sysBound) || (!IsCgroup(m) && BIND in m.flags && m.destination == "/sys" && REC in m.flags))
      ensures old(kernel.Agrees()) ==> kernel.Agrees() && (Mountable(m) ==> r.Success?)
    {
      hide NoneMakesReadOnly, Attempts, MountPart, Deferred, Mountable, RemountsItself, Exhausted, Answered, Behind, Blames, EndsWell;
      r, made, reported := DoMountCalls(m);
      if r.Success? {
        mounted := mounted + [Mounted(m, made, reported)];
      }
    }

    method DoMountCalls(m: Spec) returns (r: Result<Option<Remount>, MountError>, ghost made: seq<Issued>, ghost reported: Flags)
      requires REMOUNT !in m.propagation
      modifies kernel, this`sysBound
      ensures kernel.calls == old(kernel.calls) + made
      ensures Answered(made, old(kernel.errors)) && kernel.errors == Behind(old(kernel.errors), |made|)
      ensures r.Success? ==> Carried(context, Mounted(m, made, reported))
      ensures RDONLY !in reported ==> (NoneMakesReadOnly(made) <==> made == [] || !RemountsItself(m))
      ensures !IsCgroup(m) && r.Success? ==> r.value == if RDONLY in m.flags then Some(Deferred(m)) else None
      ensures !IsCgroup(m) ==> (r.Success? <==> EndsWell(made)) && (made == [] <==> BIND in m.flags && !m.hasSource)
      ensures !IsCgroup(m) && r.Failure? ==> Blames(r.error, made, old(kernel.stats))
      ensures IsCgroup(m) ==>
                made == [] && r == if m.destination == "/sys/fs/cgroup" && old(sysBound) then Success(None) else Failure(NotImplemented)
      ensures sysBound == (old(sysBound) || (!IsCgroup(m) && BIND in m.flags && m.destination == "/sys" && REC in m.flags))
      ensures old(kernel.Agrees()) ==> kernel.Agrees() && (Mountable(m) ==> r.Success?)
    {
      hide NoneMakesReadOnly, Attempts, Exhausted, Carried, Answered, Behind;
      made, reported := [], {};
      NothingAnswered(kernel.errors);
      if IsCgroup(m) {
        CgroupCarried(context, m);
        return if m.destination == "/sys/fs/cgroup" && sysBound then Success(None) else Failure(NotImplemented), [], {};
      }
      if BIND in m.flags && m.destination == "/sys" && REC in m.flags {
        sysBound := true;
      }
      var e;
      ghost var first;
      e, made, first := MountAndPropagate(m);
      if e.Some? {
        AgreeingCalls(made, old(kernel.errors), old(kernel.stats));
        return Failure(e.value), made, {};
      }
      if !RemountsAtOnce(m) {
        CarriedBy(context, Mounted(m, made, {}), first, []);
      }
      var need := RDONLY in m.flags || BIND in m.flags || (m.data != "" && m.kind == Some("proc"));
      if !need {
        return Success(None), made, {};
      }
      var remount := Deferred(m);
      if RDONLY !in remount.flags {
        ghost var more;
        e, more, reported := RemountAtOnce(m, remount, made, first, old(kernel.errors));
        made := made + more;
        return if e.Some? then Failure(e.value) else Success(None), made, reported;
      }
      r := Success(Some(remount));
    }

    /** The remount of a mount that is not read-only. */
    method RemountAtOnce(m: Spec, remount: Remount, ghost made: seq<Issued>, ghost first: seq<Issued>, ghost errors: seq<Option<int>>)
      returns (e: Option<MountError>, ghost more: seq<Issued>, ghost reported: Flags)
      requires !IsCgroup(m) && RemountsAtOnce(m) && remount == Deferred(m)
      requires MountPart(context, m, first) && made == first + PropagationPart(m)
      requires Answered(made, errors) && kernel.errors == Behind(errors, |made|)
      modifies kernel
      ensures kernel.calls == old(kernel.calls) + more && more != []
      ensures Answered(made + more, errors) && kernel.errors == Behind(errors, |made + more|)
      ensures e == None <==> EndsWell(made + more)
      ensures e == None ==> Carried(context, Mounted(m, made + more, reported))
      ensures e.Some? ==> Blames(e.value, made + more, old(kernel.stats))
      ensures RDONLY !in reported ==> (NoneMakesReadOnly(made + more) <==> NoneMakesReadOnly(made))
      ensures old(kernel.Agrees()) ==> kernel.Agrees() && e == None
    {
      hide NoneMakesReadOnly, Attempts, MountPart, PropagationPart, Exhausted, Carried;
      DeferredIsRemount(m);
      e, more, reported := DoRemount(kernel, remount);
      AttemptsNotEmpty(remount, reported, more);
      if RDONLY !in reported {
        DirectRemounts(remount, reported, more);
      }
      MoreCalls(made, more);
      AnsweredMore(made, more, errors);
      if e == None {
        AtOnce(m, reported, more);
        CarriedBy(context, Mounted(m, made + more, reported), first, more);
      } else {
        BlamesRemount(made, more, old(kernel.stats));
      }
    }

    /** mounter::mount, of anything but a copied symbolic link. */
    method Mount(m: Spec) returns (e: Option<MountError>)
      requires REMOUNT !in m.propagation && Faithful()
      modifies kernel, this`sysBound, this`remounts, this`mounted
      ensures e == None ==> Faithful() && SpecsOf(mounted) == old(SpecsOf(mounted)) + [m]
      ensures e == None ==> remounts == old(remounts) + DeferredOf([m])
      ensures e != Some(NoRemountEntry)
      ensures e.Some? ==> EndsBadly(kernel.calls) || !Mountable(m)
      ensures old(kernel.Agrees()) ==> kernel.Agrees() && (Mountable(m) ==> e == None)
    {
      hide Carried, SpecsOf, CallsMade, DeferredOf;
      DeferredOfOne(m);
      var r;
      ghost var made, reported;
      ghost var before := mounted;
      r, made, reported := DoMount(m);
      if r.Failure? {
        return Some(r.error);
      }
      OneMoreMounted(before, Mounted(m, made, reported));
      if r.value.Some? {
        remounts := remounts + [r.value.value];
      }
      e := None;
    }

    method DoMounts(mounts: seq<Spec>) returns (e: Option<MountError>)
      requires Plain(mounts) && Faithful()
      modifies kernel, this`sysBound, this`remounts, this`mounted
      ensures e == None ==> Faithful() && SpecsOf(mounted) == old(SpecsOf(mounted)) + mounts
      ensures e == None ==> remounts == old(remounts) + DeferredOf(mounts)
      ensures e != Some(NoRemountEntry)
      ensures e.Some? ==> EndsBadly(kernel.calls) || !AllMountable(mounts)
      ensures old(kernel.Agrees()) ==> kernel.Agrees() && (AllMountable(mounts) ==> e == None)
    {
      hide SpecsOf, DeferredOf, Mountable;
      NoneIsDeferred();
      for i := 0 to |mounts|
        invariant Faithful() && SpecsOf(mounted) == old(SpecsOf(mounted)) + mounts[..i]
        invariant remounts == old(remounts) + DeferredOf(mounts[..i])
        invariant old(kernel.Agrees()) ==> kernel.Agrees()
      {
        e := Mount(mounts[i]);
        if e.Some? {
          return;
        }
        assert mounts[..i + 1] == mounts[..i] + [mounts[i]];
        DeferredOfMore(mounts[..i], [mounts[i]]);
      }
      assert mounts[..|mounts|] == mounts;
      e := None;
    }

    /** A mount that the plan expects to leave a remount behind. */
    method MountDeferred(m: Spec) returns (e: Option<MountError>)
      requires REMOUNT !in m.propagation && RDONLY in m.flags && !IsCgroup(m) && Faithful()
      modifies kernel, this`sysBound, this`remounts, this`mounted
      ensures e == None ==> Faithful() && SpecsOf(mounted) == old(SpecsOf(mounted)) + [m]
      ensures e == None ==> remounts == old(remounts) + DeferredOf([m])
      ensures e != Some(NoRemountEntry)
      ensures e.Some? ==> EndsBadly(kernel.calls) || !Mountable(m)
      ensures old(kernel.Agrees()) ==> kernel.Agrees() && (Mountable(m) ==> e == None)
    {
      hide Carried, SpecsOf, CallsMade, DeferredOf;
      DeferredOfOne(m);
      var r;
      ghost var made, reported;
      ghost var before := mounted;
      r, made, reported := DoMount(m);
      if r.Failure? {
        return Some(r.error);
      }
      OneMoreMounted(before, Mounted(m, made, reported));
      if r.value == None {
        return Some(NoRemountEntry);
      }
      remounts := remounts + [r.value.value];
      e := None;
    }

    /** make_path_masked. */
    method MaskPaths(paths: seq<PathEntry>) returns (e: Option<MountError>)
      requires Faithful()
      modifies kernel, this`sysBound, this`remounts, this`mounted
      ensures e == None ==> Faithful() && SpecsOf(mounted) == old(SpecsOf(mounted)) + MaskSpecs(paths)
      ensures e == None ==> remounts == old(remounts) + DeferredOf(MaskSpecs(paths))
      ensures e != Some(NoRemountEntry)
      ensures e.Some? ==> EndsBadly(kernel.calls) || !AllOpenable(paths)
      ensures old(kernel.Agrees()) ==> kernel.Agrees() && (AllOpenable(paths) ==> e == None)
    {
      hide SpecsOf, DeferredOf, MaskSpecs, MaskSpec, Mountable, IsCgroup, Carried, CallsMade;
      NoSpecs();
      for i := 0 to |paths|
        invariant Faithful() && SpecsOf(mounted) == old(SpecsOf(mounted)) + MaskSpecs(paths[..i])
        invariant remounts == old(remounts) + DeferredOf(MaskSpecs(paths[..i]))
        invariant old(kernel.Agrees()) ==> kernel.Agrees()
      {
        MaskSpecsMore(paths, i);
        match paths[i].state {
          case Missing =>
          case Unopenable(errno) => return Some(Failed(errno));
          case There(isDir, _) =>
            MasksAreMountable(paths[i].path, isDir);
            e := MountDeferred(MaskSpec(paths[i].path, isDir));
            if e.Some? {
              return;
            }
        }
      }
      assert paths[..|paths|] == paths;
      e := None;
    }

    /** make_path_readonly. */
    method ProtectPaths(paths: seq<PathEntry>) returns (e: Option<MountError>)
      requires Faithful()
      modifies kernel, this`sysBound, this`remounts, this`mounted
      ensures e == None ==> Faithful() && SpecsOf(mounted) == old(SpecsOf(mounted)) + ProtectSpecs(paths)
      ensures e == None ==> remounts == old(remounts) + DeferredOf(ProtectSpecs(paths))
      ensures e != Some(NoRemountEntry)
      ensures e.Some? ==> EndsBadly(kernel.calls) || !AllOpenable(paths)
      ensures old(kernel.Agrees()) ==> kernel.Agrees() && (AllOpenable(paths) ==> e == None)
    {
      hide SpecsOf, DeferredOf, ProtectSpecs, ProtectSpec, Mountable, IsCgroup, Carried, CallsMade;
      NoSpecs();
      for i := 0 to |paths|
        invariant Faithful() && SpecsOf(mounted) == old(SpecsOf(mounted)) + ProtectSpecs(paths[..i])
        invariant remounts == old(remounts) + DeferredOf(ProtectSpecs(paths[..i]))
        invariant old(kernel.Agrees()) ==> kernel.Agrees()
      {
        ProtectSpecsMore(paths, i);
        match paths[i].state {
          case Missing =>
          case Unopenable(errno) => return Some(Failed(errno));
          case There(_, stat) =>
            if stat.Failure? {
              return Some(Failed(stat.error));
            }
            ProtectionsAreMountable(paths[i].path, stat.value);
            e := MountDeferred(ProtectSpec(paths[i].path, stat.value));
            if e.Some? {
              return;
            }
        }
      }
      assert paths[..|paths|] == paths;
      e := None;
    }

    /**
     configure_rootfs, once the namespace is known to be new: rebind the root, and note it if read-only.
     The rebind is not read-only, so the remount that the source keeps ready for it never comes up.
     */
    method RebindRoot(readonly: bool) returns (e: Option<MountError>)
      requires Faithful()
      modifies kernel, this`sysBound, this`remounts, this`mounted
      ensures e == None ==> Faithful() && SpecsOf(mounted) == old(SpecsOf(mounted)) + [ROOT_REBIND]
      ensures e == None ==> remounts == old(remounts) + RootRemounts(readonly)
      ensures e != Some(NoRemountEntry)
      ensures e.Some? ==> EndsBadly(kernel.calls)
      ensures old(kernel.Agrees()) ==> kernel.Agrees() && e == None
    {
      hide Carried, SpecsOf, CallsMade;
      var r;
      ghost var made, reported;
      ghost var before := mounted;
      r, made, reported := DoMount(ROOT_REBIND);
      if r.Failure? {
        return Some(r.error);
      }
      assert r.value == None;
      OneMoreMounted(before, Mounted(ROOT_REBIND, made, reported));
      if readonly {
        remounts := remounts + [ROOT_REMOUNT];
      }
      e := None;
    }

    /** One of the deferred remounts. */
    method RemountLast(r: Remount) returns (e: Option<MountError>, ghost made: seq<Issued>, ghost reported: Flags)
      modifies kernel
      ensures kernel.calls == old(kernel.calls) + made && e != Some(NoRemountEntry)
      ensures e == None ==> Answers(r, Trace(reported, made))
      ensures e.Some? && REMOUNT in r.flags ==> EndsBadly(made)
      ensures old(kernel.Agrees()) ==> kernel.Agrees() && (REMOUNT in r.flags ==> e == None)
    {
      hide Attempts, Exhausted;
      e, made, reported := DoRemount(kernel, r);
      BadEnd(r, reported, made);
    }

    /** finalize: the device nodes, then the remounts from the last to the first, until one fails. */
    method Finish(devices: seq<Spec>) returns (e: Option<MountError>, ghost traces: seq<Trace>)
      requires Faithful() && Plain(devices) && NoneReadOnly(devices)
      modifies kernel, this`sysBound, this`remounts, this`mounted
      ensures e == None ==>
                && SpecsOf(mounted) == old(SpecsOf(mounted)) + devices
                && (forall k :: 0 <= k < |mounted| ==> Carried(context, mounted[k]))
                && kernel.calls == start + CallsMade(mounted) + CallsOf(traces)
                && Served(old(remounts), traces)
      ensures e != Some(NoRemountEntry)
      ensures e.Some? && AllRemounts(old(remounts)) ==> EndsBadly(kernel.calls) || !AllMountable(devices)
      ensures old(kernel.Agrees()) && AllMountable(devices) && AllRemounts(old(remounts)) ==> e == None
    {
      hide Carried, SpecsOf, CallsMade, DeferredOf, Attempts, Exhausted;
      traces := [];
      e := DoMounts(devices);
      if e.Some? {
        return;
      }
      NoneDeferred(devices);
      ghost var all, before, done := remounts, kernel.calls, mounted;
      var n := |remounts|;
      while n > 0
        invariant 0 <= n <= |remounts| && remounts == all && mounted == done
        invariant kernel.calls == before + CallsOf(traces)
        invariant Served(all[n..], traces)
        invariant old(kernel.Agrees()) ==> kernel.Agrees()
      {
        ghost var made, reported;
        e, made, reported := RemountLast(remounts[n - 1]);
        if e.Some? {
          return;
        }
        ServedOneMore(all, n, traces, Trace(reported, made));
        traces := traces + [Trace(reported, made)];
        n := n - 1;
      }
      assert all[0..] == all;
      e := None;
    }
  }

  ghost predicate Plain(mounts: seq<Spec>) {
    forall k :: 0 <= k < |mounts| ==> REMOUNT !in mounts[k].propagation
  }

  ghost predicate NoneReadOnly(mounts: seq<Spec>) {
    forall k :: 0 <= k < |mounts| ==> RDONLY !in mounts[k].flags
  }

  ghost predicate AllMountable(mounts: seq<Spec>) {
    forall k :: 0 <= k < |mounts| ==> Mountable(mounts[k])
  }

  ghost predicate AllRemounts(remounts: seq<Remount>) {
    forall k :: 0 <= k < |remounts| ==> REMOUNT in remounts[k].flags
  }

  ghost predicate AllOpenable(paths: seq<PathEntry>) {
    forall k :: 0 <= k < |paths| ==>
      paths[k].state == Missing || (paths[k].state.There? && paths[k].state.stat.Success?)
  }

  /** The calls of one remount, with what its destination reports. */
  datatype Trace = Trace(reported: Flags, calls: seq<Issued>)

  function CallsOf(traces: seq<Trace>): seq<Issued> {
    if traces == [] then [] else CallsOf(traces[..|traces| - 1]) + traces[|traces| - 1].calls
  }

  predicate Answers(r: Remount, t: Trace) {
    Attempts(r, t.reported, t.calls) && EndsWell(t.calls)
  }

  /** One trace for each remount, in reverse order. */
  ghost predicate Served(remounts: seq<Remount>, traces: seq<Trace>) {
    |traces| == |remounts| && forall k :: 0 <= k < |traces| ==> Answers(remounts[|remounts| - 1 - k], traces[k])
  }

  lemma {:induction false} ServedOneMore(all: seq<Remount>, n: nat, traces: seq<Trace>, t: Trace)
    requires 0 < n <= |all| && Served(all[n..], traces) && Answers(all[n - 1], t)
    ensures Served(all[n - 1..], traces + [t])
    ensures CallsOf(traces + [t]) == CallsOf(traces) + t.calls
  {
    assert (traces + [t])[..|traces|] == traces;
  }

  // ---- which remounts are deferred ----

  function DeferredOf(mounts: seq<Spec>): seq<Remount> {
    if mounts == [] then []
    else
      var m := mounts[|mounts| - 1];
      DeferredOf(mounts[..|mounts| - 1]) + if !IsCgroup(m) && RDONLY in m.flags then [Deferred(m)] else []
  }

  lemma {:induction false} NoneIsDeferred()
    ensures DeferredOf([]) == []
  {
  }

  lemma {:induction false} DeferredOfOne(m: Spec)
    ensures DeferredOf([m]) == if !IsCgroup(m) && RDONLY in m.flags then [Deferred(m)] else []
  {
  }

  lemma {:induction false} DeferredOfMore(a: seq<Spec>, b: seq<Spec>)
    ensures DeferredOf(a + b) == DeferredOf(a) + DeferredOf(b)
    decreases |b|
  {
    if b == [] {
      assert a + b == a;
    } else {
      var front := b[..|b| - 1];
      assert (a + b)[..|a + b| - 1] == a + front;
      DeferredOfMore(a, front);
    }
  }

  lemma {:induction false} NoneDeferred(mounts: seq<Spec>)
    requires NoneReadOnly(mounts)
    ensures DeferredOf(mounts) == []
    decreases |mounts|
  {
    if mounts != [] {
      NoneDeferred(mounts[..|mounts| - 1]);
    }
  }

  lemma {:induction false} DeferredAreRemounts(mounts: seq<Spec>)
    ensures AllRemounts(DeferredOf(mounts))
    decreases |mounts|
  {
    if mounts != [] {
      DeferredAreRemounts(mounts[..|mounts| - 1]);
    }
  }

  const ROOT_REBIND := Spec(".", None, true, {BIND, REC}, {PRIVATE, REC}, "")
  const ROOT_REMOUNT := Remount(".", {RDONLY, BIND, REMOUNT}, "")

  function RootRemounts(readonly: bool): seq<Remount> {
    if readonly then [ROOT_REMOUNT] else []
  }

  /** A path to be masked or protected, as opening it and asking for its file system found it. */
  datatype PathState = Missing | Unopenable(errno: int) | There(isDir: bool, stat: Result<Flags, int>)

  datatype PathEntry = PathEntry(path: string, state: PathState)

  function MaskSpec(path: string, isDir: bool): Spec {
    if isDir then Spec(path, Some("tmpfs"), true, {RDONLY}, {}, "size=0k") else Spec(path, None, true, {RDONLY, BIND}, {}, "")
  }

  function ProtectSpec(path: string, reported: Flags): Spec {
    Spec(path, None, true, ({BIND, RDONLY, REC} + reported) - {REMOUNT}, {PRIVATE, REC}, "")
  }

  /** What the two loops mount is read-only and always leaves a remount. */
  lemma {:induction false} MasksAreMountable(path: string, isDir: bool)
    ensures var m := MaskSpec(path, isDir); Mountable(m) && !IsCgroup(m) && RDONLY in m.flags && REMOUNT !in m.propagation
  {
  }

  lemma {:induction false} ProtectionsAreMountable(path: string, reported: Flags)
    ensures var m := ProtectSpec(path, reported); Mountable(m) && !IsCgroup(m) && RDONLY in m.flags && REMOUNT !in m.propagation
  {
  }

  function MaskOf(p: PathEntry): seq<Spec> {
    if p.state.There? then [MaskSpec(p.path, p.state.isDir)] else []
  }

  function ProtectOf(p: PathEntry): seq<Spec> {
    if p.state.There? && p.state.stat.Success? then [ProtectSpec(p.path, p.state.stat.value)] else []
  }

  /** The masked paths that exist. */
  function MaskSpecs(paths: seq<PathEntry>): seq<Spec> {
    if paths == [] then [] else MaskSpecs(paths[..|paths| - 1]) + MaskOf(paths[|paths| - 1])
  }

  function ProtectSpecs(paths: seq<PathEntry>): seq<Spec> {
    if paths == [] then [] else ProtectSpecs(paths[..|paths| - 1]) + ProtectOf(paths[|paths| - 1])
  }

  lemma {:induction false} NoSpecs()
    ensures MaskSpecs([]) == [] && ProtectSpecs([]) == [] && DeferredOf([]) == []
  {
  }

  lemma {:induction false} MaskSpecsMore(paths: seq<PathEntry>, i: nat)
    requires i < |paths|
    ensures MaskSpecs(paths[..i + 1]) == MaskSpecs(paths[..i]) + MaskOf(paths[i])
    ensures DeferredOf(MaskSpecs(paths[..i + 1])) == DeferredOf(MaskSpecs(paths[..i])) + DeferredOf(MaskOf(paths[i]))
    ensures MaskOf(paths[i]) == [] ==> DeferredOf(MaskOf(paths[i])) == []
  {
    assert paths[..i + 1][..i] == paths[..i];
    DeferredOfMore(MaskSpecs(paths[..i]), MaskOf(paths[i]));
  }

  lemma {:induction false} ProtectSpecsMore(paths: seq<PathEntry>, i: nat)
    requires i < |paths|
    ensures ProtectSpecs(paths[..i + 1]) == ProtectSpecs(paths[..i]) + ProtectOf(paths[i])
    ensures DeferredOf(ProtectSpecs(paths[..i + 1])) == DeferredOf(ProtectSpecs(paths[..i])) + DeferredOf(ProtectOf(paths[i]))
    ensures ProtectOf(paths[i]) == [] ==> DeferredOf(ProtectOf(paths[i])) == []
  {
    assert paths[..i + 1][..i] == paths[..i];
    DeferredOfMore(ProtectSpecs(paths[..i]), ProtectOf(paths[i]));
  }

  // ---- the whole plan ----

  datatype Plan = Plan(
    newNamespace: bool,
    readonlyRoot: bool,
    mounts: seq<Spec>,
    masked: seq<PathEntry>,
    protected: seq<PathEntry>,
    devices: seq<Spec>)

  /** Every mount, in order, but for the device nodes. */
  function AllMounts(p: Plan): seq<Spec> {
    (if p.newNamespace then [ROOT_REBIND] else []) + p.mounts + MaskSpecs(p.masked) + ProtectSpecs(p.protected)
  }

  /** Every remount that the plan defers, in the order of the mounts. */
  function AllDeferred(p: Plan): seq<Remount> {
    RootRemounts(p.newNamespace && p.readonlyRoot)
    + DeferredOf(p.mounts) + DeferredOf(MaskSpecs(p.masked)) + DeferredOf(ProtectSpecs(p.protected))
  }

  /** What is deferred is the remounts of the read-only ones of all the mounts, behind that of the root. */
  lemma {:induction false} AllDeferredIs(p: Plan)
    ensures AllDeferred(p) == RootRemounts(p.newNamespace && p.readonlyRoot) + DeferredOf(AllMounts(p))
    ensures AllRemounts(AllDeferred(p))
  {
    hide DeferredOf, MaskSpecs, ProtectSpecs, AllRemounts, Deferred;
    var root := if p.newNamespace then [ROOT_REBIND] else [];
    var d := DeferredOf(AllMounts(p));
    RebindIsNotDeferred(p.newNamespace);
    DeferredOfMore(root, p.mounts);
    DeferredOfMore(root + p.mounts, MaskSpecs(p.masked));
    DeferredOfMore(root + p.mounts + MaskSpecs(p.masked), ProtectSpecs(p.protected));
    FourParts(RootRemounts(p.newNamespace && p.readonlyRoot), DeferredOf(p.mounts), DeferredOf(MaskSpecs(p.masked)),
              DeferredOf(ProtectSpecs(p.protected)));
    DeferredAreRemounts(AllMounts(p));
    RootAndRest(p.newNamespace && p.readonlyRoot, d);
  }

  lemma {:induction false} RebindIsNotDeferred(newNamespace: bool)
    ensures DeferredOf(if newNamespace then [ROOT_REBIND] else []) == []
  {
    DeferredOfOne(ROOT_REBIND);
  }

  lemma {:induction false} FourParts(root: seq<Remount>, a: seq<Remount>, b: seq<Remount>, c: seq<Remount>)
    ensures root + a + b + c == root + ([] + a + b + c)
  {
  }

  lemma {:induction false} RootAndRest(readonly: bool, rest: seq<Remount>)
    requires AllRemounts(rest)
    ensures AllRemounts(RootRemounts(readonly) + rest)
  {
  }

  /**
   configure_mounts. It succeeds when the kernel agrees to every call. Then the calls are those of the mounts
   and the device nodes, in order, and after them the remounts of everything read-only, from the last mount
   to the first, so that a read-only root comes last of all.
   */
  method ConfigureMounts(kernel: Kernel, context: Context, p: Plan)
    returns (e: Option<MountError>, ghost mounted: seq<Mounted>, ghost traces: seq<Trace>)
    requires Plain(p.mounts) && Plain(p.devices) && NoneReadOnly(p.devices)
    modifies kernel
    ensures p.mounts == [] ==> e == None && kernel.calls == old(kernel.calls)
    ensures p.mounts != [] && e == None ==>
              && SpecsOf(mounted) == AllMounts(p) + p.devices
              && (forall k :: 0 <= k < |mounted| ==> Carried(context, mounted[k]))
              && kernel.calls == old(kernel.calls) + CallsMade(mounted) + CallsOf(traces)
              && Served(AllDeferred(p), traces)
    ensures e != Some(NoRemountEntry)
    ensures e.Some? ==>
              || EndsBadly(kernel.calls)
              || !AllMountable(p.mounts) || !AllMountable(p.devices) || !AllOpenable(p.masked) || !AllOpenable(p.protected)
    ensures old(kernel.Agrees()) && AllMountable(p.mounts) && AllMountable(p.devices) && AllOpenable(p.masked) && AllOpenable(p.protected)
            ==> e == None
  {
    hide Carried, CallsMade, DeferredOf, MaskSpecs, ProtectSpecs, Mountable;
    mounted, traces := [], [];
    if p.mounts == [] {
      return None, [], [];
    }
    var mounter := new Mounter(kernel, context);
    assert SpecsOf(mounter.mounted) == [];
    if p.newNamespace {
      e := mounter.RebindRoot(p.readonlyRoot);
      if e.Some? {
        return;
      }
    }
    ghost var root := if p.newNamespace then [ROOT_REBIND] else [];
    assert mounter.remounts == RootRemounts(p.newNamespace && p.readonlyRoot) && SpecsOf(mounter.mounted) == root;
    e := mounter.DoMounts(p.mounts);
    if e.Some? {
      return;
    }
    e := mounter.MaskPaths(p.masked);
    if e.Some? {
      return;
    }
    e := mounter.ProtectPaths(p.protected);
    if e.Some? {
      return;
    }
    assert mounter.remounts == AllDeferred(p);
    AllDeferredIs(p);
    e, traces := mounter.Finish(p.devices);
    mounted := mounter.mounted;
  }

  // ---- what the calls do ----

  /** Every call of the list asks for a read-only remount of the destination, and the last one succeeds. */
  ghost predicate MadeReadOnly(destination: string, calls: seq<Issued>) {
    && EndsWell(calls)
    && forall k :: 0 <= k < |calls| ==> calls[k].call.target == destination && MakesReadOnly(calls[k].call)
  }

  ghost predicate AllBind(calls: seq<Issued>) {
    forall k :: 0 <= k < |calls| ==> BIND in calls[k].call.flags
  }

  /** The root, when it is read-only, is made so after everything else, as a mount of its own. */
  lemma {:induction false} RootIsLast(p: Plan, traces: seq<Trace>)
    requires p.newNamespace && p.readonlyRoot && Served(AllDeferred(p), traces)
    ensures traces != [] && MadeReadOnly(".", traces[|traces| - 1].calls) && AllBind(traces[|traces| - 1].calls)
  {
    assert AllDeferred(p)[0] == ROOT_REMOUNT;
    RemountedReadOnly(ROOT_REMOUNT, traces[|traces| - 1]);
  }

  lemma {:induction false} RemountedReadOnly(r: Remount, t: Trace)
    requires RDONLY in r.flags && REMOUNT in r.flags && Answers(r, t)
    ensures MadeReadOnly(r.target, t.calls) && (BIND in r.flags ==> AllBind(t.calls))
  {
  }

  /** The read-only ones of the mounts, in order. */
  function ReadOnlyOnes(mounts: seq<Spec>): seq<Spec> {
    if mounts == [] then []
    else
      var m := mounts[|mounts| - 1];
      ReadOnlyOnes(mounts[..|mounts| - 1]) + if RDONLY in m.flags && !IsCgroup(m) then [m] else []
  }

  lemma {:induction false} DeferredOnes(mounts: seq<Spec>)
    ensures |DeferredOf(mounts)| == |ReadOnlyOnes(mounts)|
    ensures forall k :: 0 <= k < |DeferredOf(mounts)| ==> DeferredOf(mounts)[k] == Deferred(ReadOnlyOnes(mounts)[k])
    decreases |mounts|
  {
    hide Deferred, IsCgroup;
    if mounts != [] {
      DeferredOnes(mounts[..|mounts| - 1]);
    }
  }

  /**
   After a plan that succeeded, each read-only mount has been made read-only, from the last to the first: proc
   as itself, everything else as a mount of its own.
   */
  lemma {:induction false} ReadOnlyMountsAreServed(p: Plan, traces: seq<Trace>, k: nat)
    requires Served(AllDeferred(p), traces) && k < |ReadOnlyOnes(AllMounts(p))|
    ensures var ones := ReadOnlyOnes(AllMounts(p));
            var m := ones[|ones| - 1 - k];
            && |traces| == |ones| + (if p.newNamespace && p.readonlyRoot then 1 else 0)
            && MadeReadOnly(m.destination, traces[k].calls)
            && (m.kind != Some("proc") ==> AllBind(traces[k].calls))
  {
    AllDeferredIs(p);
    DeferredOnes(AllMounts(p));
    hide DeferredOf, ReadOnlyOnes, AllMounts, AllDeferred, MadeReadOnly, AllBind, Answers;
    var ones := ReadOnlyOnes(AllMounts(p));
    var m := ones[|ones| - 1 - k];
    OneIsReadOnly(AllMounts(p), |ones| - 1 - k);
    RemountedReadOnly(Deferred(m), traces[k]);
  }

  lemma {:induction false} OneIsReadOnly(mounts: seq<Spec>, k: nat)
    requires k < |ReadOnlyOnes(mounts)|
    ensures RDONLY in ReadOnlyOnes(mounts)[k].flags
    decreases |mounts|
  {
    hide IsCgroup;
    var front := ReadOnlyOnes(mounts[..|mounts| - 1]);
    if k < |front| {
      OneIsReadOnly(mounts[..|mounts| - 1], k);
    }
  }

  /**
   What hides a masked path: an empty tmpfs over a directory, a bind over anything else, nothing more at once;
   the path is read-only and leaves a remount.
   */
  lemma {:induction false} MaskedPathIsHidden(c: Context, x: Mounted, path: string, isDir: bool)
    requires Carried(c, x) && x.spec == MaskSpec(path, isDir)
    ensures x.calls == [Done(if isDir then Call(path, {RDONLY}, true) else Call(path, {BIND}, false))]
    ensures isDir ==> x.spec.kind == Some("tmpfs") && x.spec.data == "size=0k"
    ensures ReadOnlyOnes([x.spec]) == [x.spec]
  {
    OnlyOne(x.spec);
    assert "cgroup"[0] == 'c';
    assert BindCall(x.spec).flags == x.spec.flags - {RDONLY};
    assert {RDONLY, BIND} - {RDONLY} == {BIND};
  }

  lemma {:induction false} OnlyOne(m: Spec)
    ensures ReadOnlyOnes([m]) == if RDONLY in m.flags && !IsCgroup(m) then [m] else []
  {
    assert [m][..0] == [];
  }

  /**
   What keeps a path read-only: a bind with the flags that its file system has, private below it, and the
   remount that is left.
   */
  lemma {:induction false} ProtectedPathIsBound(c: Context, x: Mounted, path: string, reported: Flags)
    requires Carried(c, x) && x.spec == ProtectSpec(path, reported)
    ensures x.calls == [Done(Call(path, reported + {BIND, REC} - {RDONLY, REMOUNT}, false)), Done(Call(path, {PRIVATE, REC}, false))]
    ensures ReadOnlyOnes([x.spec]) == [x.spec]
    ensures reported - {REMOUNT} <= Deferred(x.spec).flags
  {
    OnlyOne(x.spec);
    assert x.spec.flags - {RDONLY} == reported + {BIND, REC} - {RDONLY, REMOUNT};
    assert PropagationPart(x.spec) == [Done(Call(path, {PRIVATE, REC}, false))];
  }

  /** The root is bound onto itself with everything below it, made private, and remounted as that bind. */
  lemma {:induction false} RootIsRebound(c: Context, x: Mounted)
    requires Carried(c, x) && x.spec == ROOT_REBIND
    ensures |x.calls| >= 3
    ensures x.calls[0] == Done(Call(".", {BIND, REC}, false)) && x.calls[1] == Done(Call(".", {PRIVATE, REC}, false))
    ensures x.calls[2].call == Call(".", {BIND, REC, REMOUNT}, false)
  {
    assert {BIND, REC} - {RDONLY} == {BIND, REC};
    assert PropagationPart(x.spec) == [Done(Call(".", {PRIVATE, REC}, false))];
    assert Deferred(x.spec).flags + {} == {BIND, REC, REMOUNT};
  }

  /** Cgroup mounts are those whose type begins with "cgroup"; they are refused but below a bound /sys. */
  lemma {:induction false} CgroupKinds(m: Spec, rest: string)
    ensures m.kind == Some("cgroup" + rest) ==> IsCgroup(m)
    ensures m.kind == None || (m.kind.value != "" && m.kind.value[0] != 'c') ==> !IsCgroup(m)
  {
  }
}
