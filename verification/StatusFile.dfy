/**
 Replacing a status file: a temporary file is written, synced and renamed over it, and the directory is
 synced. Every state of the directory on the way is one in which the process may be killed or the power lost.
 */
module StatusFile {
  import opened Results
  import opened RingBuffer
  import opened Streams

  const EEXIST := 17
  const ATTEMPTS: nat := 8

  /** A file's bytes, and whether they are known to be on disk. */
  datatype Stored = Stored(data: seq<Byte>, synced: bool)

  type Entries = map<string, nat>

  /**
   entries: the files by name. inodes: the files by number, those without a name among them. next: the number
   of the next new file. onDisk: the entries that the disk may hold, oldest first; changes of a directory
   reach the disk in their order, and a directory that has been synced has reached it with all of them.
   */
  datatype Disk = Disk(entries: Entries, inodes: map<nat, Stored>, next: nat, onDisk: seq<Entries>)

  ghost predicate ValidDisk(d: Disk) {
    && d.onDisk != [] && d.onDisk[|d.onDisk| - 1] == d.entries
    && (forall k, name :: 0 <= k < |d.onDisk| && name in d.onDisk[k] ==> d.onDisk[k][name] in d.inodes)
    && (forall i :: i in d.inodes ==> i < d.next)
  }

  /** What a process finds under a name. */
  function Found(d: Disk, name: string): Option<seq<Byte>> {
    if name in d.entries && d.entries[name] in d.inodes then Some(d.inodes[d.entries[name]].data) else None
  }

  datatype SaveError = CreateFailed(errno: int) | NoFreeName | WriteFailed(errno: int) | RenameFailed(errno: int) | OpenFailed(errno: int)

  predicate IsTemporary(name: string) {
    ".tmp-" <= name
  }

  // ---- the directory ----

  /** The state after one change of the entries. */
  function Changed(d: Disk, entries: Entries): Disk {
    d.(entries := entries, onDisk := d.onDisk + [entries])
  }

  function Created(d: Disk, name: string): Disk {
    Changed(d.(inodes := d.inodes[d.next := Stored([], false)], next := d.next + 1), d.entries[name := d.next])
  }

  /** What the system calls will report, each list in the order of its calls. */
  datatype Verdicts = Verdicts(
    openError: Option<int>,
    creates: seq<Option<int>>,
    writes: seq<WriteAnswer>,
    syncs: bool,
    renameError: Option<int>,
    syncsDirectory: bool,
    unlinks: bool)

  class Directory {
    var disk: Disk
    var verdicts: Verdicts
    /** Every state that the directory has been in. */
    ghost var history: seq<Disk>

    constructor (disk: Disk, verdicts: Verdicts)
      ensures this.disk == disk && this.verdicts == verdicts && history == [disk]
    {
      this.disk, this.verdicts, history := disk, verdicts, [disk];
    }

    /** open with O_CREAT and O_EXCL. */
    method Create(name: string) returns (e: Option<int>)
      modifies this
      ensures e == None ==> name !in old(disk.entries) && disk == Created(old(disk), name) && history == old(history) + [disk]
      ensures e.Some? ==> disk == old(disk) && history == old(history)
      ensures verdicts == old(verdicts).(creates := if old(verdicts.creates) == [] then [] else old(verdicts.creates)[1..])
      ensures e == if old(verdicts.creates) != [] && old(verdicts.creates)[0].Some? then old(verdicts.creates)[0]
                   else if name in old(disk.entries) then Some(17)
                   else None
    {
      var error := if verdicts.creates == [] then None else verdicts.creates[0];
      verdicts := verdicts.(creates := if verdicts.creates == [] then [] else verdicts.creates[1..]);
      if error.Some? {
        return error;
      }
      if name in disk.entries {
        return Some(EEXIST);
      }
      disk := Created(disk, name);
      history := history + [disk];
      e := None;
    }

    /** One write at the end of an open file. */
    method Write(file: nat, bytes: seq<Byte>) returns (r: Result<nat, int>)
      requires file in disk.inodes && bytes != []
      modifies this
      ensures r.Success? ==>
                && 0 < r.value <= |bytes|
                && disk == old(disk).(inodes := old(disk.inodes)[file := Stored(old(disk.inodes)[file].data + bytes[..r.value], false)])
                && history == old(history) + [disk]
      ensures r.Failure? ==> disk == old(disk) && history == old(history)
      ensures r == Taken(old(verdicts.writes), |bytes|)
      ensures verdicts == old(verdicts).(writes := if old(verdicts.writes) == [] then [] else old(verdicts.writes)[1..])
    {
      r := Taken(verdicts.writes, |bytes|);
      verdicts := verdicts.(writes := if verdicts.writes == [] then [] else verdicts.writes[1..]);
      if r.Success? {
        disk := disk.(inodes := disk.inodes[file := Stored(disk.inodes[file].data + bytes[..r.value], false)]);
        history := history + [disk];
      }
    }

    /** fsync of a file. */
    method Sync(file: nat) returns (ok: bool)
      requires file in disk.inodes
      modifies this`disk, this`history
      ensures ok == verdicts.syncs
      ensures disk == if ok then old(disk).(inodes := old(disk.inodes)[file := old(disk.inodes)[file].(synced := true)]) else old(disk)
      ensures history == old(history) + [disk]
    {
      ok := verdicts.syncs;
      if ok {
        disk := disk.(inodes := disk.inodes[file := disk.inodes[file].(synced := true)]);
      }
      history := history + [disk];
    }

    method Rename(from: string, to: string) returns (e: Option<int>)
      requires from in disk.entries && from != to
      modifies this`disk, this`history
      ensures e == None ==>
                disk == Changed(old(disk), old(disk.entries)[to := old(disk.entries)[from]] - {from}) && history == old(history) + [disk]
      ensures e.Some? ==> disk == old(disk) && history == old(history)
      ensures e == verdicts.renameError
    {
      e := verdicts.renameError;
      if e == None {
        disk := Changed(disk, disk.entries[to := disk.entries[from]] - {from});
        history := history + [disk];
      }
    }

    /** fsync of the directory itself. */
    method SyncEntries() returns (ok: bool)
      modifies this`disk, this`history
      ensures ok == verdicts.syncsDirectory
      ensures disk == if ok then old(disk).(onDisk := [old(disk.entries)]) else old(disk)
      ensures history == old(history) + [disk]
    {
      ok := verdicts.syncsDirectory;
      if ok {
        disk := disk.(onDisk := [disk.entries]);
      }
      history := history + [disk];
    }

    method Unlink(name: string)
      requires name in disk.entries
      modifies this`disk, this`history
      ensures disk == if verdicts.unlinks then Changed(old(disk), old(disk.entries) - {name}) else old(disk)
      ensures history == old(history) + [disk]
    {
      if verdicts.unlinks {
        disk := Changed(disk, disk.entries - {name});
      }
      history := history + [disk];
    }
  }

  // ---- the states on the way ----

  /** One replacement: the name of its temporary file, and whether that file is on disk before the rename. */
  datatype Replacement = Replacement(temp: string, target: string, content: seq<Byte>, flushed: bool)

  ghost predicate Fits(p: Replacement, was: Disk) {
    p.temp !in was.entries && IsTemporary(p.temp) && !IsTemporary(p.target)
  }

  /** The temporary file's number, bytes and name, beside everything that was. */
  ghost predicate Writing(d: Disk, was: Disk, p: Replacement) {
    && was.next in d.inodes && d.inodes == was.inodes[was.next := d.inodes[was.next]] && d.next == was.next + 1
    && d.inodes[was.next].data <= p.content
    && d.entries == was.entries[p.temp := was.next] && d.onDisk == was.onDisk + [d.entries]
  }

  /** The target is the new file; `settled` tells whether the directory was synced after that. */
  ghost predicate Installed(d: Disk, was: Disk, p: Replacement, settled: bool) {
    && d.inodes == was.inodes[was.next := Stored(p.content, p.flushed)] && d.next == was.next + 1
    && d.entries == was.entries[p.target := was.next]
    && d.onDisk == if settled then [d.entries] else was.onDisk + [was.entries[p.temp := was.next], d.entries]
  }

  /** The temporary file has lost its name again. */
  ghost predicate GivenUp(d: Disk, was: Disk, p: Replacement) {
    && was.next in d.inodes && d.inodes == was.inodes[was.next := d.inodes[was.next]] && d.next == was.next + 1
    && d.entries == was.entries && d.onDisk == was.onDisk + [was.entries[p.temp := was.next], d.entries]
  }

  ghost predicate OnTheWay(d: Disk, was: Disk, p: Replacement) {
    d == was || (Fits(p, was) && (Writing(d, was, p) || Installed(d, was, p, false) || Installed(d, was, p, true) || GivenUp(d, was, p)))
  }

  ghost predicate AllOnTheWay(states: seq<Disk>, was: Disk, p: Replacement) {
    forall k :: 0 <= k < |states| ==> OnTheWay(states[k], was, p)
  }

  lemma {:induction false} OneMoreState(states: seq<Disk>, d: Disk, was: Disk, p: Replacement)
    requires AllOnTheWay(states, was, p) && OnTheWay(d, was, p)
    ensures AllOnTheWay(states + [d], was, p)
  {
  }

  lemma {:induction false} SameIsOnTheWay(was: Disk, p: Replacement)
    ensures OnTheWay(was, was, p)
  {
  }

  lemma {:induction false} InstalledIsOnTheWay(d: Disk, was: Disk, p: Replacement, settled: bool)
    requires Fits(p, was) && Installed(d, was, p, settled)
    ensures OnTheWay(d, was, p)
  {
  }

  lemma {:induction false} WritingIsOnTheWay(d: Disk, was: Disk, p: Replacement)
    requires Fits(p, was) && Writing(d, was, p)
    ensures OnTheWay(d, was, p)
  {
  }

  lemma {:induction false} FirstState(was: Disk, p: Replacement)
    ensures AllOnTheWay([was], was, p)
  {
  }

  /** A process killed in a state on the way leaves the target complete, old or new, and every other file as it was. */
  lemma {:induction false} OldOrNew(d: Disk, was: Disk, p: Replacement)
    requires ValidDisk(was) && OnTheWay(d, was, p)
    ensures Found(d, p.target) == Found(was, p.target) || Found(d, p.target) == Some(p.content)
    ensures forall name :: name != p.target && name != p.temp ==> Found(d, name) == Found(was, name)
  {
    assert forall name :: name in was.entries ==> was.onDisk[|was.onDisk| - 1][name] in was.inodes;
    hide ValidDisk;
    NextIsNew(was);
  }

  /** After a write that succeeded a process finds the new content under the target, and everything else as it was. */
  lemma {:induction false} InstalledIsFound(d: Disk, was: Disk, p: Replacement, settled: bool)
    requires ValidDisk(was) && Installed(d, was, p, settled)
    ensures Found(d, p.target) == Some(p.content)
    ensures forall name :: name in was.entries && name != p.target ==>
              name in d.entries && d.entries[name] == was.entries[name] && Found(d, name) == Some(was.inodes[was.entries[name]].data)
    ensures forall name :: name !in was.entries && name != p.target ==> Found(d, name) == None
  {
    assert forall name :: name in was.entries ==> was.onDisk[|was.onDisk| - 1][name] in was.inodes;
    hide ValidDisk;
    NextIsNew(was);
  }

  lemma {:induction false} NextIsNew(was: Disk)
    requires ValidDisk(was)
    ensures was.next !in was.inodes
  {
  }

  // ---- the procedure ----

  ghost predicate AllNone(errors: seq<Option<int>>) {
    forall k :: 0 <= k < |errors| ==> errors[k] == None
  }

  ghost predicate AllAccepted(answers: seq<WriteAnswer>) {
    forall k :: 0 <= k < |answers| ==> answers[k].Accepts?
  }

  /** No system call fails before the name is replaced; the two fsyncs, whose failure is only logged, may. */
  ghost predicate NoneFails(v: Verdicts) {
    v.openError == None && AllNone(v.creates) && AllAccepted(v.writes) && v.renameError == None
  }

  function AnswerAt(creates: seq<Option<int>>, k: nat): Option<int> {
    if k < |creates| then creates[k] else None
  }

  /** The name that is used: the first that is free, unless an error other than EEXIST comes before it. */
  function Chosen(names: seq<string>, creates: seq<Option<int>>, entries: Entries): Result<string, SaveError> {
    if names == [] then Failure(NoFreeName)
    else
      var answer := AnswerAt(creates, 0);
      if answer == Some(17) || (answer == None && names[0] in entries)
      then Chosen(names[1..], if creates == [] then [] else creates[1..], entries)
      else if answer.Some? then Failure(CreateFailed(answer.value))
      else Success(names[0])
  }

  /** The k-th name is tried: all before it exist. */
  ghost predicate TriedAt(names: seq<string>, creates: seq<Option<int>>, entries: Entries, k: nat) {
    forall j :: 0 <= j < k && j < |names| ==> AnswerAt(creates, j) == Some(17) || (AnswerAt(creates, j) == None && names[j] in entries)
  }

  /** Where the choice ends, and how. */
  lemma {:induction false} ChosenAt(names: seq<string>, creates: seq<Option<int>>, entries: Entries) returns (k: nat)
    ensures k <= |names| && TriedAt(names, creates, entries, k)
    ensures match Chosen(names, creates, entries)
            case Success(name) => k < |names| && name == names[k] && AnswerAt(creates, k) == None && name !in entries
            case Failure(NoFreeName) => k == |names|
            case Failure(e) => k < |names| && e.CreateFailed? && AnswerAt(creates, k) == Some(e.errno) && e.errno != 17
  {
    if names == [] {
      k := 0;
    } else {
      var answer := AnswerAt(creates, 0);
      var rest := if creates == [] then [] else creates[1..];
      if answer == Some(17) || (answer == None && names[0] in entries) {
        var later := ChosenAt(names[1..], rest, entries);
        k := later + 1;
        forall j | 0 <= j < k ensures AnswerAt(creates, j) == Some(17) || (AnswerAt(creates, j) == None && names[j] in entries) {
          if j > 0 {
            assert AnswerAt(rest, j - 1) == AnswerAt(creates, j) && names[1..][j - 1] == names[j];
          }
        }
        assert AnswerAt(rest, later) == AnswerAt(creates, k);
      } else {
        k := 0;
      }
    }
  }

  /** What writing n bytes reports: the error that comes before all of them are taken. */
  function WriteOutcome(answers: seq<WriteAnswer>, n: nat): Option<int>
    decreases n
  {
    if n == 0 then None
    else
      match Taken(answers, n)
      case Failure(e) => Some(e)
      case Success(k) => if 0 < k <= n then WriteOutcome(if answers == [] then [] else answers[1..], n - k) else None
  }

  lemma {:induction false} OutcomeStep(answers: seq<WriteAnswer>, n: nat)
    ensures WriteOutcome(answers, 0) == None
    ensures n > 0 ==>
              match Taken(answers, n)
              case Failure(e) => WriteOutcome(answers, n) == Some(e)
              case Success(k) => 0 < k <= n && WriteOutcome(answers, n) == WriteOutcome(if answers == [] then [] else answers[1..], n - k)
  {
  }

  /** What a whole save reports: the first system call that fails, but for the two fsyncs. */
  function SaveOutcome(v: Verdicts, names: seq<string>, entries: Entries, n: nat): Option<SaveError> {
    if v.openError.Some? then Some(OpenFailed(v.openError.value))
    else
      match Chosen(names, v.creates, entries)
      case Failure(e) => Some(e)
      case Success(_) =>
        if WriteOutcome(v.writes, n).Some? then Some(WriteFailed(WriteOutcome(v.writes, n).value))
        else if v.renameError.Some? then Some(RenameFailed(v.renameError.value))
        else None
  }

  /** Choosing a name for the temporary file, which is tried at most eight times. */
  method CreateTemporary(dir: Directory, names: seq<string>) returns (r: Result<string, SaveError>)
    requires |names| == 8
    modifies dir
    ensures r.Success? ==>
              && r.value in names && r.value !in old(dir.disk.entries)
              && dir.disk == Created(old(dir.disk), r.value) && dir.history == old(dir.history) + [dir.disk]
    ensures r.Failure? ==> dir.disk == old(dir.disk) && dir.history == old(dir.history)
    ensures r == Chosen(names, old(dir.verdicts.creates), old(dir.disk.entries))
    ensures dir.verdicts == old(dir.verdicts).(creates := dir.verdicts.creates)
    ensures AllNone(old(dir.verdicts.creates)) && (exists k :: 0 <= k < |names| && names[k] !in old(dir.disk.entries)) ==> r.Success?
  {
    var maxRetries := ATTEMPTS - 1;
    assert names[0..] == names;
    while maxRetries >= 0
      invariant -1 <= maxRetries < ATTEMPTS
      invariant Chosen(names, old(dir.verdicts.creates), old(dir.disk.entries))
             == Chosen(names[ATTEMPTS - 1 - maxRetries..], dir.verdicts.creates, old(dir.disk.entries))
      invariant -1 <= maxRetries < ATTEMPTS && dir.disk == old(dir.disk) && dir.history == old(dir.history)
      invariant dir.verdicts == old(dir.verdicts).(creates := dir.verdicts.creates)
      invariant AllNone(old(dir.verdicts.creates)) ==> AllNone(dir.verdicts.creates)
      invariant AllNone(old(dir.verdicts.creates)) ==> forall k :: 0 <= k < ATTEMPTS - 1 - maxRetries ==> names[k] in dir.disk.entries
    {
      var name := names[ATTEMPTS - 1 - maxRetries];
      ghost var left := names[ATTEMPTS - 1 - maxRetries..];
      assert left[0] == name && left[1..] == names[ATTEMPTS - maxRetries..];
      var e := dir.Create(name);
      if e == None {
        return Success(name);
      }
      if e != Some(EEXIST) {
        return Failure(CreateFailed(e.value));
      }
      maxRetries := maxRetries - 1;
    }
    r := Failure(NoFreeName);
  }

  /** write_all, to the temporary file. */
  method WriteAll(dir: Directory, ghost was: Disk, file: nat, ghost p: Replacement, content: seq<Byte>) returns (e: Option<int>)
    requires Fits(p, was) && p.content == content && file == was.next
    requires Writing(dir.disk, was, p) && dir.disk.inodes[file] == Stored([], false)
    requires AllOnTheWay(dir.history, was, p)
    modifies dir
    ensures Writing(dir.disk, was, p) && (e == None ==> dir.disk.inodes[file] == Stored(content, false))
    ensures AllOnTheWay(dir.history, was, p)
    ensures AllAccepted(old(dir.verdicts.writes)) ==> e == None
    ensures e == WriteOutcome(old(dir.verdicts.writes), |content|)
    ensures dir.verdicts == old(dir.verdicts).(writes := dir.verdicts.writes)
  {
    hide AllOnTheWay, WriteOutcome, OnTheWay;
    var n := 0;
    OutcomeStep(dir.verdicts.writes, 0);
    while n < |content|
      invariant 0 <= n <= |content| && Writing(dir.disk, was, p) && dir.disk.inodes[file] == Stored(content[..n], false)
      invariant AllOnTheWay(dir.history, was, p)
      invariant AllAccepted(old(dir.verdicts.writes)) ==> AllAccepted(dir.verdicts.writes)
      invariant WriteOutcome(old(dir.verdicts.writes), |content|) == WriteOutcome(dir.verdicts.writes, |content| - n)
      invariant dir.verdicts == old(dir.verdicts).(writes := dir.verdicts.writes)
    {
      ghost var states := dir.history;
      OutcomeStep(dir.verdicts.writes, |content| - n);
      var r := dir.Write(file, content[n..]);
      if r.Failure? {
        return Some(r.error);
      }
      assert content[..n] + content[n..][..r.value] == content[..n + r.value];
      n := n + r.value;
      WritingIsOnTheWay(dir.disk, was, p);
      OneMoreState(states, dir.disk, was, p);
    }
    assert content[..n] == content;
    OutcomeStep(dir.verdicts.writes, 0);
    e := None;
  }

  /**
   atomic_write. Every state on the way is one of a replacement of the target. Success ends with the new file
   in its place, and is certain when no system call fails and some name is free; an error leaves the entries
   as they were, but for a temporary file that cannot be unlinked.
   */
  method AtomicWrite(dir: Directory, names: seq<string>, target: string, content: seq<Byte>) returns (e: Option<SaveError>, ghost p: Replacement)
    requires |names| == 8 && (forall k :: 0 <= k < |names| ==> ".tmp-" <= names[k]) && !(".tmp-" <= target)
    requires dir.history == [dir.disk] && ValidDisk(dir.disk)
    modifies dir
    ensures p.target == target && p.content == content && p.flushed == old(dir.verdicts.syncs)
    ensures AllOnTheWay(dir.history, old(dir.disk), p)
    ensures e == None ==> Fits(p, old(dir.disk)) && Installed(dir.disk, old(dir.disk), p, old(dir.verdicts.syncsDirectory))
    ensures e == SaveOutcome(old(dir.verdicts), names, old(dir.disk.entries), |content|)
    ensures NoneFails(old(dir.verdicts)) && (exists k :: 0 <= k < |names| && names[k] !in old(dir.disk.entries)) ==> e == None
    ensures e.Some? ==>
              || dir.disk == old(dir.disk)
              || (Fits(p, old(dir.disk))
                  && if old(dir.verdicts.unlinks) then GivenUp(dir.disk, old(dir.disk), p) else Writing(dir.disk, old(dir.disk), p))
  {
    ghost var was := dir.disk;
    p := Replacement("", target, content, dir.verdicts.syncs);
    hide AllOnTheWay, ValidDisk, Chosen, WriteOutcome, AllNone, AllAccepted, GivenUp, OnTheWay;
    SameIsOnTheWay(was, p);
    FirstState(was, p);
    if dir.verdicts.openError.Some? {
      return Some(OpenFailed(dir.verdicts.openError.value)), p;
    }
    var file := dir.disk.next;
    var name := CreateTemporary(dir, names);
    if name.Failure? {
      return Some(name.error), p;
    }
    var temp := name.value;
    p := p.(temp := temp);
    FirstState(was, p);
    WritingIsOnTheWay(dir.disk, was, p);
    OneMoreState([was], dir.disk, was, p);
    e := FillAndRename(dir, was, file, p, content, temp, target);
  }

  /** The part of atomic_write behind the creation of the temporary file. */
  method FillAndRename(dir: Directory, ghost was: Disk, file: nat, ghost p: Replacement, content: seq<Byte>, temp: string, target: string)
    returns (e: Option<SaveError>)
    requires Fits(p, was) && p == Replacement(temp, target, content, dir.verdicts.syncs) && file == was.next
    requires Writing(dir.disk, was, p) && dir.disk.inodes[file] == Stored([], false)
    requires AllOnTheWay(dir.history, was, p)
    modifies dir
    ensures AllOnTheWay(dir.history, was, p)
    ensures e == var w := WriteOutcome(old(dir.verdicts.writes), |content|);
                 if w.Some? then Some(WriteFailed(w.value))
                 else if old(dir.verdicts.renameError).Some? then Some(RenameFailed(old(dir.verdicts.renameError).value))
                 else None
    ensures e == None ==> Installed(dir.disk, was, p, old(dir.verdicts.syncsDirectory))
    ensures AllAccepted(old(dir.verdicts.writes)) && old(dir.verdicts.renameError) == None ==> e == None
    ensures e.Some? ==> if old(dir.verdicts.unlinks) then GivenUp(dir.disk, was, p) else Writing(dir.disk, was, p)
  {
    hide AllOnTheWay, ValidDisk, WriteOutcome, AllAccepted, GivenUp, OnTheWay;
    var error := WriteAll(dir, was, file, p, content);
    if error.Some? {
      CleanUp(dir, temp, was, p);
      return Some(WriteFailed(error.value));
    }
    ghost var states := dir.history;
    var ok := dir.Sync(file);
    WritingIsOnTheWay(dir.disk, was, p);
    OneMoreState(states, dir.disk, was, p);
    states := dir.history;
    ghost var full := dir.disk;
    error := dir.Rename(temp, target);
    if error.Some? {
      CleanUp(dir, temp, was, p);
      return Some(RenameFailed(error.value));
    }
    RenamedOver(full, was, p);
    InstalledIsOnTheWay(dir.disk, was, p, false);
    OneMoreState(states, dir.disk, was, p);
    states := dir.history;
    ok := dir.SyncEntries();
    InstalledIsOnTheWay(dir.disk, was, p, ok);
    OneMoreState(states, dir.disk, was, p);
    e := None;
  }

  lemma {:induction false} RenamedOver(d: Disk, was: Disk, p: Replacement)
    requires Fits(p, was) && Writing(d, was, p) && d.inodes[was.next] == Stored(p.content, p.flushed)
    ensures p.temp in d.entries
    ensures Installed(Changed(d, d.entries[p.target := d.entries[p.temp]] - {p.temp}), was, p, false)
  {
    assert d.entries[p.target := d.entries[p.temp]] - {p.temp} == was.entries[p.target := was.next];
    assert was.onDisk + [d.entries] + [was.entries[p.target := was.next]] == was.onDisk + [d.entries, was.entries[p.target := was.next]];
  }

  /** What the error guard does: unlink the temporary file. */
  method CleanUp(dir: Directory, temp: string, ghost was: Disk, ghost p: Replacement)
    requires Fits(p, was) && p.temp == temp && Writing(dir.disk, was, p) && AllOnTheWay(dir.history, was, p)
    modifies dir`disk, dir`history
    ensures AllOnTheWay(dir.history, was, p)
    ensures if dir.verdicts.unlinks then GivenUp(dir.disk, was, p) else Writing(dir.disk, was, p)
  {
    hide AllOnTheWay;
    ghost var states := dir.history;
    ghost var before := dir.disk;
    dir.Unlink(temp);
    assert before.entries - {temp} == was.entries;
    assert was.onDisk + [before.entries] + [was.entries] == was.onDisk + [before.entries, was.entries];
    OneMoreState(states, dir.disk, was, p);
  }

  // ---- losing power ----

  type Files = map<string, seq<Byte>>

  /** What may be left of the disk: some entries it may hold, synced files with their bytes, others with any. */
  ghost predicate SurvivesAs(d: Disk, entries: Entries, left: Files) {
    && left.Keys == entries.Keys
    && forall name :: name in entries && entries[name] in d.inodes && d.inodes[entries[name]].synced
                      ==> left[name] == d.inodes[entries[name]].data
  }

  ghost predicate Survives(d: Disk, left: Files) {
    exists k :: 0 <= k < |d.onDisk| && SurvivesAs(d, d.onDisk[k], left)
  }

  /** The content is in the file for certain. */
  ghost predicate Certain(d: Disk, name: string, content: seq<Byte>) {
    forall left: Files :: Survives(d, left) ==> name in left && left[name] == content
  }

  /** The file may have bytes that never were written. */
  ghost predicate Loose(d: Disk, name: string) {
    exists k :: 0 <= k < |d.onDisk| && name in d.onDisk[k] && !(d.onDisk[k][name] in d.inodes && d.inodes[d.onDisk[k][name]].synced)
  }

  function In(left: Files, name: string): Option<seq<Byte>> {
    if name in left then Some(left[name]) else None
  }

  /** What is left is something that could have been left before, but for the target, which may be the new file. */
  ghost predicate AsBefore(left: Files, was: Disk, p: Replacement) {
    exists left0: Files ::
      && Survives(was, left0)
      && (forall name :: name != p.target && name != p.temp ==> In(left, name) == In(left0, name))
      && (In(left, p.target) == In(left0, p.target) || In(left, p.target) == Some(p.content))
  }

  lemma {:induction false} LastEntries(was: Disk)
    requires ValidDisk(was)
    ensures var k := |was.onDisk| - 1; 0 <= k && was.onDisk[k] == was.entries
    ensures was.next !in was.inodes
    ensures forall name :: name in was.entries ==> was.entries[name] in was.inodes
  {
  }

  /** Entries of before, with the files of before among others. */
  lemma {:induction false} OldEntriesLeft(d: Disk, was: Disk, k: nat, left: Files)
    requires ValidDisk(was) && k < |was.onDisk| && SurvivesAs(d, was.onDisk[k], left)
    requires forall i :: i in was.inodes ==> i in d.inodes && d.inodes[i] == was.inodes[i]
    ensures Survives(was, left)
  {
    assert SurvivesAs(was, was.onDisk[k], left);
  }

  /** The entries of just before with a temporary file. */
  lemma {:induction false} TemporaryLeft(d: Disk, was: Disk, p: Replacement, left: Files)
    requires ValidDisk(was) && Fits(p, was) && SurvivesAs(d, was.entries[p.temp := was.next], left)
    requires forall i :: i in was.inodes ==> i in d.inodes && d.inodes[i] == was.inodes[i]
    ensures AsBefore(left, was, p)
  {
    LastEntries(was);
    var left0 := left - {p.temp};
    assert SurvivesAs(was, was.onDisk[|was.onDisk| - 1], left0);
    assert Survives(was, left0);
  }

  /** What a target was before it got the new file. */
  lemma {:induction false} UndoTarget(d: Disk, was: Disk, target: string, left: Files) returns (left0: Files)
    requires ValidDisk(was) && SurvivesAs(d, was.entries[target := was.next], left)
    requires forall i :: i in was.inodes ==> i in d.inodes && d.inodes[i] == was.inodes[i]
    ensures Survives(was, left0) && left0 - {target} == left - {target}
  {
    LastEntries(was);
    if target in was.entries {
      left0 := left[target := was.inodes[was.entries[target]].data];
    } else {
      left0 := left - {target};
    }
    hide ValidDisk;
    assert SurvivesAs(was, was.onDisk[|was.onDisk| - 1], left0);
  }

  lemma {:induction false} OthersAgree(a: Files, b: Files, target: string)
    requires a - {target} == b - {target}
    ensures forall name :: name != target ==> In(a, name) == In(b, name)
  {
    forall name | name != target ensures In(a, name) == In(b, name) {
      assert name in a <==> name in a - {target};
      assert name in b <==> name in b - {target};
      if name in a {
        assert (a - {target})[name] == a[name] && (b - {target})[name] == b[name];
      }
    }
  }

  /** The new entries, with a new file that is on disk. */
  lemma {:induction false} ReplacedLeft(d: Disk, was: Disk, p: Replacement, left: Files)
    requires ValidDisk(was) && SurvivesAs(d, was.entries[p.target := was.next], left)
    requires forall i :: i in was.inodes ==> i in d.inodes && d.inodes[i] == was.inodes[i]
    requires was.next in d.inodes && d.inodes[was.next] == Stored(p.content, true)
    ensures AsBefore(left, was, p)
  {
    var left0 := UndoTarget(d, was, p.target, left);
    OthersAgree(left, left0, p.target);
    hide ValidDisk, Survives;
    assert In(left, p.target) == Some(p.content);
  }

  lemma {:induction false} SameIsAsBefore(left: Files, was: Disk, p: Replacement)
    requires Survives(was, left)
    ensures AsBefore(left, was, p)
  {
  }

  /** The entries on which a state on the way differs from what was, beyond the temporary file. */
  ghost predicate NewEntries(d: Disk, was: Disk, p: Replacement, k: nat) {
    d != was && (Installed(d, was, p, true) || (Installed(d, was, p, false) && k == |was.onDisk| + 1))
  }

  lemma {:induction false} OldLeft(d: Disk, was: Disk, p: Replacement, k: nat, left: Files)
    requires ValidDisk(was) && OnTheWay(d, was, p)
    requires k < |d.onDisk| && SurvivesAs(d, d.onDisk[k], left) && !NewEntries(d, was, p, k)
    ensures AsBefore(left, was, p)
  {
    LastEntries(was);
    hide AsBefore, ValidDisk, SurvivesAs;
    if d == was {
      OldEntriesLeft(d, was, k, left);
      SameIsAsBefore(left, was, p);
    } else if d.onDisk[k] == was.entries[p.temp := was.next] {
      TemporaryLeft(d, was, p, left);
    } else {
      var j := if k < |was.onDisk| then k else |was.onDisk| - 1;
      OldEntriesLeft(d, was, j, left);
      SameIsAsBefore(left, was, p);
    }
  }

  lemma {:induction false} NewLeft(d: Disk, was: Disk, p: Replacement, k: nat)
    requires ValidDisk(was) && k < |d.onDisk| && NewEntries(d, was, p, k)
    ensures d.onDisk[k] == was.entries[p.target := was.next]
    ensures was.next in d.inodes && d.inodes[was.next] == Stored(p.content, p.flushed)
    ensures forall i :: i in was.inodes ==> i in d.inodes && d.inodes[i] == was.inodes[i]
  {
    LastEntries(was);
    hide ValidDisk;
  }

  /**
   A loss of power in any state on the way, if the fsync of the file works: whatever is left could have been
   left before, but for the temporary file and a target with the whole new content.
   */
  lemma {:induction false} OldOrNewAfterPowerLoss(d: Disk, was: Disk, p: Replacement, left: Files)
    requires ValidDisk(was) && OnTheWay(d, was, p) && p.flushed
    requires Survives(d, left)
    ensures AsBefore(left, was, p)
  {
    hide AsBefore, ValidDisk, SurvivesAs, OnTheWay, NewEntries;
    var k :| 0 <= k < |d.onDisk| && SurvivesAs(d, d.onDisk[k], left);
    if NewEntries(d, was, p, k) {
      NewLeft(d, was, p, k);
      ReplacedLeft(d, was, p, left);
    } else {
      OldLeft(d, was, p, k, left);
    }
  }

  lemma {:induction false} SomeSurvivor(d: Disk, k: nat, name: string, content: seq<Byte>) returns (left: Files)
    requires ValidDisk(d) && k < |d.onDisk|
    ensures Survives(d, left) && left.Keys == d.onDisk[k].Keys
    ensures name in left && !d.inodes[d.onDisk[k][name]].synced ==> left[name] == content
  {
    var entries := d.onDisk[k];
    assert forall n :: n in entries ==> entries[n] in d.inodes;
    left := map n | n in entries :: if n == name && !d.inodes[entries[n]].synced then content else d.inodes[entries[n]].data;
    assert SurvivesAs(d, entries, left);
  }

  lemma {:induction false} InstalledIsValid(d: Disk, was: Disk, p: Replacement, settled: bool)
    requires ValidDisk(was) && Fits(p, was) && Installed(d, was, p, settled)
    ensures ValidDisk(d)
  {
    LastEntries(was);
    var names := was.entries[p.temp := was.next];
    forall k, name | 0 <= k < |d.onDisk| && name in d.onDisk[k] ensures d.onDisk[k][name] in d.inodes {
      if !settled && k < |was.onDisk| {
        assert d.onDisk[k] == was.onDisk[k];
        assert was.onDisk[k][name] in was.inodes;
      } else {
        assert d.onDisk[k] == names || d.onDisk[k] == d.entries;
      }
    }
  }

  lemma {:induction false} OnlyNewLeft(d: Disk, was: Disk, p: Replacement)
    requires ValidDisk(was) && Fits(p, was) && Installed(d, was, p, true) && p.flushed
    ensures Certain(d, p.target, p.content)
  {
    forall left: Files | Survives(d, left) ensures p.target in left && left[p.target] == p.content {
      var k :| 0 <= k < |d.onDisk| && SurvivesAs(d, d.onDisk[k], left);
    }
  }

  /** Without the fsync of the directory, all that could be left before can still be left. */
  lemma {:induction false} StillLeft(d: Disk, was: Disk, p: Replacement, left: Files)
    requires ValidDisk(was) && Installed(d, was, p, false) && Survives(was, left)
    ensures Survives(d, left)
  {
    LastEntries(was);
    var k :| 0 <= k < |was.onDisk| && SurvivesAs(was, was.onDisk[k], left);
    assert d.onDisk[k] == was.onDisk[k];
    assert forall name :: name in was.onDisk[k] ==> was.onDisk[k][name] in was.inodes;
    assert SurvivesAs(d, d.onDisk[k], left);
  }

  lemma {:induction false} CertainStays(d: Disk, was: Disk, p: Replacement)
    requires ValidDisk(was) && Fits(p, was) && Installed(d, was, p, false) && p.flushed
    ensures Certain(d, p.target, p.content) <==> Certain(was, p.target, p.content)
  {
    hide ValidDisk, Fits, Installed, Survives;
    if Certain(was, p.target, p.content) {
      forall left: Files | Survives(d, left) ensures p.target in left && left[p.target] == p.content {
        OldOrNewAfterPowerLoss(d, was, p, left);
      }
    }
    if Certain(d, p.target, p.content) {
      forall left: Files | Survives(was, left) ensures p.target in left && left[p.target] == p.content {
        StillLeft(d, was, p, left);
      }
    }
  }

  /**
   After a write that succeeded, the target has the new content for certain, whenever the power is lost, if and
   only if the fsync of the file worked, and that of the directory too unless it had that content for certain before.
   */
  lemma {:induction false} PowerLossIff(d: Disk, was: Disk, p: Replacement, settled: bool)
    requires ValidDisk(was) && Fits(p, was) && Installed(d, was, p, settled)
    ensures Certain(d, p.target, p.content) <==> p.flushed && (settled || Certain(was, p.target, p.content))
  {
    if !p.flushed {
      InstalledIsValid(d, was, p, settled);
      var left := SomeSurvivor(d, |d.onDisk| - 1, p.target, p.content + [0]);
      assert left[p.target] != p.content;
    } else if settled {
      OnlyNewLeft(d, was, p);
    } else {
      CertainStays(d, was, p);
    }
  }

  // ---- a complete target after a loss of power ----

  ghost predicate TargetOldOrNew(d: Disk, was: Disk, p: Replacement) {
    forall left: Files :: Survives(d, left) ==> TargetAllowed(left, was, p)
  }

  ghost predicate TargetAllowed(left: Files, was: Disk, p: Replacement) {
    || In(left, p.target) == Some(p.content)
    || exists left0: Files :: Survives(was, left0) && In(left0, p.target) == In(left, p.target)
  }

  /** More bytes than any file of that name has on the disk. */
  function Beyond(d: Disk, name: string, k: nat): (n: nat)
    requires k <= |d.onDisk|
    ensures forall j :: 0 <= j < k && name in d.onDisk[j] && d.onDisk[j][name] in d.inodes ==> |d.inodes[d.onDisk[j][name]].data| < n
  {
    if k == 0 then 0
    else
      var n, entries := Beyond(d, name, k - 1), d.onDisk[k - 1];
      if name in entries && entries[name] in d.inodes then n + |d.inodes[entries[name]].data| + 1 else n
  }

  lemma {:induction false} AnyContentLeft(was: Disk, name: string, content: seq<Byte>) returns (left: Files)
    requires ValidDisk(was) && Loose(was, name)
    ensures Survives(was, left) && In(left, name) == Some(content)
  {
    var k :| 0 <= k < |was.onDisk| && name in was.onDisk[k]
             && !(was.onDisk[k][name] in was.inodes && was.inodes[was.onDisk[k][name]].synced);
    left := SomeSurvivor(was, k, name, content);
  }

  lemma {:induction false} FirmIsBounded(was: Disk, name: string, left: Files)
    requires ValidDisk(was) && !Loose(was, name) && Survives(was, left)
    ensures name in left ==> |left[name]| < Beyond(was, name, |was.onDisk|)
  {
    var k :| 0 <= k < |was.onDisk| && SurvivesAs(was, was.onDisk[k], left);
  }

  /** Bytes under the target that no one ever wrote. */
  lemma {:induction false} TornLeft(d: Disk, was: Disk, p: Replacement, settled: bool)
    requires ValidDisk(was) && Fits(p, was) && Installed(d, was, p, settled) && !p.flushed && !Loose(was, p.target)
    ensures !TargetOldOrNew(d, was, p)
  {
    InstalledIsValid(d, was, p, settled);
    var bytes: seq<Byte> := seq(Beyond(was, p.target, |was.onDisk|) + |p.content| + 1, _ => 0);
    var left := SomeSurvivor(d, |d.onDisk| - 1, p.target, bytes);
    hide ValidDisk, Survives, Loose, Installed;
    if TargetOldOrNew(d, was, p) {
      assert TargetAllowed(left, was, p);
      var left0: Files :| Survives(was, left0) && In(left0, p.target) == In(left, p.target);
      FirmIsBounded(was, p.target, left0);
    }
  }

  lemma {:induction false} AsBeforeTarget(left: Files, was: Disk, p: Replacement)
    requires AsBefore(left, was, p)
    ensures TargetAllowed(left, was, p)
  {
  }

  lemma {:induction false} LooseAllows(d: Disk, was: Disk, p: Replacement, left: Files)
    requires ValidDisk(was) && OnTheWay(d, was, p) && Loose(was, p.target) && Survives(d, left)
    ensures TargetAllowed(left, was, p)
  {
    hide AsBefore, ValidDisk, OnTheWay, NewEntries, Loose;
    var k :| 0 <= k < |d.onDisk| && SurvivesAs(d, d.onDisk[k], left);
    if NewEntries(d, was, p, k) {
      NewLeft(d, was, p, k);
      var left0 := AnyContentLeft(was, p.target, left[p.target]);
    } else {
      OldLeft(d, was, p, k, left);
      AsBeforeTarget(left, was, p);
    }
  }

  /**
   After a write that succeeded, a loss of power leaves the target as it could have been left before, or with the
   whole new content, if and only if the fsync of the file worked, or bytes no one wrote were possible before.
   */
  lemma {:induction false} CompleteTargetIff(d: Disk, was: Disk, p: Replacement, settled: bool)
    requires ValidDisk(was) && Fits(p, was) && Installed(d, was, p, settled)
    ensures TargetOldOrNew(d, was, p) <==> p.flushed || Loose(was, p.target)
  {
    assert OnTheWay(d, was, p) by {
      assert Installed(d, was, p, true) || Installed(d, was, p, false);
    }
    hide AsBefore, ValidDisk, OnTheWay, Installed, Survives, Fits, TargetAllowed, Loose;
    if p.flushed || Loose(was, p.target) {
      forall left: Files | Survives(d, left) ensures TargetAllowed(left, was, p) {
        if p.flushed {
          OldOrNewAfterPowerLoss(d, was, p, left);
          AsBeforeTarget(left, was, p);
        } else {
          LooseAllows(d, was, p, left);
        }
      }
    } else {
      TornLeft(d, was, p, settled);
    }
  }
}
