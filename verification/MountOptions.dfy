/**
 Mount options: the tables, and the sorting of a list of options into the parts of a mount. A flag word is
 the set of its bits, by their places.
 */
module MountOptions {
  import opened Results
  import opened Decimal
  import opened TextSearch
  import opened RangeList

  // ---- tables ----

  datatype Entry = Entry(bits: set<nat>, name: string)

  const RDONLY := 0
  const NOSUID := 1
  const NODEV := 2
  const NOEXEC := 3
  const SYNCHRONOUS := 4
  const REMOUNT := 5
  const MANDLOCK := 6
  const DIRSYNC := 7
  const NOSYMFOLLOW := 8
  const NOATIME := 10
  const NODIRATIME := 11
  const BIND := 12
  const REC := 14
  const SILENT := 15
  const UNBINDABLE := 17
  const PRIVATE := 18
  const SLAVE := 19
  const SHARED := 20
  const RELATIME := 21
  const I_VERSION := 23
  const STRICTATIME := 24
  const LAZYTIME := 25

  const VFS: seq<Entry> := [
    Entry({BIND}, "bind"), Entry({DIRSYNC}, "dirsync"), Entry({}, "defaults"), Entry({I_VERSION}, "iversion"),
    Entry({LAZYTIME}, "lazytime"), Entry({MANDLOCK}, "mand"), Entry({NOATIME}, "noatime"), Entry({NODEV}, "nodev"),
    Entry({NODIRATIME}, "nodiratime"), Entry({NOEXEC}, "noexec"), Entry({NOSUID}, "nosuid"),
    Entry({NOSYMFOLLOW}, "nosymfollow"), Entry({BIND, REC}, "rbind"), Entry({RELATIME}, "relatime"),
    Entry({REMOUNT}, "remount"), Entry({RDONLY}, "ro"), Entry({SILENT}, "silent"),
    Entry({STRICTATIME}, "strictatime"), Entry({SYNCHRONOUS}, "sync")]

  const UNSET: seq<Entry> := [
    Entry({SYNCHRONOUS}, "async"), Entry({NOATIME}, "atime"), Entry({NODEV}, "dev"), Entry({NODIRATIME}, "diratime"),
    Entry({NOEXEC}, "exec"), Entry({SILENT}, "loud"), Entry({I_VERSION}, "noiversion"), Entry({LAZYTIME}, "nolazytime"),
    Entry({MANDLOCK}, "nomand"), Entry({RELATIME}, "norelatime"), Entry({STRICTATIME}, "nostrictatime"),
    Entry({RDONLY}, "rw"), Entry({NOSUID}, "suid"), Entry({NOSYMFOLLOW}, "symfollow")]

  const PROPAGATION: seq<Entry> := [
    Entry({PRIVATE}, "private"), Entry({PRIVATE, REC}, "rprivate"), Entry({SLAVE}, "slave"), Entry({SLAVE, REC}, "rslave"),
    Entry({SHARED}, "shared"), Entry({SHARED, REC}, "rshared"), Entry({UNBINDABLE}, "unbindable"),
    Entry({UNBINDABLE, REC}, "runbindable")]

  /** Bits of mount_setattr: rdonly 0, nosuid 1, nodev 2, noexec 3, noatime 4, strictatime 5, nodiratime 7, nosymfollow 21. */
  const RECURSIVE_SET: seq<Entry> := [
    Entry({0}, "rro"), Entry({1}, "rnosuid"), Entry({2}, "rnodev"), Entry({3}, "rnoexec"), Entry({7}, "rnodiratime"),
    Entry({4}, "rnoatime"), Entry({5}, "rstrictatime"), Entry({21}, "rnosymfollow"), Entry({}, "rrelatime")]

  const RECURSIVE_CLEAR: seq<Entry> := [
    Entry({0}, "rrw"), Entry({1}, "rsuid"), Entry({2}, "rdev"), Entry({3}, "rexec"), Entry({7}, "rdiratime"),
    Entry({4}, "ratime"), Entry({5}, "rnostrictatime"), Entry({21}, "rsymfollow"), Entry({}, "rnorelatime")]

  datatype Extension = CopySymlink | TmpCopyUp

  datatype IdmapType = Idmap | Ridmap

  /** find: the first entry of that name. */
  function Lookup(table: seq<Entry>, key: string): Option<set<nat>> {
    if table == [] then None else if table[0].name == key then Some(table[0].bits) else Lookup(table[1..], key)
  }

  function ExtensionNamed(key: string): Option<Extension> {
    if key == "copy-symlink" then Some(CopySymlink) else if key == "tmpcopyup" then Some(TmpCopyUp) else None
  }

  function IdmapNamed(key: string): Option<IdmapType> {
    if key == "idmap" then Some(Idmap) else if key == "ridmap" then Some(Ridmap) else None
  }

  // ---- what one option means ----

  datatype Effect =
    | SetVfs(bits: set<nat>) | ClearVfs(bits: set<nat>)
    | SetPropagation(bits: set<nat>)
    | SetRecursive(bits: set<nat>) | ClearRecursive(bits: set<nat>)
    | Extend(extension: Extension)
    | MapIds(kind: IdmapType) | MapIdsInline(kind: IdmapType, mappings: string)
    | Unknown(text: string)

  function EffectOf(opt: string): Effect {
    if Lookup(VFS, opt).Some? then SetVfs(Lookup(VFS, opt).value)
    else if Lookup(UNSET, opt).Some? then ClearVfs(Lookup(UNSET, opt).value)
    else if Lookup(PROPAGATION, opt).Some? then SetPropagation(Lookup(PROPAGATION, opt).value)
    else if Lookup(RECURSIVE_SET, opt).Some? then SetRecursive(Lookup(RECURSIVE_SET, opt).value)
    else if Lookup(RECURSIVE_CLEAR, opt).Some? then ClearRecursive(Lookup(RECURSIVE_CLEAR, opt).value)
    else if ExtensionNamed(opt).Some? then Extend(ExtensionNamed(opt).value)
    else if IdmapNamed(opt).Some? then MapIds(IdmapNamed(opt).value)
    else
      var eq := Index(opt, '=');
      if eq < |opt| && IdmapNamed(opt[..eq]).Some? then MapIdsInline(IdmapNamed(opt[..eq]).value, opt[eq + 1..])
      else Unknown(opt)
  }

  datatype Category = OfVfs | OfPropagation | OfRecursive | OfExtension | OfIds | OfData

  function CategoryOf(e: Effect): Category {
    match e
    case SetVfs(_) => OfVfs
    case ClearVfs(_) => OfVfs
    case SetPropagation(_) => OfPropagation
    case SetRecursive(_) => OfRecursive
    case ClearRecursive(_) => OfRecursive
    case Extend(_) => OfExtension
    case MapIds(_) => OfIds
    case MapIdsInline(_, _) => OfIds
    case Unknown(_) => OfData
  }

  // ---- id mappings ----

  datatype OptionError = Exclusive | BadMapping | BadNumber | NoKey | UnknownKey

  datatype IdMapping = IdMapping(container: nat, host: nat, size: nat)

  const UID_MAX: nat := 0xFFFF_FFFF
  const SIZE_MAX: nat := 0xFFFF_FFFF_FFFF_FFFF

  /** from_chars on a stretch, whatever follows the digits in it. */
  function Leading(s: string, max: nat): Result<nat, OptionError> {
    var n := DigitCount(s);
    if n == 0 || Value(s[..n]) > max then Failure(BadNumber) else Success(Value(s[..n]))
  }

  function ParseChunk(chunk: string): Result<IdMapping, OptionError> {
    var first := Index(chunk, ':');
    if first == |chunk| then Failure(BadMapping)
    else
      var rest := chunk[first + 1..];
      var second := Index(rest, ':');
      if second == |rest| then Failure(BadMapping)
      else
        var container :- Leading(chunk[..first], UID_MAX);
        var host :- Leading(rest[..second], UID_MAX);
        var size :- Leading(rest[second + 1..], SIZE_MAX);
        Success(IdMapping(container, host, size))
  }

  function ParseMappings(value: string): Result<seq<IdMapping>, OptionError>
    decreases |value|
  {
    if value == "" then Success([])
    else
      var comma := Index(value, ',');
      var m :- ParseChunk(value[..comma]);
      if comma == |value| then Success([m])
      else
        var more :- ParseMappings(value[comma + 1..]);
        Success([m] + more)
  }

  datatype Ids = Ids(kind: Option<IdmapType>, uids: Option<seq<IdMapping>>, gids: Option<seq<IdMapping>>)

  /** parse_inline_idmap_option, behind the first equals sign. */
  function ParseInline(kind: IdmapType, rest: string, ids: Ids): Result<Ids, OptionError>
    decreases |rest|
  {
    if rest == "" then Success(ids.(kind := Some(kind)))
    else
      var comma := Index(rest, ',');
      var part := rest[..comma];
      var eq := Index(part, '=');
      if eq == |part| then Failure(NoKey)
      else if part[..eq] != "uids" && part[..eq] != "gids" then Failure(UnknownKey)
      else
        var mappings :- ParseMappings(part[eq + 1..]);
        var more := if part[..eq] == "uids" then ids.(uids := Some(mappings)) else ids.(gids := Some(mappings));
        if comma == |rest| then Success(more.(kind := Some(kind))) else ParseInline(kind, rest[comma + 1..], more)
  }

  // ---- the texts of id mappings ----

  predicate NoDigitFirst(s: string) {
    s == "" || !IsDigit(s[0])
  }

  /** A number is the digits at the beginning; at least one of them, and no more than the type holds. */
  lemma {:induction false} LeadingIs(digits: string, rest: string, max: nat)
    requires AllDigits(digits) && NoDigitFirst(rest)
    ensures Leading(digits + rest, max)
         == if digits != "" && Value(digits) <= max then Success(Value(digits)) else Failure(BadNumber)
  {
    DigitsCounted(digits, rest);
    assert (digits + rest)[..|digits|] == digits;
  }

  /** Three numbers between colons: the container's first id, the host's, and how many. */
  lemma {:induction false} ChunkIs(a: string, b: string, c: string)
    requires ':' !in a && ':' !in b
    ensures var m := ParseChunk(a + ":" + b + ":" + c);
            var first, second, third := Leading(a, 0xFFFF_FFFF), Leading(b, 0xFFFF_FFFF), Leading(c, 0xFFFF_FFFF_FFFF_FFFF);
            if first.Success? && second.Success? && third.Success?
            then m == Success(IdMapping(first.value, second.value, third.value))
            else m == Failure(BadNumber)
  {
    hide Leading;
    var tail := ":" + b + ":" + c;
    assert a + ":" + b + ":" + c == a + tail;
    IndexIs(a, tail, ':');
    assert (a + tail)[..|a|] == a && (a + tail)[|a| + 1..] == b + (":" + c);
    IndexIs(b, ":" + c, ':');
    assert (b + (":" + c))[..|b|] == b && (b + (":" + c))[|b| + 1..] == c;
    LeadingFails(a, 0xFFFF_FFFF);
    LeadingFails(b, 0xFFFF_FFFF);
    LeadingFails(c, 0xFFFF_FFFF_FFFF_FFFF);
  }

  lemma {:induction false} LeadingFails(s: string, max: nat)
    ensures Leading(s, max).Failure? ==> Leading(s, max) == Failure(BadNumber)
  {
  }

  lemma {:induction false} ChunkNeedsColons(a: string, b: string)
    requires ':' !in a && ':' !in b
    ensures ParseChunk(a) == Failure(BadMapping) && ParseChunk(a + ":" + b) == Failure(BadMapping)
  {
    IndexIs(a, "", ':');
    assert a + "" == a;
    IndexIs(a, ":" + b, ':');
    assert a + (":" + b) == a + ":" + b;
    assert (a + ":" + b)[|a| + 1..] == b;
    IndexIs(b, "", ':');
    assert b + "" == b;
  }

  lemma {:induction false} LeadingOfDigits(n: nat, max: nat)
    requires n <= max
    ensures Leading(Digits(n), max) == Success(n)
  {
    LeadingIs(Digits(n), "", max);
    assert Digits(n) + "" == Digits(n);
    ValueOfDigits(n);
  }

  /** A mapping that is written with its three numbers is read back. */
  lemma {:induction false} MappingReadsBack(m: IdMapping)
    requires m.container <= 0xFFFF_FFFF && m.host <= 0xFFFF_FFFF && m.size <= 0xFFFF_FFFF_FFFF_FFFF
    ensures ParseChunk(Digits(m.container) + ":" + Digits(m.host) + ":" + Digits(m.size)) == Success(m)
  {
    hide Leading, ParseChunk;
    LeadingOfDigits(m.container, 0xFFFF_FFFF);
    LeadingOfDigits(m.host, 0xFFFF_FFFF);
    LeadingOfDigits(m.size, 0xFFFF_FFFF_FFFF_FFFF);
    ChunkIs(Digits(m.container), Digits(m.host), Digits(m.size));
  }

  /** What one key of an inline option does: the mappings of its kind are replaced by those of the value. */
  function WithKey(key: string, value: string, ids: Ids): Result<Ids, OptionError> {
    if key != "uids" && key != "gids" then Failure(UnknownKey)
    else
      var m := if value == "" then Success([]) else Wrapped(ParseChunk(value));
      match m
      case Failure(e) => Failure(e)
      case Success(mappings) => Success(if key == "uids" then ids.(uids := Some(mappings)) else ids.(gids := Some(mappings)))
  }

  function Wrapped(m: Result<IdMapping, OptionError>): Result<seq<IdMapping>, OptionError> {
    match m
    case Failure(e) => Failure(e)
    case Success(x) => Success([x])
  }

  lemma {:induction false} MappingsOfOne(value: string)
    requires ',' !in value
    ensures ParseMappings(value) == if value == "" then Success([]) else Wrapped(ParseChunk(value))
  {
    hide ParseChunk;
    IndexIs(value, "", ',');
    assert value + "" == value && value[..|value|] == value;
  }

  /** Mappings stand between commas; one at the end adds none. */
  lemma {:induction false} MappingsByCommas(chunk: string, rest: string)
    requires ',' !in chunk
    ensures ParseMappings(chunk + "," + rest)
         == match ParseChunk(chunk)
            case Failure(e) => Failure(e)
            case Success(m) => (match ParseMappings(rest) case Failure(e) => Failure(e) case Success(more) => Success([m] + more))
  {
    hide ParseChunk;
    IndexIs(chunk, "," + rest, ',');
    assert chunk + "," + rest == chunk + ("," + rest);
    assert (chunk + ("," + rest))[..|chunk|] == chunk && (chunk + ("," + rest))[|chunk| + 1..] == rest;
  }

  /** An inline option is taken key by key: the first one, then those behind the next comma. */
  lemma {:induction false} InlineByKeys(kind: IdmapType, key: string, value: string, rest: string, ids: Ids)
    requires '=' !in key && ',' !in key && ',' !in value
    ensures ParseInline(kind, "", ids) == Success(ids.(kind := Some(kind)))
    ensures ParseInline(kind, key + "=" + value, ids)
         == match WithKey(key, value, ids) case Failure(e) => Failure(e) case Success(more) => Success(more.(kind := Some(kind)))
    ensures ParseInline(kind, key + "=" + value + "," + rest, ids)
         == match WithKey(key, value, ids) case Failure(e) => Failure(e) case Success(more) => ParseInline(kind, rest, more)
  {
    hide ParseMappings, ParseChunk;
    var part := key + "=" + value;
    MappingsOfOne(value);
    PartIs(key, value, "");
    assert part + "" == part;
    PartIs(key, value, "," + rest);
    assert part + "," + rest == part + ("," + rest);
    assert (part + ("," + rest))[|part| + 1..] == rest;
  }

  lemma {:induction false} PartIs(key: string, value: string, tail: string)
    requires '=' !in key && ',' !in key && ',' !in value && (tail == "" || tail[0] == ',')
    ensures var part := key + "=" + value;
            && Index(part + tail, ',') == |part| && (part + tail)[..|part|] == part
            && Index(part, '=') == |key| && part[..|key|] == key && part[|key| + 1..] == value
  {
    var part := key + "=" + value;
    assert ',' !in part;
    IndexIs(part, tail, ',');
    IndexIs(key, "=" + value, '=');
    assert key + ("=" + value) == part;
  }

  /** Without an equals sign there is no key. */
  lemma {:induction false} InlineNeedsKeys(kind: IdmapType, part: string, tail: string, ids: Ids)
    requires part + tail != "" && '=' !in part && ',' !in part && (tail == "" || tail[0] == ',')
    ensures ParseInline(kind, part + tail, ids) == Failure(NoKey)
  {
    hide ParseMappings;
    IndexIs(part, tail, ',');
    assert (part + tail)[..|part|] == part;
    IndexIs(part, "", '=');
    assert part + "" == part;
  }

  predicate AtMostOne(m: Option<seq<IdMapping>>) {
    m.Some? ==> |m.value| <= 1
  }

  lemma {:induction false} NoCommaOneMapping(value: string)
    requires ',' !in value && ParseMappings(value).Success?
    ensures |ParseMappings(value).value| <= 1
  {
  }

  /** The commas of an option separate its keys, so it never holds more than one mapping of a kind. */
  lemma {:induction false} InlineHoldsOneMapping(kind: IdmapType, rest: string, ids: Ids)
    requires AtMostOne(ids.uids) && AtMostOne(ids.gids) && ParseInline(kind, rest, ids).Success?
    ensures var r := ParseInline(kind, rest, ids).value; r.kind == Some(kind) && AtMostOne(r.uids) && AtMostOne(r.gids)
    decreases |rest|
  {
    hide ParseMappings;
    if rest != "" {
      var comma := Index(rest, ',');
      var part := rest[..comma];
      NotBefore(rest, ',');
      var eq := Index(part, '=');
      var value := part[eq + 1..];
      assert forall k :: 0 <= k < |value| ==> value[k] == part[eq + 1 + k];
      assert ',' !in value;
      NoCommaOneMapping(value);
      var mappings := ParseMappings(value).value;
      var more := if part[..eq] == "uids" then ids.(uids := Some(mappings)) else ids.(gids := Some(mappings));
      if comma < |rest| {
        InlineHoldsOneMapping(kind, rest[comma + 1..], more);
      }
    }
  }

  // ---- what the options make together ----

  datatype Recursive = Recursive(sets: set<nat>, clears: set<nat>)

  /** The parts of a mount so far, or with an error in place of the ids. */
  datatype Parts = Parts(
    vfs: set<nat>,
    propagation: set<nat>,
    recursive: Option<Recursive>,
    extensions: set<Extension>,
    ids: Result<Ids, OptionError>,
    data: string)

  const NO_PARTS := Parts({}, {}, None, {}, Success(Ids(None, None, None)), "")

  function MoreRecursive(before: Option<Recursive>, sets: set<nat>, clears: set<nat>): Option<Recursive> {
    var r := if before.Some? then before.value else Recursive({}, {});
    Some(Recursive(r.sets + sets, r.clears + clears))
  }

  /** One more option about ids. An inline mapping replaces both earlier mappings. */
  function MoreIds(before: Result<Ids, OptionError>, e: Effect): Result<Ids, OptionError> {
    if before.Failure? then before
    else
      var ids := before.value;
      match e
      case MapIds(kind) =>
        if ids.kind.Some? && ids.kind != Some(kind) then Failure(Exclusive) else Success(ids.(kind := Some(kind)))
      case MapIdsInline(kind, mappings) =>
        if ids.kind.Some? && ids.kind != Some(kind) then Failure(Exclusive) else ParseInline(kind, mappings, Ids(None, None, None))
      case _ => before
  }

  function Applied(p: Parts, e: Effect): Parts {
    match e
    case SetVfs(bits) => p.(vfs := p.vfs + bits)
    case ClearVfs(bits) => p.(vfs := p.vfs - bits)
    case SetPropagation(bits) => p.(propagation := p.propagation + bits)
    case SetRecursive(bits) => p.(recursive := MoreRecursive(p.recursive, bits, {}))
    case ClearRecursive(bits) => p.(recursive := MoreRecursive(p.recursive, {}, bits))
    case Extend(extension) => p.(extensions := p.extensions + {extension})
    case MapIds(_) => p.(ids := MoreIds(p.ids, e))
    case MapIdsInline(_, _) => p.(ids := MoreIds(p.ids, e))
    case Unknown(text) => p.(data := (if p.data == "" then "" else p.data + ",") + text)
  }

  function Folded(opts: seq<string>): Parts {
    if opts == [] then NO_PARTS else Applied(Folded(opts[..|opts| - 1]), EffectOf(opts[|opts| - 1]))
  }

  datatype Mount = Mount(
    vfs: set<nat>,
    propagation: set<nat>,
    recursive: Option<Recursive>,
    extensions: set<Extension>,
    ids: Ids,
    data: string)

  function PartsOf(opts: seq<string>): Result<Mount, OptionError> {
    var p := Folded(opts);
    match p.ids
    case Failure(e) => Failure(e)
    case Success(ids) => Success(Mount(p.vfs, p.propagation, p.recursive, p.extensions, ids, p.data))
  }

  // ---- the loop ----

  lemma {:induction false} FailureStays(opts: seq<string>, i: nat)
    requires i <= |opts| && Folded(opts[..i]).ids.Failure?
    ensures Folded(opts).ids == Folded(opts[..i]).ids
    decreases |opts| - i
  {
    hide EffectOf;
    if i < |opts| {
      assert opts[..i + 1][..i] == opts[..i];
      FailureStays(opts, i + 1);
    } else {
      assert opts[..i] == opts;
    }
  }

  /** parse_mount_options: one pass over the options that keeps every part up to date. */
  method ParseMountOptions(options: seq<string>) returns (r: Result<Mount, OptionError>)
    ensures r == PartsOf(options)
  {
    hide EffectOf, ParseInline;
    var vfs, propagation: set<nat>, recursive := {}, {}, None;
    var extensions, ids, data := {}, Ids(None, None, None), "";
    for i := 0 to |options|
      invariant Folded(options[..i]) == Parts(vfs, propagation, recursive, extensions, Success(ids), data)
    {
      assert options[..i + 1][..i] == options[..i];
      var opt := options[i];
      match EffectOf(opt) {
        case SetVfs(bits) => vfs := vfs + bits;
        case ClearVfs(bits) => vfs := vfs - bits;
        case SetPropagation(bits) => propagation := propagation + bits;
        case SetRecursive(bits) =>
          var old_ := if recursive.Some? then recursive.value else Recursive({}, {});
          assert old_.clears + {} == old_.clears;
          recursive := Some(old_.(sets := old_.sets + bits));
        case ClearRecursive(bits) =>
          var old_ := if recursive.Some? then recursive.value else Recursive({}, {});
          assert old_.sets + {} == old_.sets;
          recursive := Some(old_.(clears := old_.clears + bits));
        case Extend(e) => extensions := extensions + {e};
        case MapIds(kind) =>
          if ids.kind.Some? && ids.kind != Some(kind) {
            FailureStays(options, i + 1);
            return Failure(Exclusive);
          }
          ids := ids.(kind := Some(kind));
        case MapIdsInline(kind, mappings) =>
          if ids.kind.Some? && ids.kind != Some(kind) {
            FailureStays(options, i + 1);
            return Failure(Exclusive);
          }
          var parsed := ParseInline(kind, mappings, Ids(None, None, None));
          if parsed.Failure? {
            FailureStays(options, i + 1);
            return Failure(parsed.error);
          }
          ids := parsed.value;
        case Unknown(text) =>
          if data != "" {
            data := data + ",";
          }
          data := data + text;
      }
    }
    assert options[..|options|] == options;
    r := Success(Mount(vfs, propagation, recursive, extensions, ids, data));
  }

  // ---- a bit is decided by the last option about it ----

  predicate Decides(e: Effect, bit: nat) {
    (e.SetVfs? || e.ClearVfs?) && bit in e.bits
  }

  predicate LastAbout(opts: seq<string>, bit: nat, i: nat) {
    && i < |opts| && Decides(EffectOf(opts[i]), bit)
    && forall j :: i < j < |opts| ==> !Decides(EffectOf(opts[j]), bit)
  }

  lemma {:induction false} VfsByLastOption(opts: seq<string>, bit: nat)
    ensures bit in Folded(opts).vfs <==> exists i: nat :: LastAbout(opts, bit, i) && EffectOf(opts[i]).SetVfs?
    decreases |opts|
  {
    hide EffectOf;
    if opts != [] {
      var front, last := opts[..|opts| - 1], |opts| - 1;
      VfsByLastOption(front, bit);
      if Decides(EffectOf(opts[last]), bit) {
        assert LastAbout(opts, bit, last);
      } else {
        forall i: nat ensures LastAbout(opts, bit, i) <==> LastAbout(front, bit, i) {
          if LastAbout(front, bit, i) {
            assert forall j :: i < j < |front| ==> opts[j] == front[j];
          }
          if LastAbout(opts, bit, i) {
            assert forall j :: i < j < |front| ==> opts[j] == front[j];
          }
        }
        assert forall i: nat :: LastAbout(front, bit, i) ==> front[i] == opts[i];
      }
    }
  }

  // ---- what the names mean ----

  /** The option is the name of an entry with that bit. */
  ghost predicate InTable(table: seq<Entry>, opt: string, bit: nat) {
    exists k :: 0 <= k < |table| && table[k].name == opt && bit in table[k].bits
  }

  ghost predicate IsNamed(table: seq<Entry>, opt: string) {
    exists k :: 0 <= k < |table| && table[k].name == opt
  }

  ghost predicate Distinct(table: seq<Entry>) {
    forall k, l :: 0 <= k < l < |table| ==> table[k].name != table[l].name
  }

  ghost predicate Disjoint(a: seq<Entry>, b: seq<Entry>) {
    forall k, l :: 0 <= k < |a| && 0 <= l < |b| ==> a[k].name != b[l].name
  }

  lemma {:induction false} VfsDistinct()
    ensures Distinct(VFS)
  {
  }

  lemma {:induction false} UnsetDistinct()
    ensures Distinct(UNSET)
  {
  }

  lemma {:induction false} PropagationDistinct()
    ensures Distinct(PROPAGATION)
  {
  }

  lemma {:induction false} RecursiveSetDistinct()
    ensures Distinct(RECURSIVE_SET)
  {
  }

  lemma {:induction false} RecursiveClearDistinct()
    ensures Distinct(RECURSIVE_CLEAR)
  {
  }

  lemma {:induction false} VfsOrUnset()
    ensures Disjoint(VFS, UNSET)
  {
  }

  lemma {:induction false} VfsOrPropagation()
    ensures Disjoint(VFS, PROPAGATION)
  {
  }

  lemma {:induction false} VfsOrRecursiveSet()
    ensures Disjoint(VFS, RECURSIVE_SET)
  {
  }

  lemma {:induction false} VfsOrRecursiveClear()
    ensures Disjoint(VFS, RECURSIVE_CLEAR)
  {
  }

  lemma {:induction false} UnsetOrPropagation()
    ensures Disjoint(UNSET, PROPAGATION)
  {
  }

  lemma {:induction false} UnsetOrRecursiveSet()
    ensures Disjoint(UNSET, RECURSIVE_SET)
  {
  }

  lemma {:induction false} UnsetOrRecursiveClear()
    ensures Disjoint(UNSET, RECURSIVE_CLEAR)
  {
  }

  lemma {:induction false} PropagationOrRecursiveSet()
    ensures Disjoint(PROPAGATION, RECURSIVE_SET)
  {
  }

  lemma {:induction false} PropagationOrRecursiveClear()
    ensures Disjoint(PROPAGATION, RECURSIVE_CLEAR)
  {
  }

  lemma {:induction false} RecursiveSetOrRecursiveClear()
    ensures Disjoint(RECURSIVE_SET, RECURSIVE_CLEAR)
  {
  }

  /** No name stands twice, in one table or in two. */
  lemma {:induction false} TablesAreApart()
    ensures Distinct(VFS) && Distinct(UNSET) && Distinct(PROPAGATION) && Distinct(RECURSIVE_SET) && Distinct(RECURSIVE_CLEAR)
    ensures Disjoint(VFS, UNSET) && Disjoint(VFS, PROPAGATION) && Disjoint(VFS, RECURSIVE_SET) && Disjoint(VFS, RECURSIVE_CLEAR)
    ensures Disjoint(UNSET, PROPAGATION) && Disjoint(UNSET, RECURSIVE_SET) && Disjoint(UNSET, RECURSIVE_CLEAR)
    ensures Disjoint(PROPAGATION, RECURSIVE_SET) && Disjoint(PROPAGATION, RECURSIVE_CLEAR) && Disjoint(RECURSIVE_SET, RECURSIVE_CLEAR)
  {
    hide Distinct, Disjoint;
    VfsDistinct();
    UnsetDistinct();
    PropagationDistinct();
    RecursiveSetDistinct();
    RecursiveClearDistinct();
    VfsOrUnset();
    VfsOrPropagation();
    VfsOrRecursiveSet();
    VfsOrRecursiveClear();
    UnsetOrPropagation();
    UnsetOrRecursiveSet();
    UnsetOrRecursiveClear();
    PropagationOrRecursiveSet();
    PropagationOrRecursiveClear();
    RecursiveSetOrRecursiveClear();
  }

  lemma {:induction false} LookupIs(table: seq<Entry>, opt: string)
    requires Distinct(table)
    ensures Lookup(table, opt).Some? <==> IsNamed(table, opt)
    ensures forall bit: nat :: InTable(table, opt, bit) <==> Lookup(table, opt).Some? && bit in Lookup(table, opt).value
  {
    if table != [] {
      var rest := table[1..];
      LookupIs(rest, opt);
      assert forall k :: 0 <= k < |rest| ==> rest[k] == table[k + 1];
      assert forall k :: 0 < k < |table| ==> table[k] == rest[k - 1];
    }
  }

  lemma {:induction false} NotInBoth(a: seq<Entry>, b: seq<Entry>, opt: string)
    requires Disjoint(a, b) && Distinct(a) && Distinct(b)
    ensures !(Lookup(a, opt).Some? && Lookup(b, opt).Some?)
  {
    LookupIs(a, opt);
    LookupIs(b, opt);
  }

  /** An option that some table names does what that table says. */
  lemma {:induction false} EffectByTables(opt: string)
    ensures var e := EffectOf(opt);
            && (if Lookup(VFS, opt).Some? then e == SetVfs(Lookup(VFS, opt).value) else !e.SetVfs?)
            && (if Lookup(UNSET, opt).Some? then e == ClearVfs(Lookup(UNSET, opt).value) else !e.ClearVfs?)
            && (if Lookup(PROPAGATION, opt).Some? then e == SetPropagation(Lookup(PROPAGATION, opt).value) else !e.SetPropagation?)
            && (if Lookup(RECURSIVE_SET, opt).Some? then e == SetRecursive(Lookup(RECURSIVE_SET, opt).value) else !e.SetRecursive?)
            && (if Lookup(RECURSIVE_CLEAR, opt).Some? then e == ClearRecursive(Lookup(RECURSIVE_CLEAR, opt).value) else !e.ClearRecursive?)
  {
    hide Lookup, Distinct, Disjoint;
    TablesAreApart();
    NotInBoth(VFS, UNSET, opt);
    NotInBoth(VFS, PROPAGATION, opt);
    NotInBoth(VFS, RECURSIVE_SET, opt);
    NotInBoth(VFS, RECURSIVE_CLEAR, opt);
    NotInBoth(UNSET, PROPAGATION, opt);
    NotInBoth(UNSET, RECURSIVE_SET, opt);
    NotInBoth(UNSET, RECURSIVE_CLEAR, opt);
    NotInBoth(PROPAGATION, RECURSIVE_SET, opt);
    NotInBoth(PROPAGATION, RECURSIVE_CLEAR, opt);
    NotInBoth(RECURSIVE_SET, RECURSIVE_CLEAR, opt);
  }

  lemma {:induction false} BitByTables(opt: string, bit: nat)
    ensures var e := EffectOf(opt);
            && (e.SetVfs? && bit in e.bits <==> InTable(VFS, opt, bit))
            && (e.ClearVfs? && bit in e.bits <==> InTable(UNSET, opt, bit))
            && (e.SetPropagation? && bit in e.bits <==> InTable(PROPAGATION, opt, bit))
            && (e.SetRecursive? && bit in e.bits <==> InTable(RECURSIVE_SET, opt, bit))
            && (e.ClearRecursive? && bit in e.bits <==> InTable(RECURSIVE_CLEAR, opt, bit))
  {
    hide Lookup, InTable, IsNamed, EffectOf, Distinct, Disjoint;
    TablesAreApart();
    EffectByTables(opt);
    LookupIs(VFS, opt);
    LookupIs(UNSET, opt);
    LookupIs(PROPAGATION, opt);
    LookupIs(RECURSIVE_SET, opt);
    LookupIs(RECURSIVE_CLEAR, opt);
  }

  /** The last option whose name stands in either table with that bit. */
  ghost predicate LastNamed(opts: seq<string>, bit: nat, i: nat) {
    && i < |opts| && (InTable(VFS, opts[i], bit) || InTable(UNSET, opts[i], bit))
    && forall j :: i < j < |opts| ==> !InTable(VFS, opts[j], bit) && !InTable(UNSET, opts[j], bit)
  }

  /** A flag of the mount is set if and only if, of the options that name it, the last stands in the table that sets. */
  lemma {:induction false} VfsByNames(opts: seq<string>, bit: nat)
    requires PartsOf(opts).Success?
    ensures bit in PartsOf(opts).value.vfs <==> exists i: nat :: LastNamed(opts, bit, i) && InTable(VFS, opts[i], bit)
  {
    hide EffectOf, InTable, Folded;
    VfsByLastOption(opts, bit);
    forall i: nat | i < |opts|
      ensures Decides(EffectOf(opts[i]), bit) <==> InTable(VFS, opts[i], bit) || InTable(UNSET, opts[i], bit)
      ensures Decides(EffectOf(opts[i]), bit) ==> (EffectOf(opts[i]).SetVfs? <==> InTable(VFS, opts[i], bit)) {
      BitByTables(opts[i], bit);
    }
    if i: nat :| LastAbout(opts, bit, i) && EffectOf(opts[i]).SetVfs? {
      assert LastNamed(opts, bit, i);
    }
    if i: nat :| LastNamed(opts, bit, i) && InTable(VFS, opts[i], bit) {
      assert LastAbout(opts, bit, i);
    }
  }

  ghost predicate Names(table: seq<Entry>, opts: seq<string>, bit: nat) {
    exists i :: 0 <= i < |opts| && InTable(table, opts[i], bit)
  }

  ghost predicate NamesAny(table: seq<Entry>, opts: seq<string>) {
    exists i :: 0 <= i < |opts| && IsNamed(table, opts[i])
  }

  lemma {:induction false} NamesMore(table: seq<Entry>, opts: seq<string>, bit: nat)
    requires opts != []
    ensures Names(table, opts, bit) <==> Names(table, opts[..|opts| - 1], bit) || InTable(table, opts[|opts| - 1], bit)
    ensures NamesAny(table, opts) <==> NamesAny(table, opts[..|opts| - 1]) || IsNamed(table, opts[|opts| - 1])
  {
    hide InTable, IsNamed;
    var front := opts[..|opts| - 1];
    assert forall i :: 0 <= i < |front| ==> front[i] == opts[i];
  }

  /** The other flags only add up: a bit is there if and only if some option's name stands in the table with it. */
  lemma {:induction false} OtherFlagsByNames(opts: seq<string>, bit: nat)
    ensures var p := Folded(opts);
            && (bit in p.propagation <==> Names(PROPAGATION, opts, bit))
            && (p.recursive.Some? <==> NamesAny(RECURSIVE_SET, opts) || NamesAny(RECURSIVE_CLEAR, opts))
            && (p.recursive.Some? && bit in p.recursive.value.sets <==> Names(RECURSIVE_SET, opts, bit))
            && (p.recursive.Some? && bit in p.recursive.value.clears <==> Names(RECURSIVE_CLEAR, opts, bit))
    decreases |opts|
  {
    hide EffectOf, InTable, IsNamed, Names, NamesAny, MoreIds;
    if opts == [] {
      NothingNamed(bit);
    } else {
      var last := opts[|opts| - 1];
      OtherFlagsByNames(opts[..|opts| - 1], bit);
      NamesMore(PROPAGATION, opts, bit);
      NamesMore(RECURSIVE_SET, opts, bit);
      NamesMore(RECURSIVE_CLEAR, opts, bit);
      BitByTables(last, bit);
      KindByTables(last);
    }
  }

  lemma {:induction false} NothingNamed(bit: nat)
    ensures forall table: seq<Entry> :: !Names(table, [], bit) && !NamesAny(table, [])
  {
  }

  lemma {:induction false} KindByTables(opt: string)
    ensures EffectOf(opt).SetRecursive? <==> IsNamed(RECURSIVE_SET, opt)
    ensures EffectOf(opt).ClearRecursive? <==> IsNamed(RECURSIVE_CLEAR, opt)
  {
    hide Lookup, InTable, IsNamed, EffectOf, Distinct, Disjoint;
    TablesAreApart();
    EffectByTables(opt);
    LookupIs(RECURSIVE_SET, opt);
    LookupIs(RECURSIVE_CLEAR, opt);
  }

  /** The tables that clear and those that set have the same bits under opposite names. */
  lemma {:induction false} OppositesAgree()
    ensures |UNSET| == |OPPOSITES| == |SETTERS| && |RECURSIVE_SET| == |RECURSIVE_CLEAR| == |RECURSIVE_OPPOSITES|
    ensures forall k :: 0 <= k < |UNSET| ==>
              UNSET[k].name == OPPOSITES[k].1 && SETTERS[k] < |VFS| && VFS[SETTERS[k]] == Entry(UNSET[k].bits, OPPOSITES[k].0)
    ensures forall k :: 0 <= k < |RECURSIVE_SET| ==>
              RECURSIVE_OPPOSITES[k] == (RECURSIVE_SET[k].name, RECURSIVE_CLEAR[k].name) && RECURSIVE_SET[k].bits == RECURSIVE_CLEAR[k].bits
  {
  }

  /** Where the entries of the opposite options stand. */
  const SETTERS: seq<nat> := [18, 6, 7, 8, 9, 16, 3, 4, 5, 13, 17, 15, 10, 11]

  const OPPOSITES: seq<(string, string)> := [
    ("sync", "async"), ("noatime", "atime"), ("nodev", "dev"), ("nodiratime", "diratime"), ("noexec", "exec"),
    ("silent", "loud"), ("iversion", "noiversion"), ("lazytime", "nolazytime"), ("mand", "nomand"),
    ("relatime", "norelatime"), ("strictatime", "nostrictatime"), ("ro", "rw"), ("nosuid", "suid"),
    ("nosymfollow", "symfollow")]

  const RECURSIVE_OPPOSITES: seq<(string, string)> := [
    ("rro", "rrw"), ("rnosuid", "rsuid"), ("rnodev", "rdev"), ("rnoexec", "rexec"), ("rnodiratime", "rdiratime"),
    ("rnoatime", "ratime"), ("rstrictatime", "rnostrictatime"), ("rnosymfollow", "rsymfollow"), ("rrelatime", "rnorelatime")]

  /** The bits' places in the flag words of mount(2), and of mount_setattr(2) for the recursive tables. */
  lemma {:induction false} BitsAreTheKernels()
    ensures RDONLY == 0 && NOSUID == 1 && NODEV == 2 && NOEXEC == 3 && SYNCHRONOUS == 4 && REMOUNT == 5 && MANDLOCK == 6 && DIRSYNC == 7
    ensures NOSYMFOLLOW == 8 && NOATIME == 10 && NODIRATIME == 11 && BIND == 12 && REC == 14 && SILENT == 15 && UNBINDABLE == 17
    ensures PRIVATE == 18 && SLAVE == 19 && SHARED == 20 && RELATIME == 21 && I_VERSION == 23 && STRICTATIME == 24 && LAZYTIME == 25
    ensures VFS[15] == Entry({0}, "ro") && VFS[10] == Entry({1}, "nosuid") && VFS[7] == Entry({2}, "nodev") && VFS[9] == Entry({3}, "noexec")
    ensures VFS[0] == Entry({12}, "bind") && VFS[12] == Entry({12, 14}, "rbind") && VFS[14] == Entry({5}, "remount")
    ensures VFS[1] == Entry({7}, "dirsync") && VFS[2] == Entry({}, "defaults") && VFS[6] == Entry({10}, "noatime")
    ensures RECURSIVE_SET[..4] == [Entry({0}, "rro"), Entry({1}, "rnosuid"), Entry({2}, "rnodev"), Entry({3}, "rnoexec")]
    ensures RECURSIVE_SET[4..] == [Entry({7}, "rnodiratime"), Entry({4}, "rnoatime"), Entry({5}, "rstrictatime"),
                                   Entry({21}, "rnosymfollow"), Entry({}, "rrelatime")]
  {
  }

  /** Each propagation comes alone and, with an r in front, for everything below. */
  lemma {:induction false} PropagationsAreTwofold(k: nat)
    requires k < 4
    ensures PROPAGATION[2 * k].name == ["private", "slave", "shared", "unbindable"][k]
    ensures PROPAGATION[2 * k].bits == [{18}, {19}, {20}, {17}][k]
    ensures PROPAGATION[2 * k + 1] == Entry(PROPAGATION[2 * k].bits + {14}, "r" + PROPAGATION[2 * k].name)
  {
  }

  ghost predicate InSomeTable(opt: string) {
    IsNamed(VFS, opt) || IsNamed(UNSET, opt) || IsNamed(PROPAGATION, opt) || IsNamed(RECURSIVE_SET, opt) || IsNamed(RECURSIVE_CLEAR, opt)
  }

  ghost predicate Without(table: seq<Entry>, c: char) {
    forall k :: 0 <= k < |table| ==> c !in table[k].name
  }

  lemma {:induction false} VfsHasNoEquals()
    ensures Without(VFS, '=')
  {
    EarlierHaveNoEquals();
    LaterHaveNoEquals();
  }

  lemma {:induction false} EarlierHaveNoEquals()
    ensures forall k :: 0 <= k < 9 ==> '=' !in VFS[k].name
  {
  }

  lemma {:induction false} LaterHaveNoEquals()
    ensures forall k :: 9 <= k < |VFS| ==> '=' !in VFS[k].name
  {
  }

  lemma {:induction false} UnsetHasNoEquals()
    ensures Without(UNSET, '=')
  {
  }

  lemma {:induction false} PropagationHasNoEquals()
    ensures Without(PROPAGATION, '=')
  {
  }

  lemma {:induction false} RecursiveSetHasNoEquals()
    ensures Without(RECURSIVE_SET, '=')
  {
  }

  lemma {:induction false} RecursiveClearHasNoEquals()
    ensures Without(RECURSIVE_CLEAR, '=')
  {
  }

  lemma {:induction false} InSomeTableIff(opt: string)
    ensures var e := EffectOf(opt);
            InSomeTable(opt) <==> e.SetVfs? || e.ClearVfs? || e.SetPropagation? || e.SetRecursive? || e.ClearRecursive?
  {
    hide Lookup, Distinct, Disjoint, IsNamed, EffectOf;
    TablesAreApart();
    EffectByTables(opt);
    LookupIs(VFS, opt);
    LookupIs(UNSET, opt);
    LookupIs(PROPAGATION, opt);
    LookupIs(RECURSIVE_SET, opt);
    LookupIs(RECURSIVE_CLEAR, opt);
  }

  lemma {:induction false} EqualsIsInNoTable(opt: string)
    requires '=' in opt
    ensures !InSomeTable(opt)
  {
    VfsHasNoEquals();
    UnsetHasNoEquals();
    PropagationHasNoEquals();
    RecursiveSetHasNoEquals();
    RecursiveClearHasNoEquals();
  }

  lemma {:induction false} OwnOptionsInNoTable()
    ensures !InSomeTable("copy-symlink") && !InSomeTable("tmpcopyup") && !InSomeTable("idmap") && !InSomeTable("ridmap")
  {
  }

  /** What is left to try for an option that stands in no table. */
  lemma {:induction false} EffectBeside(opt: string)
    requires !InSomeTable(opt)
    ensures var eq := Index(opt, '=');
            EffectOf(opt) ==
            if opt == "copy-symlink" then Extend(CopySymlink)
            else if opt == "tmpcopyup" then Extend(TmpCopyUp)
            else if opt == "idmap" then MapIds(Idmap)
            else if opt == "ridmap" then MapIds(Ridmap)
            else if eq < |opt| && opt[..eq] == "idmap" then MapIdsInline(Idmap, opt[eq + 1..])
            else if eq < |opt| && opt[..eq] == "ridmap" then MapIdsInline(Ridmap, opt[eq + 1..])
            else Unknown(opt)
  {
    InSomeTableIff(opt);
    hide Lookup, InSomeTable, Index;
  }

  /** The options of the program's own, in no table. */
  lemma {:induction false} OwnOptions()
    ensures EffectOf("copy-symlink") == Extend(CopySymlink) && EffectOf("tmpcopyup") == Extend(TmpCopyUp)
    ensures EffectOf("idmap") == MapIds(Idmap) && EffectOf("ridmap") == MapIds(Ridmap)
  {
    OwnOptionsInNoTable();
    hide EffectOf, InSomeTable, Index;
    EffectBeside("copy-symlink");
    EffectBeside("tmpcopyup");
    EffectBeside("idmap");
    EffectBeside("ridmap");
  }

  lemma {:induction false} EqualsAt(key: string, rest: string)
    requires '=' !in key
    ensures var opt := key + "=" + rest;
            '=' in opt && Index(opt, '=') == |key| < |opt| && opt[..|key|] == key && opt[|key| + 1..] == rest
  {
    var opt := key + "=" + rest;
    assert opt == key + ("=" + rest) && opt[|key|] == '=';
    IndexIs(key, "=" + rest, '=');
  }

  lemma {:induction false} OwnNames(opt: string)
    ensures '=' !in "idmap" && '=' !in "ridmap"
    ensures '=' in opt ==> opt != "copy-symlink" && opt != "tmpcopyup" && opt != "idmap" && opt != "ridmap"
  {
  }

  /** An option that begins with "idmap=" or "ridmap=" is an inline mapping of what follows. */
  lemma {:induction false} InlineOptions(rest: string)
    ensures EffectOf("idmap" + "=" + rest) == MapIdsInline(Idmap, rest)
    ensures EffectOf("ridmap" + "=" + rest) == MapIdsInline(Ridmap, rest)
  {
    hide EffectOf, InSomeTable, Index;
    var a, b := "idmap" + "=" + rest, "ridmap" + "=" + rest;
    OwnNames(a);
    OwnNames(b);
    EqualsAt("idmap", rest);
    EqualsAt("ridmap", rest);
    EqualsIsInNoTable(a);
    EqualsIsInNoTable(b);
    EffectBeside(a);
    EffectBeside(b);
  }

  ghost predicate BeginsWithKey(opt: string, key: string) {
    key + "=" <= opt
  }

  lemma {:induction false} KeyIff(opt: string, key: string)
    requires '=' !in key
    ensures var eq := Index(opt, '='); eq < |opt| && opt[..eq] == key <==> BeginsWithKey(opt, key)
  {
    var eq := Index(opt, '=');
    if BeginsWithKey(opt, key) {
      var rest := opt[|key| + 1..];
      assert opt == key + "=" + rest;
      EqualsAt(key, rest);
    }
    if eq < |opt| && opt[..eq] == key {
      assert opt[..eq + 1] == key + "=";
    }
  }

  /** Whatever is none of these goes to the file system as it is. */
  lemma {:induction false} UnknownIff(opt: string)
    ensures EffectOf(opt) == Unknown(opt) <==>
            && !InSomeTable(opt) && opt !in {"copy-symlink", "tmpcopyup", "idmap", "ridmap"}
            && !BeginsWithKey(opt, "idmap") && !BeginsWithKey(opt, "ridmap")
  {
    hide EffectOf, InSomeTable, Index, BeginsWithKey;
    OwnNames(opt);
    KeyIff(opt, "idmap");
    KeyIff(opt, "ridmap");
    InSomeTableIff(opt);
    if !InSomeTable(opt) {
      EffectBeside(opt);
    }
  }

  // ---- the order across categories does not matter ----

  /** The options of a category, in order. */
  function Only(opts: seq<string>, c: Category): seq<string> {
    if opts == [] then []
    else
      var last := opts[|opts| - 1];
      Only(opts[..|opts| - 1], c) + if CategoryOf(EffectOf(last)) == c then [last] else []
  }

  lemma {:induction false} OnlyEnd(opts: seq<string>, c: Category)
    requires opts != []
    ensures var last := opts[|opts| - 1];
            var front := Only(opts[..|opts| - 1], c);
            if CategoryOf(EffectOf(last)) == c
            then Only(opts, c) != [] && Only(opts, c)[|Only(opts, c)| - 1] == last && Only(opts, c)[..|Only(opts, c)| - 1] == front
            else Only(opts, c) == front
  {
  }

  lemma {:induction false} NothingOnly(c: Category)
    ensures Only([], c) == []
  {
  }

  /** The part of one category, beside nothing. */
  function Keeping(p: Parts, c: Category): Parts {
    match c
    case OfVfs => NO_PARTS.(vfs := p.vfs)
    case OfPropagation => NO_PARTS.(propagation := p.propagation)
    case OfRecursive => NO_PARTS.(recursive := p.recursive)
    case OfExtension => NO_PARTS.(extensions := p.extensions)
    case OfIds => NO_PARTS.(ids := p.ids)
    case OfData => NO_PARTS.(data := p.data)
  }

  lemma {:induction false} KeepingApplied(p: Parts, e: Effect, c: Category)
    ensures Keeping(Applied(p, e), c) == if CategoryOf(e) == c then Applied(Keeping(p, c), e) else Keeping(p, c)
  {
    hide ParseInline;
  }

  /** The options of one category alone make that category's part of the mount, and nothing else. */
  lemma {:induction false} PartsByCategory(opts: seq<string>, c: Category)
    ensures Folded(Only(opts, c)) == Keeping(Folded(opts), c)
    decreases |opts|
  {
    hide EffectOf, Only, Applied, CategoryOf;
    if opts != [] {
      PartsByCategory(opts[..|opts| - 1], c);
      OnlyEnd(opts, c);
      KeepingApplied(Folded(opts[..|opts| - 1]), EffectOf(opts[|opts| - 1]), c);
    } else {
      NothingOnly(c);
    }
  }

  /** Options may be moved past options of other categories: neither the mount nor an error changes. */
  lemma {:induction false} ReorderingKeepsParts(a: seq<string>, b: seq<string>)
    requires forall c :: Only(a, c) == Only(b, c)
    ensures PartsOf(a) == PartsOf(b)
  {
    hide Folded, Only;
    forall c: Category ensures Keeping(Folded(a), c) == Keeping(Folded(b), c) {
      PartsByCategory(a, c);
      PartsByCategory(b, c);
    }
    KeptAll(Folded(a), Folded(b));
  }

  lemma {:induction false} KeptAll(p: Parts, q: Parts)
    requires forall c: Category :: Keeping(p, c) == Keeping(q, c)
    ensures p == q
  {
    assert Keeping(p, OfVfs) == Keeping(q, OfVfs) && Keeping(p, OfPropagation) == Keeping(q, OfPropagation);
    assert Keeping(p, OfRecursive) == Keeping(q, OfRecursive) && Keeping(p, OfExtension) == Keeping(q, OfExtension);
    assert Keeping(p, OfIds) == Keeping(q, OfIds) && Keeping(p, OfData) == Keeping(q, OfData);
  }

  // ---- what the tables do not know ----

  function JoinedByCommas(texts: seq<string>): string {
    if texts == [] then ""
    else if |texts| == 1 then texts[0]
    else JoinedByCommas(texts[..|texts| - 1]) + "," + texts[|texts| - 1]
  }

  /** Without the empty options at the beginning. */
  function FromNonEmpty(texts: seq<string>): seq<string> {
    if texts != [] && texts[0] == "" then FromNonEmpty(texts[1..]) else texts
  }

  lemma {:induction false} FromNonEmptyEnd(texts: seq<string>, t: string)
    ensures FromNonEmpty(texts + [t])
         == if FromNonEmpty(texts) != [] then FromNonEmpty(texts) + [t] else if t == "" then [] else [t]
    decreases |texts|
  {
    if texts != [] && texts[0] == "" {
      assert (texts + [t])[1..] == texts[1..] + [t];
      FromNonEmptyEnd(texts[1..], t);
    } else if texts == [] {
      assert texts + [t] == [t] && [t][1..] == [];
    }
  }

  lemma {:induction false} JoinedStarts(texts: seq<string>)
    requires texts != [] && texts[0] != ""
    ensures JoinedByCommas(texts) != ""
  {
  }

  lemma {:induction false} NonEmptyStarts(texts: seq<string>)
    ensures FromNonEmpty(texts) != [] ==> FromNonEmpty(texts)[0] != ""
    decreases |texts|
  {
    if texts != [] && texts[0] == "" {
      NonEmptyStarts(texts[1..]);
    }
  }

  lemma {:induction false} UnknownIsItself(opt: string)
    ensures EffectOf(opt).Unknown? ==> EffectOf(opt).text == opt
  {
  }

  /** The unknown options come out in order between commas; empty ones only behind one that is not. */
  lemma {:induction false} DataIsUnknownOptions(opts: seq<string>)
    ensures Folded(opts).data == JoinedByCommas(FromNonEmpty(Only(opts, OfData)))
    decreases |opts|
  {
    hide EffectOf, FromNonEmpty, Only;
    NothingOnly(OfData);
    FromNothing();
    if opts != [] {
      var front, last := opts[..|opts| - 1], opts[|opts| - 1];
      DataIsUnknownOptions(front);
      UnknownIsItself(last);
      OnlyEnd(opts, OfData);
      if EffectOf(last).Unknown? {
        var texts := Only(front, OfData);
        FromNonEmptyEnd(texts, last);
        assert Only(opts, OfData) == texts + [last];
        var kept := FromNonEmpty(texts);
        NonEmptyStarts(texts);
        if kept != [] {
          JoinedStarts(kept);
          assert (kept + [last])[..|kept|] == kept;
        }
      }
    }
  }

  lemma {:induction false} FromNothing()
    ensures FromNonEmpty([]) == []
  {
  }

  // ---- printing flags ----

  /** The entries the first loop of dump prints, and the bits it leaves. */
  function Named(flags: set<nat>, table: seq<Entry>): (seq<Entry>, set<nat>) {
    if table == [] then ([], flags)
    else if table[0].bits != {} && table[0].bits <= flags then
      var (printed, left) := Named(flags - table[0].bits, table[1..]);
      ([table[0]] + printed, left)
    else Named(flags, table[1..])
  }

  function NamesOf(entries: seq<Entry>): seq<string> {
    if entries == [] then [] else [entries[0].name] + NamesOf(entries[1..])
  }

  function BitsOf(entries: seq<Entry>): set<nat> {
    if entries == [] then {} else entries[0].bits + BitsOf(entries[1..])
  }

  /** The loop over a table: each entry whose bits are all there is named and its bits are taken out. */
  method NameFlags(flags: set<nat>, table: seq<Entry>) returns (names: seq<string>, left: set<nat>)
    ensures names == NamesOf(Named(flags, table).0) && left == Named(flags, table).1
  {
    names, left := [], flags;
    assert table[0..] == table && [] + NamesOf(Named(flags, table).0) == NamesOf(Named(flags, table).0);
    for i := 0 to |table|
      invariant NamesOf(Named(flags, table).0) == names + NamesOf(Named(left, table[i..]).0)
      invariant Named(flags, table).1 == Named(left, table[i..]).1
    {
      assert table[i..][1..] == table[i + 1..];
      if table[i].bits != {} && table[i].bits <= left {
        ghost var printed := Named(left - table[i].bits, table[i + 1..]).0;
        assert ([table[i]] + printed)[1..] == printed;
        assert names + ([table[i].name] + NamesOf(printed)) == (names + [table[i].name]) + NamesOf(printed);
        names := names + [table[i].name];
        left := left - table[i].bits;
      }
    }
    assert table[|table|..] == [] && names + [] == names;
  }

  /**
   Every bit is printed once: in one of the names, whose entries share no bit, or in the number at the end, in
   which no entry of the table is left whole.
   */
  lemma {:induction false} DumpPartitions(flags: set<nat>, table: seq<Entry>)
    ensures var (printed, left) := Named(flags, table);
            && BitsOf(printed) + left == flags && BitsOf(printed) !! left
            && (forall i, j :: 0 <= i < j < |printed| ==> printed[i].bits !! printed[j].bits)
            && (forall e :: e in table && e.bits != {} ==> !(e.bits <= left))
    decreases |table|
  {
    if table != [] {
      if table[0].bits != {} && table[0].bits <= flags {
        DumpPartitions(flags - table[0].bits, table[1..]);
        var (printed, left) := Named(flags - table[0].bits, table[1..]);
        assert ([table[0]] + printed)[1..] == printed;
        forall k | 0 <= k < |printed| ensures printed[k].bits <= BitsOf(printed) {
          BitsOfOne(printed, k);
        }
      } else {
        DumpPartitions(flags, table[1..]);
      }
    }
  }

  lemma {:induction false} BitsOfOne(entries: seq<Entry>, k: nat)
    requires k < |entries|
    ensures entries[k].bits <= BitsOf(entries)
    decreases k
  {
    if k > 0 {
      BitsOfOne(entries[1..], k - 1);
    }
  }
}
