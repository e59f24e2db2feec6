# linyaps-box: models and proofs

linyaps-box is an OCI container runtime in C++. This project models the parts of it whose behaviour is hard
to see from one function at a time, and proves properties of them over all inputs, all runs, or all
schedules. `dafny verify dfyconfig.toml` checks everything.

- **Scoped path walk** (`FileTree`, `PathText`, `Resolution`, `Rootfs`, `Confinement`, `KernelWalk`). The
  user-space replacement for `openat2` with `RESOLVE_IN_ROOT`, over a file tree that changes only by the
  runtime's own calls. `Resolution.Lookup` is the reference: a recursive resolver that resolves a link's target
  first and then goes on. `Resolution.Run` is the flat walk over one list of components. The methods of `Rootfs`
  are the source's loop, with its component stack, link budget, shadow path and stack of entered links.
  `KernelWalk.KernelRun` is the kernel's own lookup, with its 40 links, its rule for ".." and its answer to "".
- **Deleting and creating trees** (`Removal`, `Creation`). The explicit-stack deletion and
  `create_directories`, as methods that change a host file system.
- **Start protocols** (`Choreography`, `Interleaving`, `RunHandshake`, `ExecHandshake`). Processes with one
  FIFO queue in each direction, logs mixed in at will, crashes at any moment. A *script* lists what both sides
  do in one order; a script that passes a simple scan is safe in every interleaving. `run` is two processes,
  `exec` up to three.
- **Messages and receive loops** (`Bytes`, `Wire`, `MessageChannel`). Encoding, decoding, and the loops that
  the protocol models take as single operations.
- **I/O forwarding** (`Words`, `RingBuffer`, `Descriptors`, `VectoredWrite`, `Forwarder`). The mirrored ring
  buffer with wrapping 64-bit counters, the partial reads and writes, the quota loop, the vectored write.
- **Mounts** (`MountOptions`, `MountPlan`). Sorting options into flags, and the plan of deferred read-only
  remounts with their fallbacks.
- **Status files** (`Streams`, `StatusFile`). Reading to the end, and the temporary-file-and-rename write,
  with every state of the directory on the way and what each leaves after a loss of power. The disk holds the
  entries of the last synced directory or of any change since, in their order; a file that was not synced may
  hold any bytes.
- **Versions and lists** (`Decimal`, `TextSearch`, `Semver`, `SemverOrder`, `SemverText`, `RangeList`).
- `Results` and `Sequences` are shared helpers.

What the kernel answers is a parameter: error tables in the file tree, scripts of system-call results for
descriptors, mounts and directories. Names and text are sequences of characters, file contents sequences of
bytes. Most lemmas carry `{:induction false}` because Dafny's own induction hypotheses over strings make the
solver run on.

Where the code does less, or something else, than its comments say, the model follows the code:

- The comment on `resolve_partial`'s rewind suggests that an entry on the symlink stack means that the walk is
  inside a link's target. A target of `/` has no components and its entry is never taken off; a nested link is
  not counted in the outer entry. `Rootfs.EntryLeft` says exactly when an entry is left and which,
  `Rootfs.BackTo` what is then reported (the components behind the link come out last name first), and
  `Confinement.SlashLinkIsRewound` gives a lookup that is rewound although it misses outside any link.
- The walker compares inode numbers to recognise its root, opens "." for a slash at the end, does not search the
  root for its "..", takes "" for the root, and follows 128 links where the kernel follows 40.
  `KernelWalk.PathMatchesIff` says for every tree and path when the answers agree all the same.
  `KernelWalk.WalkerMatchesKernelIff` names the trees in which only "" and a 41st link tell the two apart: no
  reachable directory below the root shares its inode number, and none of them refuses to be searched.
  `KernelWalk.LinksTellApart` and `KernelWalk.EmptyPath` are the inputs on which they differ.
- The `exec` handshake with a pid namespace can block for good: when the intermediate child dies between its
  fork and its pid report, the workload keeps the socket open and waits for `proceed`, and the parent waits for
  the report. `ExecHandshake.BlockedIffStranded` shows that this is the only way to block.
- `create_directories` says that what a lookup leaves never contains `..`. It can, behind a missing component;
  then the components before it are made and the call fails: `Creation.CreateDirectories`.
- `write_span` can report TryAgain after bytes were accepted; `push` then sends those bytes again.
  `Forwarder.Offer` says when, and `Forwarder.SinkStream` what the sink has in any case.
- `push` checks its quota before every write, but after the first one either the ring is empty or the write was
  partial, and then the check does not apply: `Forwarder.Forwarder.Push` empties the ring unless the sink blocks.
- `remove_all_in_dir` never reports why an entry refuses to go: it ends with ENOTEMPTY for a directory and with
  ENOTDIR, from the attempt to read it, for anything else: `Removal.Host.RemoveAllInDir`.
- `write_vecs` never gets past a batch of 1024 buffers whose last buffer is empty, and reports success there:
  `VectoredWrite.SuccessIsComplete`.
- `validate_identifiers` accepts a dot at the end, and the prerelease comparison reads a number of more than 64
  bits as 0: `SemverOrder.PrecedenceIff` says which versions stand where section 11 of SemVer 2.0.0 puts them.
  Reading a version accepts `-0` as a major or minor number: `SemverText.WritesBackIff`. Build metadata with
  leading zeros, which SemVer allows, is refused.
- The third attempt of `do_remount` repeats the second one when the remount itself is read-only:
  `MountPlan.ThirdAttemptRepeats`. A remount never passes its data, not even for proc, for which the comment in
  `do_mount` says it is made: `MountPlan.AttemptsAskForMore`.
- An inline id mapping (`idmap=uids=...`) never holds more than one mapping of a kind, because the commas that
  would separate them already separate the keys: `MountOptions.InlineHoldsOneMapping`.
- `wait_for_close` takes a closed socket for an exec, as its own comment says, so `run` starts the poststart hooks
  of a container whose process was killed between exec_ready and its exec: `RunHandshake.PoststartWithoutExec`.
  `RunHandshake.PoststartAfterExecIff` gives the exact condition, `ExecHandshake.DoneIsExecedIff` that of `exec`.
- A failed `fsync` of the temporary status file, or of the directory after the rename, is only logged. The new
  content survives a loss of power for certain exactly when both worked (`StatusFile.PowerLossIff`); the target is
  complete, old or new, exactly when the first one worked (`StatusFile.CompleteTargetIff`).

## Model

| member | source | states |
|---|---|---|
| `PathText.WalkSplit` | src/linyaps_box/infra/rootfs.cpp:65-82 | the loop's components are those of `SplitParts`, none of them empty or with a slash |
| `PathText.PartsAreStretches` | src/linyaps_box/infra/rootfs.cpp:65-82 | these are, by their places in the text, all its stretches between slashes, in order, and "." for a slash behind the last |
| `PathText.SlashesCollapse` | src/linyaps_box/infra/rootfs.cpp:65-82 | a slash in front or a second slash between two parts adds no component |
| `PathText.SplitOfJoin` | src/linyaps_box/infra/rootfs.cpp:65-82 | splitting a path joined from plain names gives the names back |
| `Resolution.TargetIsPath` | src/linyaps_box/infra/rootfs.cpp:425-425 | the components of a link's target are those of the target as a path |
| `Resolution.RunSplits` | src/linyaps_box/infra/rootfs.cpp:297-472 | the flat walk of a + b is the walk of b from where the walk of a ends, with its remaining budget, whatever links and ".." a holds |
| `Resolution.RunSealed` | src/linyaps_box/infra/rootfs.cpp:352-385 | a miss inside a link's target is a miss of the whole link, whatever follows it |
| `Resolution.RunIsLookup` | src/linyaps_box/infra/rootfs.cpp:259-479 | the walk that puts a link's target in front of its components ends like the recursive resolver that resolves the target first |
| `Rootfs.ConsumePaysOff` | src/linyaps_box/infra/rootfs.cpp:318-326 | consuming a target component lowers by one what the stack of entered links waits for |
| `Rootfs.ClimbUp` | src/linyaps_box/infra/rootfs.cpp:302-350 | ".." stays at the root and else goes to the parent; the position stays root / expected_path, so check_current cannot fail |
| `Rootfs.EnterLink` | src/linyaps_box/infra/rootfs.cpp:402-449 | following a link costs one of the budget, starts at the root for an absolute target, and keeps position, stack and reference walk in step |
| `Rootfs.Miss` | src/linyaps_box/infra/rootfs.cpp:361-384 | a missing component is reported with its exact suffix; when an entered link is pending, exactly the outermost one and the components behind it are, last name first |
| `Rootfs.ResolvePartial` | src/linyaps_box/infra/rootfs.cpp:259-479 | for every static tree and path: terminates, answers like the recursive resolver with at most 128 followed links, rewinds exactly to the outermost link that the stack still holds, never meets a check_current mismatch, never leaves the root |
| `Rootfs.ResolveScoped` | src/linyaps_box/infra/rootfs.cpp:481-495 | the same entry or error as the recursive resolver, with and without following a trailing link |
| `Confinement.LookupIsConfined` | src/linyaps_box/infra/rootfs.cpp:292-478 | every position and result lies below the root and is reached without a search error; what is reported missing is missing |
| `KernelWalk.StepTogether` | src/linyaps_box/infra/rootfs.cpp:302-470 | but for the places where they part, walker and kernel take the same step with 88 links between their budgets |
| `KernelWalk.PathMatchesIff` | src/linyaps_box/infra/rootfs.cpp:259-495 | on every tree and path the two give the same entry or error if and only if the path is not empty and they never part on it, at an aliased or unsearchable "..", at a slash behind an unsearchable directory or at the 41st link, or go on alike from there |
| `KernelWalk.OrdinaryParting` | src/linyaps_box/infra/rootfs.cpp:404-406 | where no such directory can be reached they part exactly when there are more than 40 links to follow, and then the kernel reports ELOOP |
| `KernelWalk.WalkerMatchesKernelIff` | src/linyaps_box/infra/rootfs.cpp:302-326 | a tree is without such directories if and only if on every path the answers agree exactly when the path is not empty and has at most 40 links to follow or both are ELOOP |
| `KernelWalk.LinksTellApart` | src/linyaps_box/infra/rootfs.cpp:43-46 | a path through n links to "." leads the walker to the root up to 128, the kernel up to 40, and both to ELOOP beyond |
| `KernelWalk.EmptyPath` | src/linyaps_box/infra/rootfs.cpp:263-271 | the empty path is the root for the walker and ENOENT for the kernel |
| `Confinement.CanonicalPathResolves` | src/linyaps_box/infra/rootfs.cpp:352-470 | an entry's own path below the root leads back to that entry |
| `Confinement.SlashLinkIsRewound` | src/linyaps_box/infra/rootfs.cpp:424-427 | a concrete lookup that misses outside any link and is rewound all the same |
| `Confinement.NoLinkOwesNothing` | src/linyaps_box/infra/rootfs.cpp:361-384 | below a root without links no miss is rewound |
| `Removal.Host.RemoveDirent` | src/linyaps_box/infra/rootfs.cpp:526-544 | unlink or rmdir took effect, or neither could and nothing changed; the error is that of rmdir, or of unlink when that says ENOTDIR |
| `Removal.Host.ReadDirectory` | src/linyaps_box/infra/rootfs.cpp:609-645 | the names read are the directory's entries, each once, without "." and ".." |
| `Removal.UnlinkKeepsTree` | src/linyaps_box/infra/rootfs.cpp:526-544 | removing an entry leaves a tree |
| `Removal.Host.RemoveAllInDir` | src/linyaps_box/infra/rootfs.cpp:546-648 | terminates; succeeds if and only if nothing in the subtree refuses; then exactly the subtree is gone, every non-empty directory in it was read once and no other; a failure deletes nothing outside it and reports an entry that refuses, as ENOTEMPTY for a directory and ENOTDIR for anything else unless its lookup failed |
| `Creation.MakeChain` | src/linyaps_box/infra/rootfs.cpp:864-889 | makes exactly the missing directories of the longest beginning that can be made, succeeds when that is all of them, and makes nothing when the first component is a link |
| `Creation.CreateDirectories` | src/linyaps_box/infra/rootfs.cpp:830-890 | by how the lookup ended, with the error of each: a directory that was found, reopened, or ENOTDIR for what is none; the missing chain up to the first component that refuses and nothing else; nothing when an entered link is pending; what succeeds is a directory |
| `Creation.FoundStays` | src/linyaps_box/infra/rootfs.cpp:842-889 | paths that led to an entry lead to it after a chain of directories was added |
| `Creation.AbsentGoesOn` | src/linyaps_box/infra/rootfs.cpp:842-889 | a lookup that missed goes on, after the chain was made, exactly where it had missed |
| `Creation.CreatedPathResolves` | src/linyaps_box/infra/rootfs.cpp:830-890 | looking the path up again leads to the directory that was returned |
| `Choreography.SoundIsSeparated` | src/linyaps_box/container.cpp:1537-1584 | a script that passes the scan has between any two actions of different sides a message from the first to the second, and between two messages to the child one from it |
| `Interleaving.StepKeeps` | src/linyaps_box/protocol/message_channel.cpp:124-217 | every step of either side, any log, crash or failure keeps the invariant that ties programs, queues and trace to positions in the script |
| `Interleaving.InvariantReceives` | src/linyaps_box/protocol/message_channel.cpp:124-158 | whatever either side is about to receive is what it expects |
| `Interleaving.NeverStuck` | src/linyaps_box/protocol/message_channel.cpp:124-264 | while the parent runs, one side can go on, with room for one message in each direction |
| `Interleaving.AtMostOneDown` | src/linyaps_box/protocol/message_channel.cpp:114-122 | at most one message is on its way to the child |
| `Interleaving.QueuesHold` | src/linyaps_box/protocol/message_channel.cpp:114-122 | no queue ever holds more than its capacity |
| `Interleaving.InvariantInOrder` | src/linyaps_box/container.cpp:2316-2376 | actions happen by rank, and none before all lower ones of the script |
| `Interleaving.StartedMeansDone` | src/linyaps_box/protocol/message_channel.cpp:160-199 | the parent passes wait_for_close only with the child's end closed, no fatal log since exec_ready, and every action of the script taken |
| `Interleaving.RunsEnd` | src/linyaps_box/protocol/message_channel.cpp:124-217 | a run takes no more steps than the programs and the logs allow |
| `Interleaving.AcceptedIsExecedIff` | src/linyaps_box/protocol/message_channel.cpp:160-177 | once the parent is past wait_for_close, the child has exec'ed if and only if it did not crash |
| `Interleaving.CleanRunsComplete` | src/linyaps_box/protocol/message_channel.cpp:160-199 | without failures a run that can go no further has exec'ed and the parent has detected it |
| `RunHandshake.ProgramsAreSides` | src/linyaps_box/container.cpp:1180-1234 | for every configuration, the operations of container::run and of clone_fn are the two sides of one script |
| `RunHandshake.ScriptIsSound` | src/linyaps_box/container.cpp:2078-2199 | that script passes the scan, for every choice of hooks and terminal |
| `RunHandshake.HandshakeIsSafe` | src/linyaps_box/container.cpp:2316-2376 | any hooks, terminal, logs, failures, schedule and queue capacity of at least one: no deadlock, expected messages, one message down at most, ordered actions, a bounded number of steps |
| `RunHandshake.LifecycleOrder` | src/linyaps_box/container.cpp:2347-2378 | an action happens only after every configured earlier one, but exec, of the OCI Runtime Specification, section "Lifecycle" of runtime.md; the child reads the status after the parent wrote it |
| `RunHandshake.AcceptedRunIsExecedIff` | src/linyaps_box/protocol/message_channel.cpp:160-177 | past wait_for_close the container's process has exec'ed if and only if it did not crash |
| `RunHandshake.PoststartAfterExecIff` | src/linyaps_box/container.cpp:2376-2378 | poststart hooks have been preceded by the exec if and only if the container's process did not crash |
| `RunHandshake.PoststartWithoutExec` | src/linyaps_box/container.cpp:2376-2378 | a run in which the poststart hooks happen, nothing fails in the parent, and there is no exec |
| `RunHandshake.CleanHandshakeStarts` | src/linyaps_box/container.cpp:1537-1584 | without failures every run ends with the container started and all configured hooks run |
| `ExecHandshake.ExecSides` | src/linyaps_box/container_ref.cpp:184-200 | the parent's operations and those of the forked children are the two sides of one script |
| `ExecHandshake.ExecRefinesPair` | src/linyaps_box/container_ref.cpp:184-200 | every run of parent, intermediate child and workload is step for step a run of parent and one child |
| `ExecHandshake.ExecIsSafe` | src/linyaps_box/container_ref.cpp:306-380 | in every reachable state: expected messages, one message down at most, ordered actions; past wait_for_close no process holds the child's end and no fatal log came |
| `ExecHandshake.ProceedsAfterPid` | src/linyaps_box/container_ref.cpp:306-325 | the workload gets past expect_proceed only after the parent has taken its pid |
| `ExecHandshake.DoneIsExecedIff` | src/linyaps_box/container_ref.cpp:377-378 | when the parent has passed wait_for_close, the command has been executed if and only if the workload did not die |
| `ExecHandshake.DoneWithoutExec` | src/linyaps_box/container_ref.cpp:377-378 | a run in which the parent passes it and nothing was executed |
| `ExecHandshake.BlockedIffStranded` | src/linyaps_box/container_ref.cpp:184-200 | while the parent runs, nobody can go on if and only if the intermediate child died between fork and report and the workload lives with nothing queued |
| `ExecHandshake.StrandedStays` | src/linyaps_box/container_ref.cpp:199-202 | only the death of the workload or of the parent ends that state |
| `ExecHandshake.StrandedHappens` | src/linyaps_box/container_ref.cpp:186-195 | two steps lead to it |
| `ExecHandshake.ExecNeverBlocks` | src/linyaps_box/container_ref.cpp:306-380 | as long as the intermediate child does not die before its report, some process can go on |
| `ExecHandshake.ExecRunsEnd` | src/linyaps_box/container_ref.cpp:306-380 | every run of the three is bounded by the programs and the logs |
| `ExecHandshake.CleanExecCompletes` | src/linyaps_box/container_ref.cpp:277-281 | without failures every run ends with the command executed and the parent knowing it |
| `Bytes.ValueOfLittle` | src/linyaps_box/protocol/message.cpp:31-52 | an integer of the field's width is read back from its bytes |
| `Bytes.LittleOfValue` | src/linyaps_box/protocol/message.cpp:31-52 | any bytes are the bytes of the integer they are read as |
| `Bytes.TakeIntIff` | src/linyaps_box/protocol/message.cpp:40-52 | a signed field is taken off exactly the data that begins with its bytes |
| `Bytes.TakeTextIff` | src/linyaps_box/protocol/message.cpp:66-76 | a string is taken off exactly the data that begins with its length and its bytes |
| `Bytes.Writer.AppendText` | src/linyaps_box/protocol/message.cpp:54-64 | length and bytes are appended, or nothing when the length needs more than 32 bits |
| `Bytes.Reader.ReadNat` | src/linyaps_box/protocol/message.cpp:40-52 | reads the front of the rest and moves past it, or fails and stays, never past the end |
| `Bytes.Reader.ReadText` | src/linyaps_box/protocol/message.cpp:66-76 | the same for strings |
| `Wire.DecodeIff` | src/linyaps_box/protocol/message.cpp:127-192 | a datagram decodes to a message if and only if the message can be sent and the datagram begins with its encoding |
| `Wire.EncodingIsPrefixFree` | src/linyaps_box/protocol/message.cpp:89-125 | no encoding is the beginning of another |
| `Wire.CodesOnTheWire` | src/linyaps_box/protocol/message.h:25-45 | the bytes of every message without a record, in numbers |
| `Wire.LevelsOnTheWire` | src/linyaps_box/log/utils.h:20-26 | the first two bytes of a log record, in numbers |
| `Wire.IntegersOnTheWire` | src/linyaps_box/protocol/message.cpp:31-52 | integers on the wire, lowest byte first and negative ones from the top, in numbers |
| `Wire.SerializeLogInto` | src/linyaps_box/protocol/message.cpp:194-218 | appends the encoding of a log record, with or without source location, or fails exactly when a string is too large |
| `Wire.Serialize` | src/linyaps_box/protocol/message.cpp:89-125 | the encoding, or an error exactly when a string is too large |
| `Wire.Deserialize` | src/linyaps_box/protocol/message.cpp:127-192 | the procedure on an offset accepts exactly the encodings and what follows them |
| `MessageChannel.LeadingLogsAreAll` | src/linyaps_box/protocol/message_channel.cpp:201-217 | the leading log records are received one by one and what comes next is no log record |
| `MessageChannel.LastFatalIff` | src/linyaps_box/protocol/message_channel.cpp:170-190 | the saved errno is that of the last fatal record, and there is none exactly when no record is fatal |
| `MessageChannel.BrokenIsClose` | src/linyaps_box/protocol/message_channel.cpp:63-97 | exactly ECONNRESET, ENOTCONN and EPIPE count as a close |
| `MessageChannel.Channel.Recv` | src/linyaps_box/protocol/message_channel.cpp:63-107 | what one receive yields, and that a closed end is not consumed |
| `MessageChannel.Channel.DrainLogs` | src/linyaps_box/protocol/message_channel.cpp:201-217 | hands on exactly the leading log records and returns the first other packet, or the error of a close |
| `MessageChannel.Channel.WaitForStage` | src/linyaps_box/protocol/message_channel.cpp:124-158 | succeeds exactly when the first packet after the leading log records is the expected stage |
| `MessageChannel.Channel.WaitForClose` | src/linyaps_box/protocol/message_channel.cpp:160-199 | succeeds exactly when only log records come before the close and none is fatal; else the last fatal errno |
| `MessageChannel.Channel.ExpectStage` | src/linyaps_box/protocol/message_channel.cpp:244-264 | succeeds exactly when the very next packet is the expected stage |
| `MessageChannel.Channel.ExpectProceed` | src/linyaps_box/protocol/message_channel.cpp:266-281 | succeeds exactly when the very next packet is proceed |
| `MessageChannel.WaitingIsTurns` | src/linyaps_box/protocol/message_channel.cpp:124-158 | the receive loop is as many turns of the protocol model's parent as there are log records, and one more |
| `MessageChannel.StageWaitAgrees` | src/linyaps_box/protocol/message_channel.cpp:124-158 | the loop on serialized messages fails exactly when the protocol model's parent gives up |
| `MessageChannel.DrainAgrees` | src/linyaps_box/protocol/message_channel.cpp:201-217 | the same for the pid report and the console, which drain_logs returns |
| `MessageChannel.ExpectAgrees` | src/linyaps_box/protocol/message_channel.cpp:244-281 | expect_stage and expect_proceed go on exactly when the protocol model's child does |
| `MessageChannel.CloseWaitAgrees` | src/linyaps_box/protocol/message_channel.cpp:160-199 | the same for wait_for_close |
| `Words.MaskIsMod` | src/linyaps_box/utils/ringbuffer.h:42-60 | and-ing with a power of two less one is the remainder |
| `RingBuffer.Capacity` | src/linyaps_box/utils/ringbuffer.cpp:38-51 | the capacity is a power of two, at least the request and the page, less than twice the request when it grew; refused exactly above 2^62, without overflow |
| `RingBuffer.WrappedSlots` | src/linyaps_box/utils/ringbuffer.h:62-68 | a counter that wraps at 2^64 falls on the same bytes |
| `RingBuffer.ExtendWindow` | src/linyaps_box/utils/ringbuffer.h:42-60 | writing just past a window shorter than the memory extends it and changes none of it |
| `RingBuffer.Ring.ReadPtr` | src/linyaps_box/utils/ringbuffer.h:42-50 | the contents are contiguous from there in the doubled mapping |
| `RingBuffer.Ring.WritePtr` | src/linyaps_box/utils/ringbuffer.h:52-60 | the free space is contiguous from there, in the mapping, just past the contents |
| `RingBuffer.Ring.Fill` | src/linyaps_box/io/forwarder.cpp:78-82 | a read into the write window keeps the contents and stands right behind them |
| `RingBuffer.Ring.AdvanceHead` | src/linyaps_box/utils/ringbuffer.h:62-62 | the bytes behind the contents join them, even when head wraps |
| `RingBuffer.Ring.AdvanceTail` | src/linyaps_box/utils/ringbuffer.h:64-64 | the oldest bytes leave the contents, even when tail wraps |
| `Descriptors.Source.ReadSpan` | src/linyaps_box/utils/file_describer.cpp:234-269 | the status and bytes of the first system call that is not interrupted; the stream is what was taken and what is left |
| `Descriptors.StatusesOfReads` | src/linyaps_box/utils/file_describer.cpp:240-267 | which answer of the system makes which status of a read, both ways |
| `Descriptors.Sink.WriteSpan` | src/linyaps_box/utils/file_describer.cpp:271-310 | count and status are decided by the room ahead and the first system call that takes nothing; exactly the counted bytes were accepted |
| `VectoredWrite.Consume` | src/linyaps_box/utils/file_describer.cpp:381-414 | the inner loop drops exactly the written bytes from the batch, in a private copy once a buffer is cut |
| `VectoredWrite.WriteVecs` | src/linyaps_box/utils/file_describer.cpp:353-437 | for every split of the writes the sink has accepted the first `total` of the gathered bytes, the caller's array is not modified, and the status is that of the first system call that takes nothing, unless all is written or a batch ends in an empty buffer there |
| `VectoredWrite.SuccessIsComplete` | src/linyaps_box/utils/file_describer.cpp:369-437 | unless the write that stops it returns 0, success means all bytes if and only if nothing but empty buffers follows the first full batch that ends in an empty buffer |
| `Forwarder.Forwarder.Receive` | src/linyaps_box/io/forwarder.cpp:77-97 | what one read takes from the source joins the ring's contents |
| `Forwarder.Forwarder.Offer` | src/linyaps_box/io/forwarder.cpp:109-133 | one write_span: released only on success, and lost for re-sending exactly the bytes accepted otherwise |
| `Forwarder.Forwarder.Pull` | src/linyaps_box/io/forwarder.cpp:71-100 | moves a stretch of the source into the ring, charges the quota, and stops for would-block, end of file, a full ring or the quota, which only the last read may exceed |
| `Forwarder.Forwarder.Push` | src/linyaps_box/io/forwarder.cpp:102-138 | moves a beginning of the ring out, charges the quota, empties the ring unless the sink blocks, and clears it exactly when the sink fails |
| `Forwarder.Forwarder.Drive` | src/linyaps_box/io/forwarder.cpp:44-69 | terminates, accounts for at most 16384 + capacity - 1 bytes; reports blocked only when each end needed for progress reported would-block in this call or the sink failed, and else has used up the quota or given an end up in this call |
| `Forwarder.Forwarder.FinishedIff` | src/linyaps_box/io/forwarder.h:37-40 | finished means that the sink failed, or that everything read from the source was released |
| `Forwarder.NothingLostIff` | src/linyaps_box/io/forwarder.cpp:116-121 | no byte is lost exactly when every unsuccessful write accepted none |
| `Forwarder.Forwarder.SinkStream` | src/linyaps_box/io/forwarder.cpp:71-138 | while the sink works, pulled = released + ring contents, released is a beginning of the source, and the sink has exactly that if and only if no unsuccessful write accepted bytes |
| `Decimal.ValueOfDigits` | src/linyaps_box/utils/semver.cpp:167-180 | a number is read back from its decimal digits |
| `Decimal.DigitsOfValue` | src/linyaps_box/utils/semver.cpp:59-82 | digits without a needless zero in front are the digits of their number |
| `Semver.IdentifierCharIff` | src/linyaps_box/utils/semver.cpp:17-20 | the characters of an identifier are the ASCII letters and digits and the hyphen |
| `Semver.Validate` | src/linyaps_box/utils/semver.cpp:22-57 | accepts exactly the non-empty fields whose identifiers are all valid, but for an empty one at the end |
| `SemverText.FromCharsIff` | src/linyaps_box/utils/semver.cpp:59-82 | a number read with from_chars has 32 bits and a sign |
| `SemverText.SegmentIff` | src/linyaps_box/utils/semver.cpp:59-82 | exactly what to_string writes up to 2^31-1, and zeros after a minus sign, are numbers |
| `SemverText.ParseSuffix` | src/linyaps_box/utils/semver.cpp:104-126 | prerelease and build are found exactly when the suffix is theirs |
| `SemverText.Parse` | src/linyaps_box/utils/semver.cpp:84-127 | accepts exactly the texts that denote a version, and makes that version |
| `SemverText.DenotesOne` | src/linyaps_box/utils/semver.cpp:84-127 | a text denotes at most one version |
| `SemverText.ReadsBackIff` | src/linyaps_box/utils/semver.cpp:167-180 | what is written is read back if and only if the numbers are at most 2^31-1 and the identifiers valid |
| `SemverText.WritesBackIff` | src/linyaps_box/utils/semver.cpp:73-82 | what is read is written back if and only if neither major nor minor has a sign |
| `SemverOrder.ComparePrereleases` | src/linyaps_box/utils/semver.cpp:191-257 | the loop on cursors compares the lists of identifiers |
| `SemverOrder.CompareIdentifiers` | src/linyaps_box/utils/semver.cpp:213-246 | numbers before names, numbers by value, names by characters |
| `SemverOrder.StrictWeakOrder` | src/linyaps_box/utils/semver.cpp:270-285 | on all versions: irreflexive, transitive, ties transitive, equal versions tie |
| `SemverOrder.TiedIff` | src/linyaps_box/utils/semver.cpp:191-257 | versions tie exactly when their numbers and the keys of their identifiers agree |
| `SemverOrder.LessIsPrecedence` | src/linyaps_box/utils/semver.cpp:270-285 | where identifiers are well-formed and numbers of 64 bits, the order is section 11 of SemVer 2.0.0 and ties are equality |
| `SemverOrder.PrecedenceIff` | src/linyaps_box/utils/semver.cpp:213-226 | a version stands where section 11 puts it among those versions if and only if it is one of them |
| `RangeList.SpaceIff` | src/linyaps_box/config.cpp:80-85 | the characters up to the space count as spaces |
| `RangeList.ParseIff` | src/linyaps_box/config.cpp:70-166 | numbers come out if and only if the text is of the grammar and they are its expansion in order |
| `RangeList.PrintedParses` | src/linyaps_box/config.cpp:70-166 | parsing inverts printing |
| `RangeList.AppendNumbers` | src/linyaps_box/config.cpp:143-150 | the unsigned count of a range does not wrap, and the loop appends exactly its numbers |
| `RangeList.ParseRangeList` | src/linyaps_box/config.cpp:70-166 | the loop on a pointer agrees with the parser by grammar, errors included |
| `MountOptions.ParseMountOptions` | src/linyaps_box/config.cpp:275-378 | one pass gives what the options make one after the other, and stops at the first error about ids |
| `MountOptions.VfsByLastOption` | src/linyaps_box/config.cpp:298-308 | a flag is set if and only if the last option that sets or clears it sets it |
| `MountOptions.VfsByNames` | src/linyaps_box/config.cpp:298-308 | a flag of the mount is set if and only if, of the options that the two tables name with it, the last stands in the table that sets |
| `MountOptions.OtherFlagsByNames` | src/linyaps_box/config.cpp:309-331 | a propagation or recursive flag is there if and only if some option's name stands in that table with it |
| `MountOptions.TablesAreApart` | src/linyaps_box/config/mount_options.h:24-105 | no option name stands twice, in one table or in two |
| `MountOptions.OppositesAgree` | src/linyaps_box/config/mount_options.h:46-105 | each option that clears has an opposite that sets the same bits |
| `MountOptions.PropagationsAreTwofold` | src/linyaps_box/config/mount_options.h:64-73 | each propagation comes alone and, with an r in front, for everything below |
| `MountOptions.BitsAreTheKernels` | src/linyaps_box/config/mount_options.h:23-92 | the bits' places in the flag words of mount(2) and mount_setattr(2), in numbers |
| `MountOptions.OwnOptions` | src/linyaps_box/config.cpp:331-344 | the four options of the program's own and what they do |
| `MountOptions.InlineOptions` | src/linyaps_box/config.cpp:345-359 | an option that begins with "idmap=" or "ridmap=" is an inline mapping of what follows |
| `MountOptions.UnknownIff` | src/linyaps_box/config.cpp:333-367 | exactly the options that no table names and that are none of the program's own go to the file system |
| `MountOptions.InlineByKeys` | src/linyaps_box/config.cpp:230-271 | an inline mapping is taken key by key; each key replaces the mappings of its kind |
| `MountOptions.ChunkIs` | src/linyaps_box/config.cpp:168-197 | a mapping is three numbers between colons, of 32, 32 and 64 bits, and nothing else |
| `MountOptions.ChunkNeedsColons` | src/linyaps_box/config.cpp:168-180 | without two colons there is no mapping |
| `MountOptions.InlineNeedsKeys` | src/linyaps_box/config.cpp:246-251 | an inline mapping without an equals sign is refused |
| `MountOptions.MappingsByCommas` | src/linyaps_box/config.cpp:203-222 | mappings stand between commas, in order |
| `MountOptions.MappingReadsBack` | src/linyaps_box/config.cpp:168-197 | a mapping that is written with its numbers is read back |
| `MountOptions.PartsByCategory` | src/linyaps_box/config.cpp:297-367 | the options of one category alone make exactly that category's part of what all options make |
| `MountOptions.ReorderingKeepsParts` | src/linyaps_box/config.cpp:275-378 | moving options past options of other categories changes neither the mount nor an error |
| `MountOptions.DataIsUnknownOptions` | src/linyaps_box/config.cpp:361-367 | the unknown options come out comma-joined in order, from the first non-empty one on |
| `MountOptions.InlineHoldsOneMapping` | src/linyaps_box/config.cpp:203-271 | an accepted inline mapping has at most one mapping of each kind |
| `MountOptions.NameFlags` | src/linyaps_box/config/mount_options.h:126-135 | the loop names entries whose bits are all there and takes those bits out |
| `MountOptions.DumpPartitions` | src/linyaps_box/config/mount_options.h:126-135 | every bit is printed once, in a name or in the number; printed entries share no bit, and no entry of the table is left whole in the number |
| `MountPlan.DoRemount` | src/linyaps_box/container.cpp:322-382 | the calls are at most three, in the order of the fallbacks, each after the one before failed; success is the last one's, and it gives up only when no fallback is left |
| `MountPlan.AttemptsAskForMore` | src/linyaps_box/container.cpp:322-382 | every attempt has the requested flags plus only flags the destination reports, and a remount passes no data |
| `MountPlan.ThirdAttemptRepeats` | src/linyaps_box/container.cpp:370-379 | for a read-only remount the third attempt is the second one again |
| `MountPlan.Mounter.MountOther` | src/linyaps_box/container.cpp:544-596 | succeeds exactly when its last call does, with that call's error otherwise; sysfs falls back exactly after EPERM in a user namespace; nothing is made read-only unless the mount's own options do |
| `MountPlan.Mounter.MountBind` | src/linyaps_box/container.cpp:456-502 | one call without the read-only flag, whose answer is the result, or none without a source |
| `MountPlan.Mounter.DoMount` | src/linyaps_box/container.cpp:510-660 | succeeds exactly when its last call does, and names that call's error otherwise; on success the calls are those of the mount, its propagation and its immediate remount, and a remount is left if and only if the mount is read-only and no cgroup |
| `MountPlan.CgroupKinds` | src/linyaps_box/container.cpp:527-533 | cgroup mounts are those whose type begins with "cgroup" |
| `MountPlan.Mounter.DoMounts` | src/linyaps_box/container.cpp:760-815 | every mount is carried out in order, and the deferred remounts are those of the read-only ones |
| `MountPlan.Mounter.MaskPaths` | src/linyaps_box/container.cpp:874-932 | every masked path that exists leaves a remount; the "did not produce a remount entry" errors never come |
| `MountPlan.Mounter.ProtectPaths` | src/linyaps_box/container.cpp:817-872 | the same for read-only paths |
| `MountPlan.Mounter.Finish` | src/linyaps_box/container.cpp:934-946 | the deferred remounts are issued once each in reverse order, after all else |
| `MountPlan.ConfigureMounts` | src/linyaps_box/container.cpp:1105-1128 | fails only when the last call did or the plan refuses a mount or path, and succeeds when the kernel agrees to every call; then the calls, each with its answer, are exactly those of all mounts in order, followed by the remounts of everything read-only from the last mount to the first, and none failed that has no fallback |
| `MountPlan.AllDeferredIs` | src/linyaps_box/container.cpp:1117-1125 | what is deferred is the root's remount and those of the read-only ones among all mounts, and each of them is a remount |
| `MountPlan.RootIsLast` | src/linyaps_box/container.cpp:751-757 | the last calls ask for a read-only bind remount of ".", and the last of them succeeded |
| `MountPlan.ReadOnlyMountsAreServed` | src/linyaps_box/container.cpp:934-946 | after a plan that succeeded each read-only mount was made read-only by calls on its own destination, as a bind unless it is proc |
| `MountPlan.MaskedPathIsHidden` | src/linyaps_box/container.cpp:905-930 | a masked directory is covered by an empty tmpfs, any other masked path by a bind, and both leave a read-only remount |
| `MountPlan.ProtectedPathIsBound` | src/linyaps_box/container.cpp:840-870 | a read-only path is bound with the flags of its file system but for a remount, made private, and leaves a read-only remount that keeps those flags |
| `MountPlan.RootIsRebound` | src/linyaps_box/container.cpp:736-746 | the root is bound recursively, made private, and remounted as that bind |
| `Streams.ProbeAndGrow` | src/linyaps_box/io/stream.cpp:40-63 | a probe appends what it read, and takes a short read for the end |
| `Streams.ReadToEnd` | src/linyaps_box/io/stream.cpp:65-133 | terminates, and fails only when a read does; on success the buffer has gained the file to its end, unless a probe was short before it, which a size hint and an empty buffer rule out; the size of the first read is exact, none is above 64 KiB, and a sufficient hint, or room enough for what is left, spares any growth |
| `Streams.ReadFile` | src/linyaps_box/status_directory.cpp:79-91 | a later read returns exactly the bytes of the file, however its reads are cut up |
| `StatusFile.CreateTemporary` | src/linyaps_box/status_directory.cpp:29-55 | at most eight names are tried, in order; success adds one new empty file and nothing else |
| `StatusFile.ChosenAt` | src/linyaps_box/status_directory.cpp:29-55 | the name is the first that is free; a name is passed over only for EEXIST, and any other error ends the search |
| `StatusFile.WriteAll` | src/linyaps_box/io/stream.cpp:135-148 | every state of the temporary file is a beginning of the content, the last one all of it |
| `StatusFile.AtomicWrite` | src/linyaps_box/status_directory.cpp:19-77 | every state on the way, both fsyncs and the rename among them, is one of a replacement of the target alone; the result is that of the first system call that fails, but for the fsyncs; success has installed the new file; an error leaves no name behind unless unlinking fails |
| `StatusFile.OldOrNew` | src/linyaps_box/status_directory.cpp:19-77 | a process killed in such a state leaves the target complete, old or new, and every other file as it was |
| `StatusFile.InstalledIsFound` | src/linyaps_box/status_directory.cpp:19-77 | after success the target has the new content and every other name what it had |
| `StatusFile.OldOrNewAfterPowerLoss` | src/linyaps_box/status_directory.cpp:63-76 | if the fsync of the file works, a loss of power in any state on the way leaves what could have been left before, but for the temporary file and a target with the whole new content |
| `StatusFile.PowerLossIff` | src/linyaps_box/status_directory.cpp:63-76 | after success the new content survives a loss of power for certain if and only if the fsync of the file worked, and that of the directory too unless the target had that content for certain before |
| `StatusFile.CompleteTargetIff` | src/linyaps_box/status_directory.cpp:63-66 | after success a loss of power leaves the target as it could be before or with the whole new content, if and only if the fsync of the file worked, or unwritten bytes were possible before |

## Left out

- Removal.Host.RemoveAllInDir: not stated for the names "", "." and "..", which `Root::remove_all` refuses from the path's text before it calls; getdents64 buffers are not modelled, only the names they report.
- Rootfs.EnterLink: whether a link may be followed (protected symlinks, magic links) is an error table of the file tree.
- KernelWalk.PathMatchesIff: the kernel's verdicts on links and its search errors are the same tables, so that it asks `may_follow_link` only for a last link, and limits the length of a path, is not modelled.
- Choreography.ParentStep: on a socket pair of `AF_UNIX` a peer that closes with unread data in its own queue makes the reader see ECONNRESET before what is queued; here the parent still reads all of it.
- SemverOrder.CompareIdentifiers: characters are compared by their codes; the source compares `char`, which may be signed. Validated identifiers are ASCII, where the two agree.
- Forwarder.Forwarder.Drive: the epoll and signal loop that calls it depends on the kernel's event delivery.
- VectoredWrite.WriteVecs: an iovec is the bytes it spans, so pointers into the caller's memory do not appear.
- RingBuffer.Ring.Fill: the two mappings are one array read modulo the capacity; memfd and mmap are not modelled.
- MountPlan.ConfigureMounts: opening and creating destinations, reopening the root, copied symbolic links, making the old root private, and device nodes that need no mount are left out.
- StatusFile.AtomicWrite: other processes do not change the directory meanwhile; a write to the temporary file takes at least one byte or fails. A file system that lets changes of one directory reach the disk out of order is not modelled.
- MessageChannel.Channel.Recv: passed file descriptors are not modelled, and waiting for a peer that neither sends nor closes is not either.
- Descriptors of open files, their ownership and exhaustion, `/proc` parsing, and processes that change the file system during a walk.
- Time, JSON, command line, validation of configurations, log sinks, cgroups, terminals, capabilities, and hooks beyond their place in the order.
- `read_vecs`, `is_compatible_with` and `to_log_context`, which would add only easy members; the other comparison operators of versions, which are `operator<` and `operator==` negated or turned around.
